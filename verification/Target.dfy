/** Difficulty targets in 256 bits: the compact form read and written with limb
    arithmetic, and the work that a target proves. */
module Target {
  import opened Limbs
  import opened ArithUint
  import Nonlinear
  import LimbShifts
  import C = Compact

  const WIDTH := 8

  /* Bytes and bits */

  lemma {:induction false} UpPow(v: nat, bytes: nat)
    ensures C.Up(v, bytes) == v * Pow2(8 * bytes)
  {
    if bytes > 0 {
      UpPow(v, bytes - 1);
      Pow2Add(8, 8 * (bytes - 1));
      assert Pow2(8) == 256;
      Nonlinear.Reorder(v, 256, Pow2(8 * (bytes - 1)));
    }
  }

  lemma {:induction false} DownPow(v: nat, bytes: nat)
    ensures C.Down(v, bytes) == v / Pow2(8 * bytes)
  {
    if bytes > 0 {
      DownPow(v / 256, bytes - 1);
      Pow2Add(8, 8 * (bytes - 1));
      assert Pow2(8) == 256;
      LimbShifts.Quotient(v / 256, Pow2(8 * (bytes - 1)));
      FloorTwice(v, v % 256, 256, v / 256, Pow2(8 * (bytes - 1)), v / 256 / Pow2(8 * (bytes - 1)),
        v / 256 % Pow2(8 * (bytes - 1)));
    }
  }

  lemma LimitIsMod()
    ensures C.Limit() == Mod(WIDTH) == Pow2(256)
  {
    UpPow(1, 32);
    ModPow2(WIDTH);
  }

  lemma {:induction false} BytesOfBits(v: nat, n: nat)
    requires HasBits(v, n)
    ensures C.Bytes(v) == (n + 7) / 8
  {
    if n > 8 {
      Pow2Add(8, n - 9);
      Pow2Add(8, n - 8);
      assert Pow2(8) == 256;
      BytesOfBits(v / 256, n - 8);
    } else if n > 0 {
      Pow2Mono(n, 8);
      assert Pow2(8) == 256 && v / 256 == 0;
    }
  }

  /* The compact form */

  lemma SmallWord(n: nat, size: nat)
    requires size == C.Size(n) <= 3
    ensures var word := n % C.SIGN / Pow2(8 * (3 - size));
      0 <= word < BASE && word == C.Word(n) == C.Exact(n) && C.Limit() > 0 && word == word % C.Limit()
  {
    DownPow(n % C.SIGN, 3 - size);
    C.DownAtMost(n % C.SIGN, 3 - size);
    BelowLimit(C.Word(n));
  }

  lemma BelowLimit(v: nat)
    requires v < BASE
    ensures C.Limit() > 0 && v == v % C.Limit()
  {
    LimitIsMod();
    Pow2Mono(32, 256);
    Pow2Limb();
    Nonlinear.Small(v, C.Limit());
  }

  lemma LargeWord(n: nat, size: nat)
    requires size == C.Size(n) > 3
    ensures n % C.SIGN == C.Word(n) && C.Exact(n) == n % C.SIGN * Pow2(8 * (size - 3)) && C.Limit() == Mod(WIDTH) > 0
  {
    LimitIsMod();
    UpPow(n % C.SIGN, size - 3);
  }

  method SetCompact(x: Uint, n: nat) returns (negative: bool, overflow: bool)
    requires x.pn.Length == WIDTH && n < BASE
    modifies x.pn
    ensures overflow <==> C.Exact(n) >= C.Limit()
    ensures negative <==> C.IsNegative(n)
    ensures C.Limit() > 0 && x.Value() == C.Exact(n) % C.Limit()
  {
    var size, word := n / C.SIZE_UNIT, n % C.SIGN;
    C.OverflowExact(n);
    if size <= 3 {
      SmallWord(n, size);
      word := word / Pow2(8 * (3 - size));
      x.AssignWord(word);
    } else {
      LargeWord(n, size);
      x.AssignWord(word);
      x.Shl(8 * (size - 3));
    }
    negative := word != 0 && n / C.SIGN % 2 == 1;
    overflow := word != 0 && (size > 34 || (word > 0xff && size > 33) || (word > 0xffff && size > 32));
  }

  // The three highest bytes, with zeros below a shorter number.
  method TopBytes(x: Uint, size: nat) returns (m: nat)
    requires x.pn.Length == WIDTH && size == C.Bytes(x.Value())
    ensures m == C.Mantissa(x.Value())
  {
    C.MantissaBound(x.Value());
    if size <= 3 {
      C.BytesBounds(x.Value());
      C.UpMono(size, 3);
      C.SmallUps(3);
      UpPow(x.Value(), 3 - size);
      var low := x.GetLow64();
      Nonlinear.Small(x.Value(), BASE * BASE);
      m := low * Pow2(8 * (3 - size));
    } else {
      var bn := new Uint.Copy(x);
      bn.Shr(8 * (size - 3));
      DownPow(x.Value(), size - 3);
      m := bn.GetLow64();
      Nonlinear.Small(bn.Value(), BASE * BASE);
    }
  }

  method GetCompact(x: Uint, negative: bool) returns (r: nat)
    requires x.pn.Length == WIDTH
    ensures r == C.Encode(x.Value(), negative)
  {
    var bits := x.Bits();
    var size := (bits + 7) / 8;
    BytesOfBits(x.Value(), bits);
    var m := TopBytes(x, size);
    C.MantissaBound(x.Value());
    if m / C.SIGN % 2 == 1 {
      m := m / 256;
      size := size + 1;
    }
    assert m < C.SIGN && size < 256;
    r := m + size * C.SIZE_UNIT;
    if negative && m != 0 {
      r := r + C.SIGN;
    }
  }

  /* Work */

  // What a block with compact target n proves: 2^256 divided by target + 1.
  function Work(n: nat): nat {
    if C.IsNegative(n) || C.Overflows(n) || C.Exact(n) == 0 then 0
    else Quotient(C.Limit(), C.Exact(n) + 1)
  }

  function Quotient(a: nat, b: nat): nat
    requires b > 0
  { a / b }

  // Dividing the complement avoids the number 2^256, which does not fit.
  lemma ComplementQuotient(limit: nat, target: nat)
    requires 0 < target && target + 1 < limit
    ensures (limit - 1 - target) / (target + 1) + 1 == limit / (target + 1) < limit
  {
    var d := target + 1;
    var q, r := (limit - 1 - target) / d, (limit - 1 - target) % d;
    LimbShifts.Quotient(limit - 1 - target, d);
    Nonlinear.Split(d, q, 1);
    Nonlinear.DivUnique(limit, d, q + 1, r);
  }

  // A target that is not flagged leaves room for the addition of one.
  lemma RoomForOne(n: nat)
    requires n < BASE && !C.Overflows(n)
    ensures C.Exact(n) + 1 < C.Limit()
  {
    C.OverflowExact(n);
    if C.Size(n) > 3 {
      ShiftsApart(C.Word(n), C.Size(n) - 3);
    } else {
      C.DownAtMost(n % C.SIGN, 3 - C.Size(n));
      C.SmallUps(32);
    }
  }

  // Both are multiples of 256.
  lemma ShiftsApart(w: nat, k: nat)
    requires k > 0 && C.Up(w, k) < C.Limit()
    ensures C.Up(w, k) + 1 < C.Limit()
  {
    assert C.Up(w, k) == 256 * C.Up(w, k - 1);
    assert C.Up(1, 32) == 256 * C.Up(1, 31);
  }

  // Never divides by zero.
  method GetBlockProof(n: nat) returns (r: Uint)
    requires n < BASE
    ensures fresh(r) && fresh(r.pn) && r.pn.Length == WIDTH && r.Value() == Work(n)
  {
    var target := new Uint(WIDTH);
    var negative, overflow := SetCompact(target, n);
    C.OverflowExact(n);
    var isZero := target.EqualTo(0);
    if negative || overflow {
      r := new Uint(WIDTH);
      return;
    }
    Nonlinear.Small(C.Exact(n), C.Limit());
    if isZero {
      r := new Uint(WIDTH);
      return;
    }
    RoomForOne(n);
    LimitIsMod();
    r := ComplementDivided(target);
  }

  method ComplementDivided(target: Uint) returns (r: Uint)
    requires target.pn.Length >= 2 && 0 < target.Value() && target.Value() + 1 < Mod(target.pn.Length)
    ensures fresh(r) && fresh(r.pn) && r.pn.Length == target.pn.Length
    ensures r.Value() == Mod(target.pn.Length) / (target.Value() + 1)
  {
    ComplementQuotient(Mod(target.pn.Length), target.Value());
    var divisor := new Uint.Copy(target);
    AddOne(divisor);
    r := target.Not();
    var thrown := r.Div(divisor);
    assert !thrown;
    AddOne(r);
  }

  method AddOne(x: Uint)
    requires x.pn.Length >= 2 && x.Value() + 1 < Mod(x.pn.Length)
    modifies x.pn
    ensures x.Value() == old(x.Value()) + 1
  {
    Nonlinear.Small(x.Value() + 1, Mod(x.pn.Length));
    var one := new Uint(x.pn.Length);
    one.AssignWord(1);
    x.Add(one);
  }
}
