/** Unsigned numbers of a fixed number of 32-bit limbs, as an object whose
    operators overwrite the limb array with carry, shift and division loops.
    Every operator is proved to compute on the numbers that the limbs stand for,
    modulo the width. */
module ArithUint {
  import opened Limbs
  import opened LimbShifts
  import Nonlinear

  // The number of bits of v: the position of its highest bit plus one.
  ghost predicate HasBits(v: nat, n: nat) {
    if n == 0 then v == 0 else Pow2(n - 1) <= v < Pow2(n)
  }

  lemma ModUnique(w: nat, s: seq<Limb>, over: int, v: int)
    requires |s| == w && Val(s) + Mod(w) * over == v
    ensures Mod(w) > 0 && Val(s) == v % Mod(w)
  {
    ModPow2(w);
    ValBound(s);
    Nonlinear.DivUnique(v, Mod(w), over, Val(s));
  }

  lemma ValTwo(s: seq<Limb>)
    requires |s| >= 2
    ensures Val(s) == s[0] + BASE * (s[1] + BASE * Val(s[2..]))
  {
    assert s[1..][0] == s[1] && s[1..][1..] == s[2..];
  }

  lemma NextLimb(s: seq<Limb>, i: nat)
    requires i < |s|
    ensures Val(s[..i + 1]) == Val(s[..i]) + Mod(i) * s[i]
  {
    ValSnoc(s[..i + 1], i);
    assert s[..i + 1][..i] == s[..i];
  }

  class Uint {
    const pn: array<Limb>

    constructor (width: nat)
      requires width >= 2
      ensures fresh(pn) && pn.Length == width && Value() == 0
    {
      pn := new Limb[width](_ => 0);
      new;
      ValZeros(pn[..]);
    }

    constructor Copy(b: Uint)
      ensures fresh(pn) && pn.Length == b.pn.Length && pn[..] == b.pn[..]
    {
      pn := new Limb[b.pn.Length];
      new;
      for i := 0 to pn.Length
        invariant pn[..i] == b.pn[..i]
      {
        pn[i] := b.pn[i];
      }
    }

    ghost function Value(): nat
      reads pn
    { Val(pn[..]) }

    method Zero()
      modifies pn
      ensures forall i :: 0 <= i < pn.Length ==> pn[i] == 0
      ensures Value() == 0
    {
      for i := 0 to pn.Length
        invariant forall j :: 0 <= j < i ==> pn[j] == 0
      {
        pn[i] := 0;
      }
      ValZeros(pn[..]);
    }

    // A 64-bit number.
    method AssignWord(b: nat)
      requires b < BASE * BASE && pn.Length >= 2
      modifies pn
      ensures Value() == b
    {
      pn[0], pn[1] := b % BASE, b / BASE;
      for i := 2 to pn.Length
        invariant pn[0] == b % BASE && pn[1] == b / BASE && forall j :: 2 <= j < i ==> pn[j] == 0
      {
        pn[i] := 0;
      }
      ValTwo(pn[..]);
      ValZeros(pn[..][2..]);
    }

    // The value, if it fits 64 bits.
    method GetLow64() returns (r: nat)
      requires pn.Length >= 2
      ensures r == Value() % (BASE * BASE)
    {
      r := pn[0] + pn[1] * BASE;
      ValTwo(pn[..]);
      Nonlinear.DivUnique(Value(), BASE * BASE, Val(pn[..][2..]), r);
    }

    method Add(b: Uint)
      requires b.pn.Length == pn.Length
      modifies pn
      ensures Mod(pn.Length) > 0 && Value() == (old(Value()) + old(b.Value())) % Mod(pn.Length)
    {
      ghost var p, q := pn[..], b.pn[..];
      var carry: Limb := 0;
      for i := 0 to pn.Length
        invariant b.pn[i..] == q[i..] && SumInv(p, q, i, pn[..], carry)
      {
        assert b.pn[i] == b.pn[i..][0];
        SumCell(p, q, i, pn[..], carry);
        var n := carry + pn[i] + b.pn[i];
        pn[i] := n % BASE;
        carry := n / BASE;
      }
      SumTotal(p, q, pn[..], carry);
      ModUnique(pn.Length, pn[..], carry, Val(p) + Val(q));
    }

    method MulWord(b32: Limb)
      modifies pn
      ensures Mod(pn.Length) > 0 && Value() == b32 * old(Value()) % Mod(pn.Length)
    {
      ghost var p := pn[..];
      var carry: Limb := 0;
      for i := 0 to pn.Length
        invariant pn[i..] == p[i..]
        invariant Val(pn[..i]) + Mod(i) * carry == b32 * Val(p[..i])
      {
        assert pn[i] == pn[i..][0];
        ghost var done := pn[..i];
        SumFits(carry, 0, b32, pn[i]);
        var n := carry + b32 * pn[i];
        pn[i] := n % BASE;
        assert pn[..i + 1][..i] == done;
        ChainStep(pn[..i + 1], i, carry, b32 * p[i], n, b32 * Val(p[..i]));
        NextLimb(p, i);
        Nonlinear.Distribute(b32, Val(p[..i]), Mod(i), p[i]);
        Nonlinear.Reorder(Mod(i), b32, p[i]);
        carry := n / BASE;
      }
      assert pn[..pn.Length] == pn[..] && p[..pn.Length] == p;
      ModUnique(pn.Length, pn[..], carry, b32 * Val(p));
    }

    method Increment()
      requires pn.Length > 0
      modifies pn
      ensures Value() == if old(Value()) + 1 == Mod(pn.Length) then 0 else old(Value()) + 1
    {
      ghost var p := pn[..];
      var i := 0;
      while pn[i] == BASE - 1 && i < pn.Length - 1
        invariant 0 <= i < pn.Length
        invariant forall j :: 0 <= j < i ==> p[j] == BASE - 1 && pn[j] == 0
        invariant forall j :: i <= j < pn.Length ==> pn[j] == p[j]
      {
        pn[i] := 0;
        i := i + 1;
      }
      pn[i] := if pn[i] == BASE - 1 then 0 else pn[i] + 1;
      IncrementVal(p, i, pn[..]);
    }

    // The complement, as a new number.
    method Not() returns (r: Uint)
      requires pn.Length >= 2
      ensures fresh(r) && fresh(r.pn) && r.pn.Length == pn.Length && r.Value() == Mod(pn.Length) - 1 - Value()
    {
      r := new Uint(pn.Length);
      for i := 0 to pn.Length
        invariant r.pn[..i] == Complement(pn[..])[..i]
      {
        r.pn[i] := BASE - 1 - pn[i];
      }
      assert r.pn[..] == Complement(pn[..]);
      ComplementVal(pn[..]);
    }

    // Two's complement.
    method Negated() returns (r: Uint)
      requires pn.Length >= 2
      ensures fresh(r) && fresh(r.pn) && r.pn.Length == pn.Length
      ensures r.Value() == if Value() == 0 then 0 else Mod(pn.Length) - Value()
    {
      r := Not();
      ValBound(r.pn[..]);
      r.Increment();
    }

    method Sub(b: Uint)
      requires b.pn.Length == pn.Length >= 2
      modifies pn
      ensures Value() == old(Value()) - old(b.Value()) + if old(Value()) >= old(b.Value()) then 0 else Mod(pn.Length)
    {
      var minus := b.Negated();
      ghost var a, v, m := Value(), b.Value(), Mod(pn.Length);
      ValBound(pn[..]);
      ValBound(b.pn[..]);
      Add(minus);
      SubMod(a, v, m, minus.Value());
    }

    // One row of the product: x times b, added from limb j on. Where b is this
    // number, both are zero, and stay so.
    method AddRow(j: nat, x: Limb, b: Uint) returns (ghost c: nat)
      requires b.pn.Length == pn.Length && j <= pn.Length && (b.pn == pn ==> AllZero(pn[..]))
      modifies pn
      ensures pn[..j] == old(pn[..j]) && b.pn[..] == old(b.pn[..])
      ensures RowDone(old(pn[j..]), x, b.pn[..pn.Length - j], c, pn[j..])
    {
      ghost var p, q := pn[j..], b.pn[..];
      var w := pn.Length - j;
      var carry: Limb := 0;
      for i := 0 to w
        invariant pn[..j] == old(pn[..j]) && b.pn[..] == q && (b.pn == pn ==> carry == 0)
        invariant RowInv(p, x, q, i, pn[j..], carry)
      {
        ghost var row := pn[j..];
        SumFits(carry, pn[i + j], x, b.pn[i]);
        var n := carry + pn[i + j] + x * b.pn[i];
        assert pn[i + j] == row[i] && (b.pn == pn ==> pn[i + j] == q[i + j] && n == 0);
        pn[i + j] := n % BASE;
        assert pn[j..] == row[i := n % BASE];
        RowCell(p, x, q, i, row, carry);
        carry := n / BASE;
      }
      RowEnds(p, x, q, pn[j..], carry);
      c := carry;
    }

    // The product. Multiplying a number by itself in place gives zero, because
    // it is cleared before it is read.
    method Mul(b: Uint)
      requires b.pn.Length == pn.Length >= 2
      modifies pn
      ensures Mod(pn.Length) > 0
      ensures Value() == if b.pn == pn then 0 else old(Value()) * b.Value() % Mod(pn.Length)
    {
      var a := new Uint.Copy(this);
      Zero();
      var w := pn.Length;
      ghost var over := 0;
      ModPow2(w);
      ghost var q := b.pn[..];
      for j := 0 to w
        invariant a.pn[..] == old(pn[..]) && b.pn[..] == q && (b.pn == pn ==> AllZero(q))
        invariant Val(pn[..]) + Mod(w) * over == Val(a.pn[..j]) * Val(q)
      {
        ghost var before := pn[..];
        ghost var c := AddRow(j, a.pn[j], b);
        ghost var more := RowAdds(before, j, a.pn[j], q, c, pn[..]);
        NextLimb(a.pn[..], j);
        NextRow(Val(pn[..]), Val(before), Mod(w), over, more, Val(a.pn[..j]), Mod(j), a.pn[j], Val(q));
        over := over + more;
      }
      assert a.pn[..w] == old(pn[..]);
      ModUnique(w, pn[..], over, old(Value()) * Val(q));
      if b.pn == pn {
        ValZeros(pn[..]);
      }
    }

    // A limb of a left shift is written; the limb above it gets the carry.
    method ShlPlace(x: Limb, s: nat, at: nat)
      requires s < 32 && at < pn.Length && pn[at] < Pow2(s) && (at + 1 < pn.Length ==> pn[at + 1] == 0)
      modifies pn
      ensures pn[at] == (old(pn[at]) as int) + Low(x, s)
      ensures at + 1 < pn.Length ==> pn[at + 1] == High(x, s)
      ensures forall t :: 0 <= t < pn.Length && t != at && t != at + 1 ==> pn[t] == old(pn[t])
    {
      LowHigh(x, s);
      if at + 1 < pn.Length && s != 0 {
        pn[at + 1] := High(x, s);
      }
      pn[at] := Or(pn[at], Low(x, s), s, x % Pow2(32 - s));
    }

    method Shl(shift: nat)
      requires pn.Length >= 2
      modifies pn
      ensures Mod(pn.Length) > 0 && Value() == old(Value()) * Pow2(shift) % Mod(pn.Length)
    {
      var a := new Uint.Copy(this);
      Zero();
      ShlLimbs(a, shift / 32, shift % 32);
    }

    // Places the limbs of a in this number, which is zero.
    method ShlLimbs(a: Uint, k: nat, s: nat)
      requires a.pn != pn && a.pn.Length == pn.Length && s < 32 && forall t :: 0 <= t < pn.Length ==> pn[t] == 0
      modifies pn
      ensures Mod(pn.Length) > 0 && Value() == a.Value() * Pow2(32 * k + s) % Mod(pn.Length)
    {
      ghost var c: Limb := 0;
      ShlStart(a.pn[..], k, s, pn[..]);
      for i := 0 to pn.Length
        invariant ShlInv(a.pn[..], k, s, i, pn[..], c)
      {
        if i + k < pn.Length {
          ghost var p := pn[..];
          ShlPlace(a.pn[i], s, i + k);
          ShlNext(a.pn[..], k, s, i, p, c, pn[..]);
          c := High(a.pn[i], s);
        }
      }
      if k < pn.Length {
        ShlEnd(a.pn[..], k, s, pn[..], c);
      } else {
        ShlGone(a.pn[..], k, s, pn[..]);
      }
    }

    // A limb of a right shift is written; its low bits go to the limb below.
    method ShrPlace(x: Limb, s: nat, at: nat)
      requires 0 < at < pn.Length && s < 32 && pn[at - 1] < Pow2(32 - s) && pn[at] == 0
      modifies pn
      ensures pn[at] == Down(x, s) && pn[at - 1] == (old(pn[at - 1]) as int) + (x % Pow2(s)) * Pow2(32 - s)
      ensures forall t :: 0 <= t < pn.Length && t != at && t != at - 1 ==> pn[t] == old(pn[t])
    {
      LowPart(x, s);
      if s != 0 {
        pn[at - 1] := Or(pn[at - 1], Low(x, 32 - s), 32 - s, x % Pow2(s));
      }
      pn[at] := Down(x, s);
    }

    method Shr(shift: nat)
      requires pn.Length >= 2
      modifies pn
      ensures Value() == old(Value()) / Pow2(shift)
    {
      var a := new Uint.Copy(this);
      Zero();
      ShrLimbs(a, shift / 32, shift % 32);
    }

    method ShrLimbs(a: Uint, k: nat, s: nat)
      requires a.pn != pn && a.pn.Length == pn.Length && s < 32 && forall t :: 0 <= t < pn.Length ==> pn[t] == 0
      modifies pn
      ensures Pow2(32 * k + s) > 0 && Value() == a.Value() / Pow2(32 * k + s)
    {
      for i := 0 to pn.Length
        invariant ShrInv(a.pn[..], k, s, i, pn[..])
      {
        ghost var p := pn[..];
        if i > k {
          DownHigh(a.pn[i - 1], s);
          ShrPlace(a.pn[i], s, i - k);
          ShrNext(a.pn[..], k, s, i, p, pn[..]);
        } else if i == k {
          pn[0] := Down(a.pn[i], s);
          ShrFirst(a.pn[..], k, s, pn[..]);
        }
      }
      if k < pn.Length {
        ShrEnd(a.pn[..], k, s, pn[..]);
      } else {
        ShrGone(a.pn[..], k, s, pn[..]);
      }
    }

    method EqualTo(b: nat) returns (r: bool)
      requires b < BASE * BASE && pn.Length >= 2
      ensures r <==> Value() == b
    {
      ValTwo(pn[..]);
      var i := pn.Length - 1;
      while i >= 2
        invariant 1 <= i < pn.Length && forall t :: i < t < pn.Length ==> pn[t] == 0
      {
        if pn[i] != 0 {
          TopLimb(pn[..][2..], i - 2);
          return false;
        }
        i := i - 1;
      }
      ValZeros(pn[..][2..]);
      return pn[1] == b / BASE && pn[0] == b % BASE;
    }

    method CompareTo(b: Uint) returns (r: int)
      requires b.pn.Length == pn.Length
      ensures r == if Value() < b.Value() then -1 else if Value() > b.Value() then 1 else 0
    {
      var i := pn.Length;
      while i > 0
        invariant 0 <= i <= pn.Length && pn[i..] == b.pn[i..]
      {
        i := i - 1;
        if pn[i] < b.pn[i] {
          LessAt(pn[..], b.pn[..], i);
          return -1;
        }
        if pn[i] > b.pn[i] {
          LessAt(b.pn[..], pn[..], i);
          return 1;
        }
      }
      assert pn[0..] == pn[..] && b.pn[0..] == b.pn[..];
      return 0;
    }

    method Bits() returns (r: nat)
      ensures HasBits(Value(), r) && r <= 32 * pn.Length
    {
      var pos := pn.Length;
      while pos > 0
        invariant 0 <= pos <= pn.Length && forall t :: pos <= t < pn.Length ==> pn[t] == 0
      {
        pos := pos - 1;
        if pn[pos] != 0 {
          var bits := LimbBits(pn[pos]);
          BitsAt(pn[..], pos, bits);
          return 32 * pos + bits;
        }
      }
      ValZeros(pn[..]);
      return 0;
    }

    // Sets a bit that is zero, as are all bits below it.
    method SetBit(shift: nat, ghost u: nat)
      requires shift / 32 < pn.Length && pn[shift / 32] == u * Pow2(shift % 32 + 1)
      modifies pn
      ensures pn[shift / 32] == (2 * u + 1) * Pow2(shift % 32)
      ensures forall t :: 0 <= t < pn.Length && t != shift / 32 ==> pn[t] == old(pn[t])
      ensures Value() == old(Value()) + Pow2(shift)
    {
      var k, s := shift / 32, shift % 32;
      BitFits(pn[k], s, u);
      PlaceValue(k, s);
      ValPut(pn[..], k, Pow2(s) + pn[k]);
      ghost var p := pn[..];
      pn[k] := Or(Pow2(s), pn[k], s + 1, u);
      assert pn[..] == p[k := pn[k]];
    }

    // Quotient by shifting and subtracting. Division by zero throws, and leaves
    // the number zero.
    method Div(b: Uint) returns (thrown: bool)
      requires b.pn.Length == pn.Length >= 2
      modifies pn
      ensures thrown <==> old(b.Value()) == 0
      ensures Value() == if thrown then 0 else old(Value()) / old(b.Value())
    {
      var div := new Uint.Copy(b);
      var num := new Uint.Copy(this);
      ghost var n, d := num.Value(), div.Value();
      Zero();
      var numBits := num.Bits();
      var divBits := div.Bits();
      if divBits == 0 {
        return true;
      }
      if divBits > numBits {
        Pow2Mono(numBits, divBits - 1);
        Nonlinear.DivUnique(n, d, 0, n);
        return false;
      }
      var shift := numBits - divBits;
      Aligned(n, d, numBits, divBits);
      AlignedFits(d, shift, divBits, pn.Length);
      div.Shl(shift);
      DivideAligned(num, div, shift, n, d);
      return false;
    }

    // The rounds of the division, from the aligned divisor down.
    method DivideAligned(num: Uint, div: Uint, start: nat, ghost n: nat, ghost d: nat)
      requires num.pn.Length == div.pn.Length == pn.Length >= 2 && num.pn != div.pn && num.pn != pn && div.pn != pn
      requires start < 32 * pn.Length && forall t :: 0 <= t < pn.Length ==> pn[t] == 0
      requires d > 0 && div.Value() == Doubled(d, start) && DivInv(n, d, num.Value(), Value(), start + 1)
      modifies pn, num.pn, div.pn
      ensures Value() == n / d
    {
      var shift: int := start;
      ghost var u := 0;
      while shift >= 0
        invariant Dividing(n, d, num.Value(), pn[..], div.Value(), shift, u)
      {
        u := DivideRound(num, div, shift, n, d, u);
        shift := shift - 1;
      }
      Nonlinear.DivUnique(n, d, Value(), num.Value());
    }

    method DivideRound(num: Uint, div: Uint, shift: nat, ghost n: nat, ghost d: nat, ghost u: nat)
      returns (ghost u': nat)
      requires num.pn.Length == div.pn.Length == pn.Length >= 2 && num.pn != div.pn && num.pn != pn && div.pn != pn
      requires Dividing(n, d, num.Value(), pn[..], div.Value(), shift, u)
      modifies pn, num.pn, div.pn
      ensures Dividing(n, d, num.Value(), pn[..], div.Value(), shift - 1, u')
    {
      ghost var num0, q0 := num.Value(), Value();
      u' := SubtractOnce(num, div, shift, u);
      DivNext(n, d, num0, q0, shift, num.Value(), Value());
      if shift > 0 {
        u' := Reopen(pn[..], shift, u');
      }
      assert Pow2(1) == 2;
      div.Shr(1);
    }

    // One round of the division: the divisor is subtracted if it fits, and the
    // quotient's bit set. u' is what stands in the limb from the bit up.
    method SubtractOnce(num: Uint, div: Uint, shift: nat, ghost u: nat) returns (ghost u': nat)
      requires num.pn.Length == div.pn.Length == pn.Length >= 2 && num.pn != div.pn && num.pn != pn && div.pn != pn
      requires QuotientOpen(pn[..], shift, u)
      modifies pn, num.pn
      ensures if old(num.Value()) >= div.Value()
        then num.Value() == old(num.Value()) - div.Value() && Value() == old(Value()) + Pow2(shift)
        else num.Value() == old(num.Value()) && Value() == old(Value())
      ensures pn[shift / 32] == u' * Pow2(shift % 32) && forall t :: 0 <= t < shift / 32 ==> pn[t] == 0
    {
      assert pn[shift / 32] == u * Pow2(shift % 32 + 1);
      var c := num.CompareTo(div);
      if c >= 0 {
        num.Sub(div);
        SetBit(shift, u);
        u' := 2 * u + 1;
      } else {
        u' := 2 * u;
        Twice(u, Pow2(shift % 32));
      }
    }
  }

  // What is left of n and the quotient so far: n is never lost.
  ghost predicate DivInv(n: nat, d: nat, num: nat, q: nat, s: nat) {
    num + q * d == n && num < Doubled(d, s)
  }

  // What holds before the round for a bit; -1 stands for the end.
  ghost predicate Dividing(n: nat, d: nat, num: nat, q: seq<Limb>, div: nat, shift: int, u: nat) {
    && shift >= -1 && DivInv(n, d, num, Val(q), shift + 1)
    && (shift >= 0 ==> div == Doubled(d, shift) && QuotientOpen(q, shift, u))
  }

  lemma DivNext(n: nat, d: nat, num: nat, q: nat, shift: nat, num': nat, q': nat)
    requires DivInv(n, d, num, q, shift + 1)
    requires if num >= Doubled(d, shift) then num' == num - Doubled(d, shift) && q' == q + Pow2(shift)
             else num' == num && q' == q
    ensures DivInv(n, d, num', q', shift)
  {
    DoubledPow(d, shift);
    Nonlinear.Split(d, q, Pow2(shift));
  }

  lemma TopLimb(s: seq<Limb>, i: nat)
    requires i < |s| && s[i] != 0
    ensures Val(s) > 0
  {
    ValSplit(s, i);
    assert Val(s[i..]) == s[i] + BASE * Val(s[i..][1..]);
    ModPow2(i);
    Nonlinear.MulMono(1, Val(s[i..]), Mod(i));
  }

  method LimbBits(x: Limb) returns (r: nat)
    requires x != 0
    ensures HasBits(x, r) && 0 < r <= 32
  {
    Pow2Limb();
    var bits := 31;
    while bits > 0
      invariant 0 <= bits <= 31 && x < Pow2(bits + 1)
    {
      TopBit(x, bits);
      if x / Pow2(bits) % 2 == 1 {
        return bits + 1;
      }
      bits := bits - 1;
    }
    assert Pow2(1) == 2 && Pow2(0) == 1;
    return 1;
  }

  // The highest possible bit is set exactly when the number reaches it.
  lemma TopBit(x: nat, n: nat)
    requires x < Pow2(n + 1)
    ensures x / Pow2(n) % 2 == 1 <==> x >= Pow2(n)
  {
    if x >= Pow2(n) {
      Nonlinear.DivUnique(x, Pow2(n), 1, x - Pow2(n));
    } else {
      Nonlinear.DivUnique(x, Pow2(n), 0, x);
    }
  }

  lemma LessAt(p: seq<Limb>, q: seq<Limb>, i: nat)
    requires i < |p| == |q| && p[i + 1..] == q[i + 1..] && p[i] < q[i]
    ensures Val(p) < Val(q)
  {
    ValSplit(p, i);
    ValSplit(q, i);
    ValBound(p[..i]);
    assert p[i..][1..] == p[i + 1..] && q[i..][1..] == q[i + 1..];
    Between(Val(p[..i]), Mod(i), Val(p[i..]), 0, Val(q[i..]));
  }

  // A number with low part below m lies between multiples of m.
  lemma Between(low: nat, m: nat, x: nat, a: nat, b: nat)
    requires low < m && a <= x < b
    ensures m * a <= low + m * x < m * b
  {
    Nonlinear.MulMono(a, x, m);
    Nonlinear.MulMono(x + 1, b, m);
    Nonlinear.Split(m, x, 1);
  }

  lemma BitsAt(p: seq<Limb>, pos: nat, bits: nat)
    requires pos < |p| && (forall t :: pos < t < |p| ==> p[t] == 0) && 0 < bits <= 32 && HasBits(p[pos], bits)
    ensures HasBits(Val(p), 32 * pos + bits)
  {
    TrailingZeros(p, pos + 1);
    NextLimb(p, pos);
    ValBound(p[..pos]);
    var m, x := Mod(pos), p[pos];
    PlaceValue(pos, bits);
    PlaceValue(pos, bits - 1);
    Between(Val(p[..pos]), m, x, Pow2(bits - 1), Pow2(bits));
  }

  lemma BitFits(x: Limb, s: nat, u: nat)
    requires s < 32 && x == u * Pow2(s + 1)
    ensures Pow2(s) + x < BASE && Pow2(s) + x == (2 * u + 1) * Pow2(s) && Pow2(s) < Pow2(s + 1)
  {
    Pow2Limb();
    Pow2Add(s + 1, 31 - s);
    OddMultiple(x, u, Pow2(s), Pow2(31 - s));
  }

  lemma OddMultiple(x: nat, u: nat, h: nat, q: nat)
    requires x == u * (2 * h) && h > 0 && x < (2 * h) * q
    ensures h + x < (2 * h) * q && h + x == (2 * u + 1) * h
  {
    if u >= q {
      Nonlinear.MulMono(q, u, 2 * h);
    }
    Nonlinear.MulMono(u + 1, q, 2 * h);
    Twice(u, h);
  }

  lemma Twice(u: nat, h: nat)
    ensures u * (2 * h) == (2 * u) * h && (2 * u + 1) * h == (2 * u) * h + h && (u + 1) * (2 * h) == u * (2 * h) + 2 * h
  {}

  // The quotient's bits from shift down are still zero.
  ghost predicate QuotientOpen(q: seq<Limb>, shift: nat, u: nat) {
    && shift / 32 < |q| && q[shift / 32] == u * Pow2(shift % 32 + 1)
    && forall t :: 0 <= t < shift / 32 ==> q[t] == 0
  }

  // The bit below is open as well.
  lemma Reopen(q: seq<Limb>, shift: nat, u: nat) returns (u': nat)
    requires 0 < shift && shift / 32 < |q| && q[shift / 32] == u * Pow2(shift % 32)
    requires forall t :: 0 <= t < shift / 32 ==> q[t] == 0
    ensures QuotientOpen(q, shift - 1, u')
  {
    u' := if shift % 32 == 0 then 0 else u;
  }

  // d shifted left, without a limit.
  function Doubled(d: nat, n: nat): nat { if n == 0 then d else 2 * Doubled(d, n - 1) }

  lemma {:induction false} DoubledPow(d: nat, n: nat)
    ensures Doubled(d, n) == d * Pow2(n)
  {
    if n > 0 {
      DoubledPow(d, n - 1);
      Nonlinear.Reorder(d, 2, Pow2(n - 1));
    }
  }

  // With their highest bits aligned, twice the divisor exceeds n.
  lemma Aligned(n: nat, d: nat, numBits: nat, divBits: nat)
    requires HasBits(n, numBits) && HasBits(d, divBits) && 0 < divBits <= numBits
    ensures n < Doubled(d, numBits - divBits + 1)
  {
    var s := numBits - divBits;
    DoubledPow(d, s + 1);
    Pow2Add(divBits - 1, s + 1);
    Nonlinear.MulMono(Pow2(divBits - 1), d, Pow2(s + 1));
  }

  // And no bit of the divisor is pushed out.
  lemma AlignedFits(d: nat, s: nat, divBits: nat, w: nat)
    requires HasBits(d, divBits) && divBits + s <= 32 * w
    ensures Mod(w) > 0 && d * Pow2(s) % Mod(w) == Doubled(d, s)
  {
    DoubledPow(d, s);
    Pow2Add(divBits, s);
    Pow2Mono(divBits + s, 32 * w);
    ModPow2(w);
    Nonlinear.MulLess(d, Pow2(divBits), Pow2(s));
    Nonlinear.Small(d * Pow2(s), Mod(w));
  }

  /* Left shift: the first n limbs of a have arrived at limb k and above, and c
     is the carry into the next. */

  ghost predicate ShlInv(a: seq<Limb>, k: nat, s: nat, i: nat, r: seq<Limb>, c: Limb) {
    var w := |a|;
    && |r| == w && s < 32
    && if k >= w then forall t :: 0 <= t < w ==> r[t] == 0
       else
         var n := if i + k <= w then i else w - k;
         && c < Pow2(s)
         && (n + k < w ==> r[n + k] == c && forall t :: n + k < t < w ==> r[t] == 0)
         && Val(r[..n + k]) + Mod(n + k) * c == (Mod(k) * Pow2(s)) * Val(a[..n])
  }

  lemma ShlStart(a: seq<Limb>, k: nat, s: nat, r: seq<Limb>)
    requires |r| == |a| && s < 32 && forall t :: 0 <= t < |r| ==> r[t] == 0
    ensures ShlInv(a, k, s, 0, r, 0)
  {
    if k < |a| {
      ValZeros(r[..k]);
      assert a[..0] == [];
    }
  }

  lemma ShlNext(a: seq<Limb>, k: nat, s: nat, i: nat, p: seq<Limb>, c: Limb, r: seq<Limb>)
    requires i + k < |a| == |r| && ShlInv(a, k, s, i, p, c)
    requires r[i + k] == (p[i + k] as int) + Low(a[i], s)
    requires i + k + 1 < |a| ==> r[i + k + 1] == High(a[i], s)
    requires forall t :: 0 <= t < |a| && t != i + k && t != i + k + 1 ==> r[t] == p[t]
    ensures ShlInv(a, k, s, i + 1, r, High(a[i], s))
  {
    LowHigh(a[i], s);
    ShlNextValue(a, k, s, i, p, c, r);
  }

  lemma ShlNextValue(a: seq<Limb>, k: nat, s: nat, i: nat, p: seq<Limb>, c: Limb, r: seq<Limb>)
    requires i + k < |a| == |r| == |p| && s < 32 && r[..i + k] == p[..i + k]
    requires p[i + k] == c < Pow2(s) && r[i + k] == (c as int) + Low(a[i], s)
    requires Val(p[..i + k]) + Mod(i + k) * c == (Mod(k) * Pow2(s)) * Val(a[..i])
    ensures Val(r[..i + k + 1]) + Mod(i + k + 1) * High(a[i], s) == (Mod(k) * Pow2(s)) * Val(a[..i + 1])
  {
    NextLimb(r, i + k);
    NextLimb(a, i);
    ShlStep(Val(p[..i + k]), c, Val(a[..i]), a[i], s, i, k);
  }

  lemma ShlEnd(a: seq<Limb>, k: nat, s: nat, r: seq<Limb>, c: Limb)
    requires k < |a| && ShlInv(a, k, s, |a|, r, c)
    ensures Mod(|a|) > 0 && Val(r) == Val(a) * Pow2(32 * k + s) % Mod(|a|)
  {
    var w := |a|;
    assert r[..w] == r;
    PlaceValue(k, s);
    ValSplit(a, w - k);
    ModAdd(k, w - k);
    var high := Val(a[w - k..]);
    ShlOver(Val(a[..w - k]), Mod(w - k), high, Mod(k), Pow2(s));
    Nonlinear.Split(Mod(w), c, Pow2(s) * high);
    ModUnique(w, r, c + Pow2(s) * high, Val(a) * Pow2(32 * k + s));
  }

  lemma ShlGone(a: seq<Limb>, k: nat, s: nat, r: seq<Limb>)
    requires k >= |a| == |r| && s < 32 && forall t :: 0 <= t < |r| ==> r[t] == 0
    ensures Mod(|a|) > 0 && Val(r) == Val(a) * Pow2(32 * k + s) % Mod(|a|)
  {
    var w := |a|;
    ValZeros(r);
    PlaceValue(k, s);
    ModAdd(k - w, w);
    AllOut(Val(a), Mod(k - w), Mod(w), Pow2(s));
    ModUnique(w, r, Val(a) * Mod(k - w) * Pow2(s), Val(a) * Pow2(32 * k + s));
  }

  lemma PlaceValue(k: nat, s: nat)
    ensures Pow2(32 * k + s) == Mod(k) * Pow2(s) > 0
  {
    ModPow2(k);
    Pow2Add(32 * k, s);
  }

  /* Right shift: the limbs of a from k up to i have arrived. */

  ghost predicate ShrInv(a: seq<Limb>, k: nat, s: nat, i: nat, r: seq<Limb>) {
    && |r| == |a| && s < 32 && i <= |a|
    && (forall t :: 0 <= t < |r| && t + k >= i ==> r[t] == 0)
    && (i > k ==>
          && r[i - k - 1] == Down(a[i - 1], s)
          && Val(a[k..i]) == Pow2(s) * Val(r[..i - k]) + a[k] % Pow2(s))
  }

  lemma ShrFirst(a: seq<Limb>, k: nat, s: nat, r: seq<Limb>)
    requires k < |a| == |r| && s < 32 && r[0] == Down(a[k], s) && forall t :: 0 < t < |r| ==> r[t] == 0
    ensures ShrInv(a, k, s, k + 1, r)
  {
    DownHigh(a[k], s);
    assert a[k..k + 1] == [a[k]] && r[..1] == [r[0]];
    ValOne(a[k]);
    ValOne(r[0]);
  }

  lemma ValOne(x: Limb)
    ensures Val([x]) == x
  {
    assert [x][1..] == [];
  }

  lemma ShrNext(a: seq<Limb>, k: nat, s: nat, i: nat, p: seq<Limb>, r: seq<Limb>)
    requires k < i < |a| == |r| && ShrInv(a, k, s, i, p)
    requires r[i - k] == Down(a[i], s) && r[i - k - 1] == (p[i - k - 1] as int) + (a[i] % Pow2(s)) * Pow2(32 - s)
    requires forall t :: 0 <= t < |r| && t != i - k && t != i - k - 1 ==> r[t] == p[t]
    ensures ShrInv(a, k, s, i + 1, r)
  {
    var n := i - k;
    ShrStep(Val(a[k..i]), Val(p[..n]), a[k] % Pow2(s), a[i], s, n);
    assert r[..n] == p[..n][n - 1 := r[n - 1]];
    ValPut(p[..n], n - 1, r[n - 1]);
    NextLimb(r, n);
    ValSnoc(a[k..i + 1], n);
    assert a[k..i + 1][..n] == a[k..i];
  }

  lemma TrailingZeros(r: seq<Limb>, n: nat)
    requires n <= |r| && forall t :: n <= t < |r| ==> r[t] == 0
    ensures Val(r) == Val(r[..n])
  {
    ValSplit(r, n);
    ValZeros(r[n..]);
  }

  lemma ShrEnd(a: seq<Limb>, k: nat, s: nat, r: seq<Limb>)
    requires k < |a| && ShrInv(a, k, s, |a|, r)
    ensures Val(r) == Val(a) / Pow2(32 * k + s)
  {
    var w := |a|;
    PlaceValue(k, s);
    DownHigh(a[k], s);
    ValSplit(a, k);
    ValBound(a[..k]);
    TrailingZeros(r, w - k);
    assert a[k..w] == a[k..];
    FloorTwice(Val(a), Val(a[..k]), Mod(k), Val(a[k..]), Pow2(s), Val(r), a[k] % Pow2(s));
  }

  lemma ShrGone(a: seq<Limb>, k: nat, s: nat, r: seq<Limb>)
    requires k >= |a| && ShrInv(a, k, s, |a|, r)
    ensures Val(r) == Val(a) / Pow2(32 * k + s)
  {
    ValZeros(r);
    ValBound(a);
    ModPow2(|a|);
    Pow2Mono(32 * |a|, 32 * k + s);
    Nonlinear.DivUnique(Val(a), Pow2(32 * k + s), 0, Val(a));
  }

  lemma ShlOver(low: nat, m: nat, high: nat, k: nat, p: nat)
    ensures (low + m * high) * (k * p) == (k * p) * low + (k * m) * (p * high)
  {
    Nonlinear.Distribute(k * p, low, m, high);
    assert ((k * p) * m) * high == (k * m) * (p * high) by {
      assert (k * p) * m == (k * m) * p;
      assert ((k * m) * p) * high == (k * m) * (p * high);
    }
  }

  lemma AllOut(a: nat, d: nat, m: nat, p: nat)
    ensures m * (a * d * p) == a * ((d * m) * p)
  {
    assert m * (a * d * p) == m * (a * (d * p));
    assert (d * m) * p == m * (d * p);
    assert m * (a * (d * p)) == a * (m * (d * p));
  }

  lemma FloorTwice(a: nat, low: nat, m: nat, high: nat, p: nat, r: nat, out: nat)
    requires a == low + m * high && low < m && high == p * r + out && out < p
    ensures m * p > 0 && r == a / (m * p)
  {
    Nonlinear.Distribute(m, out, p, r);
    Nonlinear.MulMono(out + 1, p, m);
    Nonlinear.Split(m, out, 1);
    assert p * m == m * p;
    Nonlinear.DivUnique(a, m * p, r, m * out + low);
  }

  predicate AllZero(s: seq<Limb>) { forall i :: 0 <= i < |s| ==> s[i] == 0 }

  // The first i limbs of p and q have been added into row.
  ghost predicate SumInv(p: seq<Limb>, q: seq<Limb>, i: nat, row: seq<Limb>, carry: Limb) {
    && i <= |p| == |q| == |row| && carry < 2 && row[i..] == p[i..]
    && Val(row[..i]) + Mod(i) * carry == Val(p[..i]) + Val(q[..i])
  }

  lemma SumCell(p: seq<Limb>, q: seq<Limb>, i: nat, row: seq<Limb>, carry: Limb)
    requires SumInv(p, q, i, row, carry) && i < |p|
    ensures var n := carry + row[i] + q[i]; SumInv(p, q, i + 1, row[i := n % BASE], n / BASE)
  {
    var n := carry + row[i] + q[i];
    var next := row[i := n % BASE];
    assert row[i] == row[i..][0] == p[i..][0] == p[i];
    assert next[..i + 1][..i] == row[..i] && next[i + 1..] == row[i..][1..] == p[i + 1..];
    SumNext(p, q, i, next[..i + 1], carry, n);
  }

  lemma SumNext(p: seq<Limb>, q: seq<Limb>, i: nat, row: seq<Limb>, carry: Limb, n: int)
    requires i < |p| == |q| && |row| == i + 1 && n == carry + p[i] + q[i] && row[i] == n % BASE
    requires Val(row[..i]) + Mod(i) * carry == Val(p[..i]) + Val(q[..i])
    ensures Val(row) + Mod(i + 1) * (n / BASE) == Val(p[..i + 1]) + Val(q[..i + 1])
  {
    var term: int := p[i];
    ChainStep(row, i, carry, term + q[i], n, Val(p[..i]) + Val(q[..i]));
    NextLimb(p, i);
    NextLimb(q, i);
    Nonlinear.Split(Mod(i), p[i], q[i]);
  }

  lemma SumTotal(p: seq<Limb>, q: seq<Limb>, row: seq<Limb>, carry: Limb)
    requires SumInv(p, q, |p|, row, carry)
    ensures Val(row) + Mod(|p|) * carry == Val(p) + Val(q)
  {
    assert row[..|p|] == row && p[..|p|] == p && q[..|p|] == q;
  }

  // r is p + x * q, up to the carry c out of the last limb.
  ghost predicate RowDone(p: seq<Limb>, x: Limb, q: seq<Limb>, c: nat, r: seq<Limb>) {
    |r| == |p| == |q| && Val(r) + Mod(|p|) * c == Val(p) + x * Val(q)
  }

  ghost predicate RowInv(p: seq<Limb>, x: Limb, q: seq<Limb>, i: nat, row: seq<Limb>, carry: Limb) {
    && i <= |p| == |row| <= |q| && row[i..] == p[i..]
    && Val(row[..i]) + Mod(i) * carry == Val(p[..i]) + x * Val(q[..i])
  }

  lemma RowCell(p: seq<Limb>, x: Limb, q: seq<Limb>, i: nat, row: seq<Limb>, carry: Limb)
    requires RowInv(p, x, q, i, row, carry) && i < |p|
    ensures var n := carry + row[i] + x * q[i];
      0 <= n / BASE < BASE && RowInv(p, x, q, i + 1, row[i := n % BASE], n / BASE)
  {
    SumFits(carry, row[i], x, q[i]);
    var n := carry + row[i] + x * q[i];
    var next := row[i := n % BASE];
    assert row[i] == row[i..][0] == p[i..][0] == p[i];
    assert next[..i + 1][..i] == row[..i] && next[i + 1..] == row[i..][1..] == p[i..][1..] == p[i + 1..];
    RowNext(next[..i + 1], i, carry, p, x, q);
  }

  lemma RowEnds(p: seq<Limb>, x: Limb, q: seq<Limb>, row: seq<Limb>, carry: Limb)
    requires RowInv(p, x, q, |p|, row, carry)
    ensures RowDone(p, x, q[..|p|], carry, row)
  {
    assert row[..|p|] == row && p[..|p|] == p;
  }

  lemma RowNext(r: seq<Limb>, i: nat, c: nat, p: seq<Limb>, x: Limb, q: seq<Limb>)
    requires |r| == i + 1 && i < |p| && i < |q| && r[i] == (c + p[i] + x * q[i]) % BASE
    requires Val(r[..i]) + Mod(i) * c == Val(p[..i]) + x * Val(q[..i])
    ensures Val(r) + Mod(i + 1) * ((c + p[i] + x * q[i]) / BASE) == Val(p[..i + 1]) + x * Val(q[..i + 1])
  {
    var t: int := p[i];
    var product := x * q[i];
    ChainStep(r, i, c, t + product, c + t + product, Val(p[..i]) + x * Val(q[..i]));
    NextLimb(p, i);
    NextLimb(q, i);
    Nonlinear.Split(Mod(i), p[i], product);
    Nonlinear.Distribute(x, Val(q[..i]), Mod(i), q[i]);
    Nonlinear.Reorder(Mod(i), x, q[i]);
  }

  // A row adds its multiple of Mod(j), up to multiples of Mod(w).
  lemma RowAdds(p: seq<Limb>, j: nat, x: Limb, q: seq<Limb>, c: nat, r: seq<Limb>) returns (more: nat)
    requires j <= |p| == |q| == |r| && p[..j] == r[..j] && RowDone(p[j..], x, q[..|p| - j], c, r[j..])
    ensures Val(r) + Mod(|p|) * more == Val(p) + Mod(j) * (x * Val(q))
  {
    var w := |p|;
    ValSplit(p, j);
    ValSplit(r, j);
    var over := ShiftedRow(w, j, q);
    ModAdd(j, w - j);
    more := c + x * over;
    RowAlgebra(Mod(j), Mod(w - j), Val(p[..j]), Val(p[j..]), Val(r[j..]), c, x, Val(q[..w - j]), Val(q), over);
  }

  lemma RowAlgebra(m: nat, k: nat, low: nat, p: nat, r: nat, c: nat, x: nat, q: nat, full: nat, over: nat)
    requires r + k * c == p + x * q && m * q + (m * k) * over == m * full
    ensures (low + m * r) + (m * k) * (c + x * over) == (low + m * p) + m * (x * full)
  {
    assert m * (r + k * c) == m * r + (m * k) * c;
    assert m * (p + x * q) == m * p + x * (m * q);
    assert x * (m * q + (m * k) * over) == x * (m * q) + (m * k) * (x * over);
    assert x * (m * full) == m * (x * full);
    assert (m * k) * (c + x * over) == (m * k) * c + (m * k) * (x * over);
  }

  lemma NextRow(r: nat, before: nat, m: nat, over: nat, more: nat, a: nat, k: nat, x: nat, b: nat)
    requires before + m * over == a * b && r + m * more == before + k * (x * b)
    ensures r + m * (over + more) == (a + k * x) * b
  {
    assert m * (over + more) == m * over + m * more;
    assert (a + k * x) * b == a * b + (k * x) * b;
    assert (k * x) * b == k * (x * b);
  }

  lemma SubMod(a: nat, v: nat, m: nat, minus: nat)
    requires a < m && v < m && minus == if v == 0 then 0 else m - v
    ensures (a + minus) % m == if a >= v then a - v else a - v + m
  {
    if a >= v {
      Nonlinear.DivUnique(a + minus, m, if v == 0 then 0 else 1, a - v);
    } else {
      Nonlinear.DivUnique(a + minus, m, 0, a - v + m);
    }
  }
}
