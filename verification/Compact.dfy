/** The compact form of difficulty targets: a floating point number of base 256
    in 32 bits, with the size in the high byte and the sign in bit 23. */
module Compact {
  import Nonlinear

  const SIZE_UNIT := 0x100_0000
  const SIGN := 0x80_0000

  // Shifts by whole bytes.
  function Up(v: nat, bytes: nat): nat { if bytes == 0 then v else 256 * Up(v, bytes - 1) }

  function Down(v: nat, bytes: nat): nat { if bytes == 0 then v else Down(v / 256, bytes - 1) }

  // 2 to the 256; the target type holds what is below.
  function Limit(): nat { Up(1, 32) }

  function Size(n: nat): nat { n / SIZE_UNIT }

  // The mantissa; for small sizes it loses its low bytes.
  function Word(n: nat): nat {
    if Size(n) <= 3 then Down(n % SIGN, 3 - Size(n)) else n % SIGN
  }

  // The number before it is cut to 256 bits.
  function Exact(n: nat): nat {
    if Size(n) <= 3 then Word(n) else Up(Word(n), Size(n) - 3)
  }

  predicate Overflows(n: nat) {
    var w, size := Word(n), Size(n);
    w != 0 && (size > 34 || (w > 0xff && size > 33) || (w > 0xffff && size > 32))
  }

  predicate IsNegative(n: nat) { Word(n) != 0 && n / SIGN % 2 == 1 }

  // The number of bytes of v.
  function Bytes(v: nat): nat { if v == 0 then 0 else 1 + Bytes(v / 256) }

  // The three highest bytes of v.
  function Mantissa(v: nat): nat {
    if Bytes(v) <= 3 then Up(v, 3 - Bytes(v)) else Down(v, Bytes(v) - 3)
  }

  // Bit 23 is the sign, so a mantissa that reaches it gives up a byte.
  function Fit(m: nat, size: nat): (nat, nat) {
    if m / SIGN % 2 == 1 then (m / 256, size + 1) else (m, size)
  }

  function Encode(v: nat, negative: bool): nat {
    var (m, size) := Fit(Mantissa(v), Bytes(v));
    m + size * SIZE_UNIT + if negative && m != 0 then SIGN else 0
  }

  /* Byte shifts */

  lemma {:induction false} UpAdd(v: nat, a: nat, b: nat)
    ensures Up(Up(v, a), b) == Up(v, a + b)
  {
    if b > 0 {
      UpAdd(v, a, b - 1);
    }
  }

  lemma {:induction false} UpLess(v: nat, w: nat, n: nat)
    ensures v < w <==> Up(v, n) < Up(w, n)
    ensures v <= w <==> Up(v, n) <= Up(w, n)
  {
    if n > 0 {
      UpLess(v, w, n - 1);
    }
  }

  lemma SmallUps(n: nat)
    ensures Up(1, 1) == 0x100 && Up(1, 2) == 0x1_0000 && Up(1, 3) == 0x100_0000
    ensures n >= 3 ==> Up(1, n) >= SIZE_UNIT
  {
    assert Up(1, 1) == 256;
    assert Up(1, 2) == 256 * Up(1, 1);
    assert Up(1, 3) == 256 * Up(1, 2);
    if n >= 3 {
      UpAdd(1, n - 3, 3);
      UpAdd(1, 3, n - 3);
      UpLess(1, Up(1, n - 3), 3);
      UpAtLeast(1, n - 3);
    }
  }

  lemma {:induction false} UpAtLeast(v: nat, n: nat)
    ensures Up(v, n) >= v
  {
    if n > 0 {
      UpAtLeast(v, n - 1);
    }
  }

  lemma {:induction false} UpZero(n: nat)
    ensures Up(0, n) == 0
  {
    if n > 0 {
      UpZero(n - 1);
    }
  }

  /* The overflow flag */

  // Whether w * 256^k reaches 256^32, for a mantissa of less than 24 bits.
  lemma Reaches(w: nat, k: nat)
    requires w < SIGN
    ensures Up(w, k) >= Limit() <==> w != 0 && (k > 31 || (w > 0xff && k > 30) || (w > 0xffff && k > 29))
  {
    if k >= 32 {
      UpAdd(w, k - 32, 32);
      UpLess(1, Up(w, k - 32), 32);
      UpAtLeast(w, k - 32);
      UpZero(k);
      UpZero(32);
      UpLess(0, 1, 32);
    } else {
      UpAdd(1, 32 - k, k);
      UpLess(Up(1, 32 - k), w, k);
      SmallUps(32 - k);
    }
  }

  // The flag is set exactly when the number does not fit 256 bits.
  lemma OverflowExact(n: nat)
    ensures Overflows(n) <==> Exact(n) >= Limit()
  {
    if Size(n) > 3 {
      Reaches(Word(n), Size(n) - 3);
    } else {
      DownAtMost(n % SIGN, 3 - Size(n));
      SmallUps(32);
    }
  }

  lemma {:induction false} DownAtMost(v: nat, n: nat)
    ensures Down(v, n) <= v
  {
    if n > 0 {
      DownAtMost(v / 256, n - 1);
    }
  }

  /* Round trip */

  // v with all but its 23 highest bits, by whole bytes, cleared.
  function Rounded(v: nat): nat { if v < SIGN then v else 256 * Rounded(v / 256) }

  // How many bytes are cleared.
  function Dropped(v: nat): nat { if v < SIGN then 0 else 1 + Dropped(v / 256) }

  // One more low byte adds one to the size.
  lemma EncodeStep(v: nat)
    requires v >= SIGN
    ensures Encode(v, false) == Encode(v / 256, false) + SIZE_UNIT
  {
    var s := Bytes(v);
    assert s == 1 + Bytes(v / 256);
    BytesBounds(v);
    if s > 3 {
      assert Mantissa(v / 256) == if s == 4 then Up(v / 256, 0) else Down(v / 256, s - 4);
      assert Mantissa(v) == Down(v / 256, s - 4);
    } else {
      assert Mantissa(v) == Up(v, 0) == v;
      assert Mantissa(v / 256) == Up(v / 256, 1) == 256 * Up(v / 256, 0);
    }
  }

  lemma {:induction false} BytesBounds(v: nat)
    ensures v < Up(1, Bytes(v)) && (v > 0 ==> v >= Up(1, Bytes(v) - 1))
    ensures v >= 0x1_0000 ==> Bytes(v) >= 3
    ensures v < 0x100_0000 ==> Bytes(v) <= 3
  {
    if v > 0 {
      BytesBounds(v / 256);
      SmallUps(Bytes(v));
    }
  }

  // Numbers of 16 to 23 bits are their own mantissa.
  lemma EncodeMiddle(v: nat)
    requires 0x8000 <= v < SIGN
    ensures Encode(v, false) == v + 3 * SIZE_UNIT
  {
    BytesBounds(v);
    if v >= 0x1_0000 {
      assert Mantissa(v) == Up(v, 0) == v;
    } else {
      assert Bytes(v) == 2 by {
        assert Bytes(v) == 1 + Bytes(v / 256) == 2 + Bytes(v / 256 / 256);
        assert v / 256 / 256 == 0;
      }
      assert Mantissa(v) == Up(v, 1) == 256 * Up(v, 0);
    }
  }

  // Smaller numbers are kept exactly.
  lemma EncodeSmall(v: nat)
    requires v < 0x8000
    ensures Encode(v, false) < 3 * SIZE_UNIT && Encode(v, false) % SIZE_UNIT < SIGN
    ensures Exact(Encode(v, false)) == v
  {
    if v == 0 {
      assert Mantissa(0) == Up(0, 3) == 0 by { UpZero(3); }
      assert Exact(0) == Down(0, 3) by { }
      DownAtMost(0, 3);
    } else if v < 256 {
      assert Bytes(v) == 1 + Bytes(v / 256) && v / 256 == 0;
      assert Mantissa(v) == Up(v, 2) == 256 * Up(v, 1) && Up(v, 1) == 256 * Up(v, 0);
      if v >= 128 {
        OneByte(v, Encode(v, false));
      } else {
        TwoBytes(v, Encode(v, false));
      }
    } else {
      assert Bytes(v) == 1 + Bytes(v / 256) == 2 + Bytes(v / 256 / 256) && v / 256 / 256 == 0;
      assert Mantissa(v) == Up(v, 1) == 256 * Up(v, 0);
      OneByte(v, Encode(v, false));
    }
  }

  lemma OneByte(v: nat, n: nat)
    requires n == 256 * v + 2 * SIZE_UNIT && v < 0x8000
    ensures Exact(n) == v
  {
    assert Word(n) == Down(256 * v, 1) == Down(256 * v / 256, 0);
  }

  lemma TwoBytes(v: nat, n: nat)
    requires n == 0x1_0000 * v + SIZE_UNIT && v < 128
    ensures Exact(n) == v
  {
    assert Word(n) == Down(0x1_0000 * v, 2) == Down(256 * v, 1) == Down(v, 0);
  }

  lemma ExactNext(n: nat)
    requires Size(n) >= 3
    ensures Exact(n + SIZE_UNIT) == 256 * Exact(n)
  {
    assert Size(n + SIZE_UNIT) == Size(n) + 1 && (n + SIZE_UNIT) % SIGN == n % SIGN;
    if Size(n) == 3 {
      assert Down(n % SIGN, 0) == n % SIGN;
      assert Up(n % SIGN, 1) == 256 * Up(n % SIGN, 0);
    }
  }

  // The shape of what is encoded, and what it decodes to.
  lemma {:induction false} Encoded(v: nat)
    ensures Encode(v, false) % SIZE_UNIT < SIGN && (v >= 0x8000 ==> Size(Encode(v, false)) >= 3)
    ensures Exact(Encode(v, false)) == Rounded(v)
  {
    if v >= SIGN {
      EncodeStep(v);
      Encoded(v / 256);
      ExactNext(Encode(v / 256, false));
    } else if v >= 0x8000 {
      EncodeMiddle(v);
      assert Word(v + 3 * SIZE_UNIT) == Down(v, 0);
    } else {
      EncodeSmall(v);
    }
  }

  // What truncation loses: low bytes, less than a 2^15th of what is left.
  lemma {:induction false} RoundedMeans(v: nat)
    ensures Rounded(v) == Up(Down(v, Dropped(v)), Dropped(v))
    ensures Rounded(v) <= v < Rounded(v) + Up(1, Dropped(v))
    ensures Rounded(v) != v ==> (v - Rounded(v)) * 0x8000 < Rounded(v)
    ensures v >= 0x8000 ==> Rounded(v) >= 0x8000 * Up(1, Dropped(v))
  {
    if v >= SIGN {
      RoundedMeans(v / 256);
      assert Up(1, Dropped(v)) == 256 * Up(1, Dropped(v / 256));
    }
  }

  // Encoding and decoding a target gives the truncated target, never flagged.
  lemma RoundTrip(v: nat)
    requires v < Limit()
    ensures Encode(v, false) < 0x1_0000_0000
    ensures Exact(Encode(v, false)) == Rounded(v)
    ensures !Overflows(Encode(v, false)) && !IsNegative(Encode(v, false))
  {
    Encoded(v);
    RoundedMeans(v);
    OverflowExact(Encode(v, false));
    NoSign(Encode(v, false));
    EncodeBound(v, 32);
  }

  lemma NoSign(n: nat)
    requires n % SIZE_UNIT < SIGN
    ensures n / SIGN % 2 == 0 && (n + SIGN) / SIGN % 2 == 1
    ensures Size(n + SIGN) == Size(n) && (n + SIGN) % SIGN == n % SIGN
  {
    var size, word := n / SIZE_UNIT, n % SIZE_UNIT;
    Nonlinear.DivUnique(n, SIGN, 2 * size, word);
    Nonlinear.DivUnique(n + SIGN, SIGN, 2 * size + 1, word);
    Nonlinear.DivUnique(n + SIGN, SIZE_UNIT, size, word + SIGN);
  }

  // The sign survives as well, except that of zero.
  lemma SignedRoundTrip(v: nat, negative: bool)
    requires v < Limit()
    ensures Exact(Encode(v, negative)) == Rounded(v) && !Overflows(Encode(v, negative))
    ensures IsNegative(Encode(v, negative)) <==> negative && v != 0
  {
    RoundTrip(v);
    SignAdded(v);
    if negative && v != 0 {
      Encoded(v);
      RoundedPositive(v);
      Signed(Encode(v, false));
    }
  }

  lemma SignAdded(v: nat)
    ensures Encode(v, true) == Encode(v, false) + if v == 0 then 0 else SIGN
  {
    if v == 0 {
      UpZero(3);
    } else {
      MantissaBound(v);
    }
  }

  // The sign of a number that is not zero changes nothing else.
  lemma Signed(n: nat)
    requires n % SIZE_UNIT < SIGN && Exact(n) > 0
    ensures Exact(n + SIGN) == Exact(n) && Overflows(n + SIGN) == Overflows(n) && IsNegative(n + SIGN)
  {
    NoSign(n);
    assert Word(n + SIGN) == Word(n);
    UpZero(if Size(n) > 3 then Size(n) - 3 else 0);
  }

  lemma {:induction false} RoundedPositive(v: nat)
    requires v > 0
    ensures Rounded(v) > 0
  {
    if v >= SIGN {
      RoundedPositive(v / 256);
    }
  }

  // The size is at most one more than the number of bytes.
  lemma EncodeBound(v: nat, bytes: nat)
    requires v < Up(1, bytes)
    ensures Encode(v, false) < (bytes + 2) * SIZE_UNIT
  {
    Encoded(v);
    BytesBounds(v);
    if Bytes(v) > bytes {
      UpMono(bytes, Bytes(v) - 1);
    }
    MantissaBound(v);
  }

  lemma {:induction false} UpMono(a: nat, b: nat)
    requires a <= b
    ensures Up(1, a) <= Up(1, b)
  {
    if a < b {
      UpMono(a, b - 1);
    }
  }

  lemma {:induction false} MantissaBound(v: nat)
    ensures Mantissa(v) < SIZE_UNIT && (v > 0 ==> Mantissa(v) >= 0x1_0000)
  {
    BytesBounds(v);
    if Bytes(v) > 3 {
      MantissaBound(v / 256);
      assert Mantissa(v) == Down(v / 256, Bytes(v) - 4);
      assert Up(v / 256, 0) == v / 256 && Down(v / 256, 0) == v / 256;
    } else {
      UpAdd(1, Bytes(v), 3 - Bytes(v));
      UpLess(v, Up(1, Bytes(v)), 3 - Bytes(v));
      SmallUps(3);
      if v > 0 {
        UpAdd(1, Bytes(v) - 1, 3 - Bytes(v));
        UpLess(Up(1, Bytes(v) - 1), v, 3 - Bytes(v));
      }
    }
  }

  // A decoded target is encoded as it was.
  lemma {:induction false} FixedPoint(v: nat)
    ensures Encode(Exact(Encode(v, false)), false) == Encode(v, false)
  {
    Encoded(v);
    RoundedSame(v);
  }

  lemma {:induction false} RoundedSame(v: nat)
    ensures Encode(Rounded(v), false) == Encode(v, false)
  {
    if v >= SIGN {
      RoundedSame(v / 256);
      EncodeStep(v);
      RoundedLarge(v);
      EncodeStep(Rounded(v));
      assert Rounded(v) / 256 == Rounded(v / 256);
    }
  }

  lemma RoundedLarge(v: nat)
    requires v >= SIGN
    ensures Rounded(v) >= SIGN
  {
    RoundedMeans(v / 256);
    UpAtLeast(1, Dropped(v / 256));
  }
}
