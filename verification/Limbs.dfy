/** Numbers as sequences of 32-bit limbs, the lowest first, and the carry chains
    that the arithmetic of arith_uint256 runs along them. */
module Limbs {
  import Nonlinear

  const BASE := 0x1_0000_0000

  type Limb = n: nat | n < BASE

  // The number that the limbs stand for.
  function Val(s: seq<Limb>): nat { if s == [] then 0 else s[0] + BASE * Val(s[1..]) }

  function Pow2(n: nat): (r: nat)
    ensures r > 0
  { if n == 0 then 1 else 2 * Pow2(n - 1) }

  // One more than the largest number in n limbs.
  function Mod(n: nat): nat { if n == 0 then 1 else BASE * Mod(n - 1) }

  /* Powers */

  lemma {:induction false} Pow2Add(a: nat, b: nat)
    ensures Pow2(a + b) == Pow2(a) * Pow2(b)
  {
    if a > 0 {
      Pow2Add(a - 1, b);
      assert Pow2(a + b) == 2 * Pow2(a - 1 + b);
      Nonlinear.Reorder(2, Pow2(a - 1), Pow2(b));
    }
  }

  lemma {:induction false} Pow2Mono(a: nat, b: nat)
    requires a <= b
    ensures Pow2(a) <= Pow2(b)
  {
    if a < b {
      Pow2Mono(a, b - 1);
    }
  }

  lemma Pow2Limb()
    ensures Pow2(32) == BASE
  {
    assert Pow2(8) == 256;
    Pow2Add(8, 8);
    Pow2Add(16, 16);
  }

  lemma {:induction false} ModPow2(n: nat)
    ensures Mod(n) == Pow2(32 * n) && Mod(n) > 0
  {
    if n > 0 {
      ModPow2(n - 1);
      Pow2Limb();
      Pow2Add(32, 32 * (n - 1));
    }
  }

  lemma {:induction false} ModAdd(a: nat, b: nat)
    ensures Mod(a + b) == Mod(a) * Mod(b)
  {
    if a > 0 {
      ModAdd(a - 1, b);
      assert Mod(a + b) == BASE * (Mod(a - 1) * Mod(b)) == (BASE * Mod(a - 1)) * Mod(b);
    }
  }

  /* Values */

  lemma {:induction false} ValBound(s: seq<Limb>)
    ensures Val(s) < Mod(|s|)
  {
    if s != [] {
      ValBound(s[1..]);
    }
  }

  lemma {:induction false} ValSplit(s: seq<Limb>, i: nat)
    requires i <= |s|
    ensures Val(s) == Val(s[..i]) + Mod(i) * Val(s[i..])
  {
    if i == 0 {
      assert s[..0] == [] && s[0..] == s;
    } else {
      ValSplit(s[1..], i - 1);
      assert s[1..][..i - 1] == s[..i][1..] && s[1..][i - 1..] == s[i..];
      var low, high := Val(s[..i][1..]), Val(s[i..]);
      Nonlinear.Distribute(BASE, low, Mod(i - 1), high);
    }
  }

  lemma {:induction false} ValZeros(s: seq<Limb>)
    requires forall i :: 0 <= i < |s| ==> s[i] == 0
    ensures Val(s) == 0
  {
    if s != [] {
      ValZeros(s[1..]);
    }
  }

  // One limb changes.
  lemma ValPut(s: seq<Limb>, i: nat, x: Limb)
    requires i < |s|
    ensures Val(s[i := x]) == Val(s) + Mod(i) * (x - s[i])
  {
    ValSplit(s, i);
    ValSplit(s[i := x], i);
    assert s[i := x][..i] == s[..i] && s[i := x][i..] == [x] + s[i + 1..] && s[i..] == [s[i]] + s[i + 1..];
    Nonlinear.Split(Mod(i), s[i] + BASE * Val(s[i + 1..]), x - s[i]);
  }

  // The last limb counts Mod(i).
  lemma ValSnoc(s: seq<Limb>, i: nat)
    requires |s| == i + 1
    ensures Val(s) == Val(s[..i]) + Mod(i) * s[i]
  {
    ValSplit(s, i);
    assert s[i..] == [s[i]];
    assert s[i..][1..] == [];
  }

  /* Carry chains */

  // One step: the digit of the sum of a limb, a term and the carry is appended.
  lemma ChainStep(r: seq<Limb>, i: nat, c: nat, t: nat, n: nat, total: nat)
    requires |r| == i + 1 && r[i] == n % BASE
    requires Val(r[..i]) + Mod(i) * c == total && n == c + t
    ensures Val(r) + Mod(i + 1) * (n / BASE) == total + Mod(i) * t
  {
    ValSnoc(r, i);
    var m := Mod(i);
    Nonlinear.Distribute(m, n % BASE, BASE, n / BASE);
    Nonlinear.Split(m, c, t);
  }

  // A limb times a limb, and two more limbs, fit 64 bits.
  lemma SumFits(c: Limb, p: Limb, x: Limb, y: Limb)
    ensures 0 <= x * y && c + p + x * y < BASE * BASE && (c + p + x * y) / BASE < BASE
  {
    Nonlinear.MulBound(x, y, BASE - 1);
  }

  // Adding one passes over limbs that are full.
  lemma IncrementVal(s: seq<Limb>, i: nat, r: seq<Limb>)
    requires i < |s| == |r|
    requires forall j :: 0 <= j < i ==> s[j] == BASE - 1 && r[j] == 0
    requires forall j :: i < j < |s| ==> r[j] == s[j]
    requires if s[i] == BASE - 1 then i == |s| - 1 && r[i] == 0 else r[i] == s[i] + 1
    ensures Val(r) == if Val(s) + 1 == Mod(|s|) then 0 else Val(s) + 1
  {
    if s[i] == BASE - 1 {
      ValFull(s);
      ValZeros(r);
    } else {
      IncrementRest(s, i, r);
      ValBound(r);
    }
  }

  lemma IncrementRest(s: seq<Limb>, i: nat, r: seq<Limb>)
    requires i < |s| == |r|
    requires forall j :: 0 <= j < i ==> s[j] == BASE - 1 && r[j] == 0
    requires forall j :: i < j < |s| ==> r[j] == s[j]
    requires r[i] == (s[i] as int) + 1
    ensures Val(r) == Val(s) + 1
  {
    ValSplit(s, i);
    ValSplit(r, i);
    ValFull(s[..i]);
    ValZeros(r[..i]);
    assert Val(r[i..]) == Val(s[i..]) + 1 by {
      assert s[i..][1..] == r[i..][1..];
    }
    Nonlinear.Split(Mod(i), Val(s[i..]), 1);
  }

  lemma {:induction false} ValFull(s: seq<Limb>)
    requires forall i :: 0 <= i < |s| ==> s[i] == BASE - 1
    ensures Val(s) == Mod(|s|) - 1
  {
    if s != [] {
      ValFull(s[1..]);
    }
  }

  function Complement(s: seq<Limb>): (r: seq<Limb>)
    ensures |r| == |s|
  { seq(|s|, i requires 0 <= i < |s| => BASE - 1 - s[i]) }

  lemma {:induction false} ComplementVal(s: seq<Limb>)
    ensures Val(Complement(s)) == Mod(|s|) - 1 - Val(s)
  {
    if s != [] {
      ComplementVal(s[1..]);
      assert Complement(s)[1..] == Complement(s[1..]);
    }
  }

  /* Products */

  // A multiple of m that starts at limb j reaches past limb w only in
  // multiples of Mod(w).
  lemma ShiftedRow(w: nat, j: nat, b: seq<Limb>) returns (over: nat)
    requires j <= w == |b|
    ensures Mod(j) * Val(b[..w - j]) + Mod(w) * over == Mod(j) * Val(b)
  {
    ValSplit(b, w - j);
    over := Val(b[w - j..]);
    ModAdd(j, w - j);
    Nonlinear.Distribute(Mod(j), Val(b[..w - j]), Mod(w - j), over);
  }
}
