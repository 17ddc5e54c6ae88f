/** Numbers as digits in any base, the highest first. */
module Digits {
  import Nonlinear

  function Pow(base: nat, n: nat): nat { if n == 0 then 1 else base * Pow(base, n - 1) }

  function Val(s: seq<nat>, base: nat): nat {
    if s == [] then 0 else Val(s[..|s| - 1], base) * base + s[|s| - 1]
  }

  predicate Proper(s: seq<nat>, base: nat) { forall i :: 0 <= i < |s| ==> s[i] < base }

  // The digits of n, none of them a leading zero.
  function DigitsOf(n: nat, base: nat): (r: seq<nat>)
    requires base >= 2
    ensures Proper(r, base) && (r != [] ==> r[0] != 0) && (r == [] <==> n == 0)
    decreases n
  {
    if n == 0 then []
    else
      Shrinks(n, base);
      if n < base then [n] else DigitsOf(n / base, base) + [n % base]
  }

  lemma Shrinks(n: nat, base: nat)
    requires n > 0 && base >= 2
    ensures 0 <= n / base < n && 0 <= n % base < base && n == base * (n / base) + n % base
    ensures n < base ==> n / base == 0 && n % base == n
    ensures n >= base ==> n / base > 0
  {
    var q := n / base;
    assert n == base * q + n % base;
    if q >= n {
      Nonlinear.MulMono(2, base, q);
    }
    if n < base {
      Nonlinear.Small(n, base);
    } else if q <= 0 {
      Nonlinear.MulMono(q, 0, base);
    }
  }

  lemma ValSnoc(s: seq<nat>, d: nat, base: nat)
    ensures Val(s + [d], base) == Val(s, base) * base + d
  {
    assert (s + [d])[..|s|] == s;
  }

  // The digits have the value they were made from.
  lemma {:induction false} ValDigits(n: nat, base: nat)
    requires base >= 2
    ensures Val(DigitsOf(n, base), base) == n
    decreases n
  {
    if n >= base {
      Shrinks(n, base);
      ValDigits(n / base, base);
      ValSnoc(DigitsOf(n / base, base), n % base, base);
      Nonlinear.Commute(base, n / base);
    } else if n > 0 {
      assert [n][..0] == [];
    }
  }

  // A value has one form without leading zeros.
  lemma {:induction false} DigitsVal(s: seq<nat>, base: nat)
    requires base >= 2 && Proper(s, base) && (s != [] ==> s[0] != 0)
    ensures DigitsOf(Val(s, base), base) == s
  {
    if s != [] {
      var high, low := s[..|s| - 1], s[|s| - 1];
      DigitsVal(high, base);
      var v := Val(high, base);
      Nonlinear.DivUnique(v * base + low, base, v, low);
      if high == [] {
        assert s == [low];
      } else {
        ValPositive(high, base);
        Nonlinear.MulMono(1, v, base);
        assert s == high + [low];
      }
    }
  }

  lemma {:induction false} ValPositive(s: seq<nat>, base: nat)
    requires base > 0 && s != [] && s[0] != 0
    ensures Val(s, base) > 0
  {
    if |s| > 1 {
      ValPositive(s[..|s| - 1], base);
      Nonlinear.MulMono(1, Val(s[..|s| - 1], base), base);
    }
  }

  // Leading zeros do not count.
  lemma {:induction false} ValStrip(s: seq<nat>, k: nat, base: nat)
    requires k <= |s| && forall i :: 0 <= i < k ==> s[i] == 0
    ensures Val(s[k..], base) == Val(s, base)
  {
    if k < |s| {
      ValStrip(s[..|s| - 1], k, base);
      assert s[k..][..|s| - k - 1] == s[..|s| - 1][k..];
    } else {
      ValZeros(s, base);
    }
  }

  lemma {:induction false} ValZeros(s: seq<nat>, base: nat)
    requires forall i :: 0 <= i < |s| ==> s[i] == 0
    ensures Val(s, base) == 0
  {
    if s != [] {
      ValZeros(s[..|s| - 1], base);
    }
  }

  // A digit in front counts a power of the base.
  lemma {:induction false} ValFront(s: seq<nat>, base: nat)
    requires s != []
    ensures Val(s, base) == s[0] * Pow(base, |s| - 1) + Val(s[1..], base)
  {
    if |s| > 1 {
      ValFront(s[..|s| - 1], base);
      assert s[..|s| - 1][1..] == s[1..][..|s| - 2];
      FrontAlgebra(s[0], Pow(base, |s| - 2), Val(s[1..][..|s| - 2], base), base, s[|s| - 1]);
    }
  }

  lemma FrontAlgebra(x: nat, m: nat, v: nat, base: nat, last: nat)
    ensures (x * m + v) * base + last == x * (base * m) + (v * base + last)
  {
    Nonlinear.Reorder(x, base, m);
    Nonlinear.Split(base, x * m, v);
    Nonlinear.Commute(base, x * m + v);
    Nonlinear.Commute(base, v);
  }

  lemma {:induction false} ValBound(s: seq<nat>, base: nat)
    requires Proper(s, base)
    ensures Val(s, base) < Pow(base, |s|)
  {
    if s != [] {
      ValBound(s[..|s| - 1], base);
      NextDigit(Val(s[..|s| - 1], base), Pow(base, |s| - 1), base, s[|s| - 1]);
    }
  }

  lemma NextDigit(v: nat, p: nat, base: nat, d: nat)
    requires v < p && d < base
    ensures v * base + d < base * p
  {
    Nonlinear.MulMono(v + 1, p, base);
    Nonlinear.Split(base, v, 1);
  }

  /* Powers */

  lemma {:induction false} PowAdd(b: nat, m: nat, n: nat)
    ensures Pow(b, m + n) == Pow(b, m) * Pow(b, n)
  {
    if m > 0 {
      PowAdd(b, m - 1, n);
      Nonlinear.Reorder(b, Pow(b, m - 1), Pow(b, n));
      assert b * (Pow(b, m - 1) * Pow(b, n)) == (b * Pow(b, m - 1)) * Pow(b, n);
    }
  }

  lemma {:induction false} PowPow(b: nat, m: nat, n: nat)
    ensures Pow(Pow(b, m), n) == Pow(b, m * n)
  {
    if n > 0 {
      PowPow(b, m, n - 1);
      Nonlinear.Split(m, n - 1, 1);
      PowAdd(b, m, m * (n - 1));
    }
  }

  lemma {:induction false} PowMono(a: nat, b: nat, n: nat)
    requires a <= b
    ensures Pow(a, n) <= Pow(b, n)
  {
    if n > 0 {
      PowMono(a, b, n - 1);
      Nonlinear.MulMono(Pow(a, n - 1), Pow(b, n - 1), a);
      Nonlinear.MulMono(a, b, Pow(b, n - 1));
    }
  }

  lemma {:induction false} PowGrows(b: nat, m: nat, n: nat)
    requires b > 0 && m <= n
    ensures 0 < Pow(b, m) <= Pow(b, n)
  {
    if m < n {
      PowGrows(b, m, n - 1);
      Nonlinear.MulMono(1, b, Pow(b, n - 1));
    } else if n > 0 {
      PowGrows(b, n - 1, n - 1);
      Nonlinear.MulMono(1, b, Pow(b, n - 1));
    }
  }

  lemma {:induction false} PowStrict(a: nat, b: nat, n: nat)
    requires a < b && n > 0
    ensures Pow(a, n) < Pow(b, n)
  {
    if n == 1 {
      assert Pow(a, 1) == a * Pow(a, 0) && Pow(b, 1) == b * Pow(b, 0);
    } else {
      PowStrict(a, b, n - 1);
      Nonlinear.MulMono(Pow(a, n - 1), Pow(b, n - 1), a);
      PowGrows(b, 0, n - 1);
      Nonlinear.MulLess(a, b, Pow(b, n - 1));
    }
  }

  lemma PowSwap(b: nat, m: nat, n: nat)
    ensures Pow(Pow(b, m), n) == Pow(Pow(b, n), m)
  {
    PowPow(b, m, n);
    PowPow(b, n, m);
    Nonlinear.Commute(m, n);
  }

  lemma PowFar(c: nat, q: nat, k: nat, s: nat, p: nat, low: nat, high: nat)
    requires c > 0 && low == q * k && high == s * p && low <= high
    ensures Pow(Pow(c, q), k) <= Pow(Pow(c, s), p)
  {
    PowPow(c, q, k);
    PowPow(c, s, p);
    PowGrows(c, low, high);
  }

  // When b^p <= c^q, any b^k fits c^s with q * k <= s * p.
  lemma PowFits(b: nat, p: nat, c: nat, q: nat, k: nat, s: nat, low: nat, high: nat)
    requires Pow(b, p) <= Pow(c, q) && p > 0 && c > 0 && low == q * k && high == s * p && low <= high
    ensures Pow(b, k) <= Pow(c, s)
  {
    PowSwap(b, k, p);
    PowMono(Pow(b, p), Pow(c, q), k);
    PowFar(c, q, k, s, p, low, high);
    if Pow(b, k) > Pow(c, s) {
      PowStrict(Pow(c, s), Pow(b, k), p);
    }
  }

  lemma Pow58()
    ensures Pow(58, 71) == 159730386663078066345306447337161584696769904898410078913243029577507397293846405390982563136983769384625594118558891106107392
  {
    assert Pow(58, 2) == 3364;
    PowAdd(58, 2, 2);
    PowAdd(58, 4, 4);
    assert Pow(58, 8) == 128063081718016;
    PowAdd(58, 8, 8);
    assert Pow(58, 16) == 16400152899115243850138976256;
    PowAdd(58, 16, 16);
    assert Pow(58, 32) == 268965015114358137726910587140455987105619365599731777536;
    PowAdd(58, 32, 32);
    assert Pow(58, 64) == 72342179355466901471258927612150153907721848234316445933056526044582001260898145151856420451025374266490194231296;
    PowAdd(58, 64, 4);
    PowAdd(58, 68, 2);
    PowAdd(58, 70, 1);
  }

  lemma Pow256()
    ensures Pow(256, 52) == 0x100000000000000000000000000000000000000000000000000000000000000000000000000000000000000000000000000000000
  {
    assert Pow(256, 2) == 0x1_0000;
    PowAdd(256, 2, 2);
    PowAdd(256, 4, 4);
    assert Pow(256, 8) == 0x1_0000_0000_0000_0000;
    PowAdd(256, 8, 8);
    PowAdd(256, 16, 16);
    assert Pow(256, 32) == 0x10000000000000000000000000000000000000000000000000000000000000000;
    PowAdd(256, 32, 16);
    PowAdd(256, 48, 4);
  }

  // The buffer estimates: 58^71 <= 256^52 and 256^8 <= 58^11.
  lemma DecodeRoom(k: nat)
    ensures Pow(58, k) <= Pow(256, k * 733 / 1000 + 1)
  {
    Pow58();
    Pow256();
    var s := k * 733 / 1000 + 1;
    PowFits(58, 71, 256, 52, k, s, 52 * k, s * 71);
  }

  lemma EncodeRoom(n: nat)
    ensures Pow(256, n) <= Pow(58, n * 138 / 100 + 1)
  {
    assert Pow(256, 8) == 0x1_0000_0000_0000_0000 by {
      assert Pow(256, 2) == 0x1_0000;
      PowAdd(256, 2, 2);
      PowAdd(256, 4, 4);
    }
    assert Pow(58, 11) == 24986644000165537792 by {
      assert Pow(58, 1) == 58 && Pow(58, 2) == 3364 && Pow(58, 3) == 195112;
      PowAdd(58, 3, 2);
      PowAdd(58, 5, 5);
      PowAdd(58, 10, 1);
    }
    var s := n * 138 / 100 + 1;
    PowFits(256, 8, 58, 11, n, s, 11 * n, s * 8);
  }
}
