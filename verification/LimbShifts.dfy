/** Shifts of numbers made of 32-bit limbs: what each limb becomes, and what that
    makes of the number. */
module LimbShifts {
  import opened Limbs
  import Nonlinear

  // A limb shifted left, without the bits pushed out, and those bits.
  function Low(a: Limb, s: nat): (r: Limb)
    requires s < 32
  { a * Pow2(s) % BASE }

  function High(a: Limb, s: nat): (r: Limb)
    requires s < 32
  {
    Quotient(a, Pow2(32 - s));
    a / Pow2(32 - s)
  }

  // A limb shifted right.
  function Down(a: Limb, s: nat): (r: Limb)
    requires s < 32
  {
    Quotient(a, Pow2(s));
    a / Pow2(s)
  }

  // The or of two numbers whose bits do not meet: those of low lie below bit n,
  // those of high do not.
  function Or(low: nat, high: nat, ghost n: nat, ghost times: nat): nat
    requires low < Pow2(n) && high == times * Pow2(n)
  { low + high }

  lemma Quotient(a: nat, d: nat)
    requires d > 0
    ensures a == d * (a / d) + a % d && 0 <= a % d < d && 0 <= a / d <= a
  {
    var q := a / d;
    assert a == d * q + a % d;
    if q > a {
      Nonlinear.MulMono(1, d, q);
    }
  }

  lemma Halves(s: nat)
    requires s < 32
    ensures Pow2(s) * Pow2(32 - s) == BASE
  {
    Pow2Limb();
    Pow2Add(s, 32 - s);
  }

  // A left shift splits the product at the limb boundary.
  lemma LowHigh(a: Limb, s: nat)
    requires s < 32
    ensures a * Pow2(s) == BASE * High(a, s) + Low(a, s)
    ensures Low(a, s) == (a % Pow2(32 - s)) * Pow2(s)
    ensures High(a, s) < Pow2(s) && Low(a, s) + Pow2(s) <= BASE
  {
    var p, q := Pow2(s), Pow2(32 - s);
    Halves(s);
    Quotient(a, q);
    SplitProduct(a, p, q, a / q, a % q);
    Nonlinear.DivUnique(a * p, BASE, a / q, (a % q) * p);
  }

  lemma SplitProduct(a: nat, p: nat, q: nat, high: nat, low: nat)
    requires a == q * high + low && low < q && a < p * q && p > 0
    ensures a * p == (p * q) * high + low * p && low * p + p <= p * q && high < p
  {
    assert a * p == (q * high) * p + low * p;
    assert (q * high) * p == (p * q) * high;
    Nonlinear.MulMono(low + 1, q, p);
    assert (low + 1) * p == low * p + p;
    if high >= p {
      Nonlinear.MulMono(p, high, q);
    }
  }

  // One limb x of a left shift arrives at limb i + k: its low part joins the
  // carry c, its high part is the next carry.
  lemma ShlStep(v: nat, c: nat, a: nat, x: Limb, s: nat, i: nat, k: nat)
    requires s < 32 && v + Mod(i + k) * c == (Mod(k) * Pow2(s)) * a
    ensures v + Mod(i + k) * (c + Low(x, s)) + Mod(i + k + 1) * High(x, s) == (Mod(k) * Pow2(s)) * (a + Mod(i) * x)
  {
    LowHigh(x, s);
    ModAdd(i, k);
    ShlAlgebra(v, c, a, x, Low(x, s), High(x, s), Mod(i), Mod(k), Mod(i + k), Pow2(s));
  }

  lemma ShlAlgebra(v: nat, c: nat, a: nat, x: nat, low: nat, high: nat, mi: nat, mk: nat, m: nat, p: nat)
    requires m == mi * mk && x * p == BASE * high + low && v + m * c == (mk * p) * a
    ensures v + m * (c + low) + (BASE * m) * high == (mk * p) * (a + mi * x)
  {
    Nonlinear.Split(m, c, low);
    assert m * low + (BASE * m) * high == m * (x * p) by {
      Nonlinear.Split(m, low, BASE * high);
      Nonlinear.Reorder(m, BASE, high);
    }
    Nonlinear.Distribute(mk * p, a, mi, x);
    assert m * (x * p) == ((mk * p) * mi) * x by {
      Nonlinear.Reorder(m, x, p);
      Nonlinear.Reorder(mk, p, mi);
      assert (mk * p) * mi == (mi * mk) * p;
      assert ((mi * mk) * p) * x == m * (x * p);
    }
  }

  // One limb x of a right shift arrives at limb n: its low bits complete limb
  // n - 1, the others start limb n.
  lemma ShrStep(a: nat, r: nat, out: nat, x: Limb, s: nat, n: nat)
    requires s < 32 && n > 0 && a == Pow2(s) * r + out
    ensures a + Mod(n) * x
      == Pow2(s) * (r + Mod(n - 1) * ((x % Pow2(s)) * Pow2(32 - s)) + Mod(n) * Down(x, s)) + out
  {
    DownHigh(x, s);
    Halves(s);
    ShrAlgebra(a, r, out, x, x % Pow2(s), Down(x, s), Pow2(s), Pow2(32 - s), Mod(n - 1));
  }

  lemma ShrAlgebra(a: nat, r: nat, out: nat, x: nat, low: nat, down: nat, p: nat, q: nat, m: nat)
    requires p * q == BASE && x == p * down + low && a == p * r + out
    ensures a + (BASE * m) * x == p * (r + m * (low * q) + (BASE * m) * down) + out
  {
    assert p * (m * (low * q)) == (BASE * m) * low by {
      Nonlinear.Reorder(p, m, low * q);
      Nonlinear.Reorder(p, low, q);
    }
    assert p * ((BASE * m) * down) == (BASE * m) * (p * down) by {
      Nonlinear.Reorder(p, BASE * m, down);
    }
    Nonlinear.Split(BASE * m, p * down, low);
    Nonlinear.Split(p, r + m * (low * q), (BASE * m) * down);
    Nonlinear.Split(p, r, m * (low * q));
  }

  lemma DownHigh(a: Limb, s: nat)
    requires s < 32
    ensures a == Pow2(s) * Down(a, s) + a % Pow2(s) && 0 <= a % Pow2(s) < Pow2(s) && Down(a, s) < Pow2(32 - s)
  {
    Halves(s);
    Quotient(a, Pow2(s));
    if Down(a, s) >= Pow2(32 - s) {
      Nonlinear.MulMono(Pow2(32 - s), Down(a, s), Pow2(s));
    }
  }

  // The bits that a right shift moves into the limb below.
  lemma LowPart(a: Limb, s: nat)
    requires s < 32
    ensures (a % Pow2(s)) * Pow2(32 - s) + Pow2(32 - s) <= BASE
    ensures s > 0 ==> Low(a, 32 - s) == (a % Pow2(s)) * Pow2(32 - s)
  {
    Halves(s);
    Quotient(a, Pow2(s));
    var x := a % Pow2(s);
    Nonlinear.MulMono(x + 1, Pow2(s), Pow2(32 - s));
    assert (x + 1) * Pow2(32 - s) == x * Pow2(32 - s) + Pow2(32 - s);
    if s > 0 {
      LowHigh(a, 32 - s);
    }
  }
}
