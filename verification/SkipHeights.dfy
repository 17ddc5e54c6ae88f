/** The heights that blocks skip to, and how many links a walk down them takes:
    at most the square of the binary logarithm of the height, and one more. */
module SkipHeights {
  import opened Limbs
  import Nonlinear

  // Clears the lowest one-bit.
  function InvertLowestOne(n: nat): (r: nat)
    ensures n > 0 ==> r < n
  {
    if n == 0 then 0
    else if n % 2 == 1 then n - 1
    else 2 * InvertLowestOne(n / 2)
  }

  // What that does to a number: below the lowest one-bit there are k zeros.
  lemma LowestOneCleared(k: nat, high: nat)
    ensures InvertLowestOne(Pow2(k) * (2 * high + 1)) == Pow2(k) * (2 * high)
  {
    ClearedOdd(k, 2 * high + 1, 2 * high);
  }

  lemma ClearedOdd(k: nat, n: nat, m: nat)
    requires n % 2 == 1 && m == n - 1
    ensures InvertLowestOne(Pow2(k) * n) == Pow2(k) * m
  {
    InvertPower(k, n);
  }

  lemma {:induction false} InvertPower(j: nat, n: nat)
    ensures InvertLowestOne(Pow2(j) * n) == Pow2(j) * InvertLowestOne(n)
  {
    if j > 0 {
      InvertPower(j - 1, n);
      ClearedTwice(Pow2(j - 1), n, InvertLowestOne(n));
    }
  }

  lemma ClearedTwice(p: nat, a: nat, b: nat)
    requires p * a >= 0 && InvertLowestOne(p * a) == p * b
    ensures (2 * p) * a >= 0 && InvertLowestOne((2 * p) * a) == (2 * p) * b
  {
    Twice(p, a);
    Twice(p, b);
    InvertTwice(p * a);
  }

  lemma Twice(p: nat, x: nat)
    ensures (2 * p) * x == 2 * (p * x) >= 0
  {
    Nonlinear.Reorder(p, 2, x);
  }

  lemma InvertTwice(n: nat)
    ensures InvertLowestOne(2 * n) == 2 * InvertLowestOne(n)
  {}

  // An odd height skips to one more than a number with two bits less, an even
  // one to a number with one bit less; both are lower.
  function GetSkipHeight(height: int): (r: nat)
    ensures height > 0 ==> r < height
  {
    if height < 2 then 0
    else if height % 2 == 1 then InvertLowestOne(InvertLowestOne(height - 1)) + 1
    else InvertLowestOne(height)
  }

  // An even height loses its lowest one-bit.
  lemma SkipOfEven(k: nat, high: nat)
    requires k > 0
    ensures GetSkipHeight(Pow2(k) * (2 * high + 1)) == Pow2(k) * (2 * high)
  {
    LowestOneCleared(k, high);
    Twice(Pow2(k - 1), 2 * high + 1);
    Nonlinear.MulMono(1, 2 * high + 1, Pow2(k - 1));
  }

  // An odd height keeps its lowest bit and loses the next two.
  lemma SkipOfOdd(j: nat, n: nat)
    requires j > 0 && n > 0
    ensures GetSkipHeight(Pow2(j) * n + 1) == Pow2(j) * InvertLowestOne(InvertLowestOne(n)) + 1
  {
    InvertPower(j, n);
    InvertPower(j, InvertLowestOne(n));
    OddAbove(j, n);
  }

  lemma OddAbove(j: nat, n: nat)
    requires j > 0 && n > 0
    ensures var h := Pow2(j) * n + 1;
      h % 2 == 1 && GetSkipHeight(h) == InvertLowestOne(InvertLowestOne(Pow2(j) * n)) + 1
  {
    Twice(Pow2(j - 1), n);
    Nonlinear.MulMono(1, n, Pow2(j - 1));
  }

  /* One bits */

  // The one-bits of a number.
  function Ones(n: nat): nat { if n == 0 then 0 else Ones(n / 2) + n % 2 }

  // Clearing takes one of them away.
  lemma {:induction false} OnesCleared(n: nat, m: nat)
    requires n > 0 && m == InvertLowestOne(n)
    ensures Ones(n) == Ones(m) + 1
  {
    if n % 2 == 0 {
      OnesCleared(n / 2, InvertLowestOne(n / 2));
    }
  }

  // n ends in j zeros.
  predicate Aligned(n: nat, j: nat) { j == 0 || (n % 2 == 0 && Aligned(n / 2, j - 1)) }

  lemma {:induction false} AlignedLess(n: nat, j: nat)
    requires Aligned(n, j) && j > 0
    ensures Aligned(n, j - 1) && Aligned(n + Pow2(j - 1), j - 1)
  {
    if j > 1 {
      AlignedLess(n / 2, j - 1);
      assert (n + Pow2(j - 1)) / 2 == n / 2 + Pow2(j - 2);
    }
  }

  lemma {:induction false} AlignedNext(n: nat, j: nat)
    requires Aligned(n, j)
    ensures Aligned(n + Pow2(j), j)
  {
    if j > 0 {
      AlignedNext(n / 2, j - 1);
      assert (n + Pow2(j)) / 2 == n / 2 + Pow2(j - 1);
    }
  }

  lemma {:induction false} LessByPower(n: nat, j: nat)
    requires Aligned(n, j) && n > 0
    ensures InvertLowestOne(n) <= n - Pow2(j)
  {
    if j > 0 {
      LessByPower(n / 2, j - 1);
    }
  }

  // Above a number that ends in j zeros, and below the next one, there are one
  // to j bits more.
  lemma {:induction false} OnesAbove(n: nat, base: nat, j: nat)
    requires Aligned(base, j) && base < n < base + Pow2(j)
    ensures base <= InvertLowestOne(n) && Ones(base) < Ones(n) <= Ones(base) + j
  {
    if j > 0 {
      if n / 2 > base / 2 {
        OnesAbove(n / 2, base / 2, j - 1);
      }
    }
  }

  /* Steps */

  // Where the walk to height h goes from height w.
  function NextHeight(w: nat, h: nat): (r: nat)
    requires h < w
    ensures h <= r < w
  {
    var skip := GetSkipHeight(w);
    var skipPrev := GetSkipHeight(w - 1);
    if skip == h || (skip > h && !(skipPrev < skip - 2 && skipPrev >= h)) then skip else w - 1
  }

  function Steps(w: nat, h: nat): nat { if w <= h then 0 else 1 + Steps(NextHeight(w, h), h) }

  // From an odd height a skip costs two bits, the parent one.
  lemma OddStep(w: nat, h: nat)
    requires h < w && w % 2 == 1
    ensures NextHeight(w, h) == w - 1 || NextHeight(w, h) == GetSkipHeight(w)
    ensures Ones(w) == Ones(w - 1) + 1
    ensures GetSkipHeight(w) > 1 ==> Ones(GetSkipHeight(w)) == Ones(w) - 2
  {
    hide InvertLowestOne, Ones;
    OneMore(w);
    NothingCleared();
    if GetSkipHeight(w) > 1 {
      OddSkip(w, InvertLowestOne(w - 1));
    }
  }

  lemma OddSkip(w: nat, x: nat)
    requires w % 2 == 1 && w > 1 && x == InvertLowestOne(w - 1) > 0
    ensures Ones(GetSkipHeight(w)) == Ones(w - 1) - 1
  {
    hide InvertLowestOne, Ones;
    OnesCleared(w - 1, x);
    EvenSkip(w - 1, x, InvertLowestOne(x));
    OnesCleared(x, InvertLowestOne(x));
  }

  lemma EvenSkip(n: nat, x: nat, y: nat)
    requires n % 2 == 0 && n > 0 && x == InvertLowestOne(n) && y == InvertLowestOne(x)
    ensures Ones(GetSkipHeight(n + 1)) == Ones(y) + 1
  {
    hide InvertLowestOne, Ones;
    StaysEven(n);
    StaysEven(x);
    OneMore(y + 1);
  }

  lemma OneMore(n: nat)
    requires n % 2 == 1
    ensures Ones(n) == Ones(n - 1) + 1
  {
    hide InvertLowestOne, Ones;
    OddCleared(n);
    OnesCleared(n, n - 1);
  }

  lemma OddCleared(n: nat)
    requires n % 2 == 1
    ensures InvertLowestOne(n) == n - 1
  {}

  lemma NothingCleared()
    ensures InvertLowestOne(0) == 0
  {}

  lemma StaysEven(n: nat)
    requires n % 2 == 0
    ensures InvertLowestOne(n) % 2 == 0
  {
    hide InvertLowestOne, Ones;
    InvertTwice(n / 2);
    assert n == 2 * (n / 2);
  }

  // The parent of an even height is preferred to the skip link only if it is worth
  // a bit, and its own skip link follows.
  lemma EvenStep(w: nat, h: nat)
    requires h < InvertLowestOne(w) && w % 2 == 0
    ensures NextHeight(w, h) == InvertLowestOne(w)
      || (h < w - 1 == NextHeight(w, h) && NextHeight(w - 1, h) == GetSkipHeight(w - 1)
          && (GetSkipHeight(w - 1) > 1 ==> Ones(GetSkipHeight(w - 1)) < Ones(w)))
  {
    hide InvertLowestOne, Ones;
    NothingCleared();
    assert w >= 2 && GetSkipHeight(w) == InvertLowestOne(w);
    if NextHeight(w, h) != InvertLowestOne(w) {
      assert h <= GetSkipHeight(w - 1) < InvertLowestOne(w) - 2;
      LowBits(w, w / 2);
      ParentSkips(w - 1, h);
      OddStep(w - 1, h);
    }
  }

  // Which even heights these are, and what the two skips have in common.
  lemma LowBits(w: nat, n: nat)
    requires w == 2 * n > 0
    ensures Ones(w - 1) <= Ones(w) + 1 || GetSkipHeight(w - 1) > InvertLowestOne(w)
  {
    hide InvertLowestOne, Ones;
    var k := n / 2;
    if n == 2 * k + 1 {
      OnesBefore2(w, k);
    } else if k == 2 * (k / 2) + 1 {
      OnesBefore4(w, k / 2);
    } else {
      SkipBefore8(w, k / 2);
      Clear8(w, k / 2);
    }
  }

  lemma ClearOne(n: nat)
    ensures InvertLowestOne(2 * n + 1) == 2 * n
  {}

  lemma Clear2(w: nat, n: nat)
    requires w == 2 * (2 * n + 1)
    ensures InvertLowestOne(w) == w - 2
  {
    hide InvertLowestOne, Ones;
    InvertTwice(2 * n + 1);
    ClearOne(n);
  }

  lemma Clear4(w: nat, n: nat)
    requires w == 4 * (2 * n + 1)
    ensures InvertLowestOne(w) == w - 4
  {
    hide InvertLowestOne, Ones;
    Clear2(2 * (2 * n + 1), n);
    InvertTwice(2 * (2 * n + 1));
  }

  lemma Clear8(w: nat, n: nat)
    requires w == 8 * n > 0
    ensures InvertLowestOne(w) <= w - 8
  {
    hide InvertLowestOne, Ones;
    InvertTwice(n);
    InvertTwice(2 * n);
    InvertTwice(4 * n);
  }

  lemma OnesBefore2(w: nat, n: nat)
    requires w == 2 * (2 * n + 1)
    ensures Ones(w - 1) == Ones(w)
  {
    hide InvertLowestOne, Ones;
    Clear2(w, n);
    ClearOne(2 * n);
    SameOnes(w, w - 1, w - 2);
  }

  lemma SameOnes(a: nat, b: nat, m: nat)
    requires a > 0 && b > 0 && InvertLowestOne(a) == m == InvertLowestOne(b)
    ensures Ones(a) == Ones(b)
  {
    hide InvertLowestOne, Ones;
    OnesCleared(a, m);
    OnesCleared(b, m);
  }

  lemma OnesBefore4(w: nat, n: nat)
    requires w == 4 * (2 * n + 1)
    ensures Ones(w - 1) == Ones(w) + 1
  {
    hide InvertLowestOne, Ones;
    Clear4(w, n);
    Clear2(w - 2, 2 * n);
    SameOnes(w, w - 2, w - 4);
    ClearOne(4 * n + 1);
    OnesCleared(w - 1, w - 2);
  }

  lemma SkipBefore8(w: nat, n: nat)
    requires w == 8 * n > 0
    ensures GetSkipHeight(w - 1) == w - 7
  {
    hide InvertLowestOne, Ones;
    Clear2(w - 2, 2 * n - 1);
    Clear4(w - 4, n - 1);
    SkipsTo(4 * n - 1, w - 4, w - 8);
  }

  lemma SkipsTo(n: nat, x: nat, y: nat)
    requires n > 0 && InvertLowestOne(2 * n) == x && InvertLowestOne(x) == y
    ensures GetSkipHeight(2 * n + 1) == y + 1
  {
    hide InvertLowestOne, Ones;
  }

  lemma ParentSkips(w: nat, h: nat)
    requires w % 2 == 1 && h <= GetSkipHeight(w) && h < w
    ensures NextHeight(w, h) == GetSkipHeight(w)
  {
    if w > 1 {
      assert GetSkipHeight(w - 1) == InvertLowestOne(w - 1) >= GetSkipHeight(w) - 1;
    }
  }

  // One or two steps down, with at least one bit less.
  lemma FewerOnes(w: nat, h: nat) returns (v: nat, n: nat)
    requires h < w && h < InvertLowestOne(w)
    ensures h <= v < w && n <= 2 && Steps(w, h) == n + Steps(v, h) && (v > 1 ==> Ones(v) < Ones(w))
  {
    hide InvertLowestOne, Ones;
    v, n := NextHeight(w, h), 1;
    if w % 2 == 1 {
      OddStep(w, h);
    } else {
      EvenStep(w, h);
      if v == InvertLowestOne(w) {
        OnesCleared(w, v);
      } else {
        v, n := GetSkipHeight(w - 1), 2;
      }
    }
  }

  // From above a number that ends in j zeros, the walk to a height below it
  // reaches that number, or passes it, in two steps a bit.
  lemma {:induction false} Descend(w: nat, h: nat, base: nat, j: nat, bound: nat)
    requires Aligned(base, j) && h < base <= w < base + Pow2(j)
    requires forall v :: h <= v <= base ==> Steps(v, h) <= bound
    ensures Steps(w, h) <= 2 * (Ones(w) - Ones(base)) + bound
    decreases w
  {
    hide InvertLowestOne, Ones;
    if w > base {
      OnesAbove(w, base, j);
      var v, n := FewerOnes(w, h);
      if v > base { Descend(v, h, base, j, bound); }
    }
  }

  // Between two neighbours that end in k zeros.
  lemma {:induction false} Between(w: nat, h: nat, low: nat, k: nat)
    requires Aligned(low, k) && low <= h <= w <= low + Pow2(k)
    ensures Steps(w, h) <= k * k + 1
    decreases k, w
  {
    if h < w && k > 0 {
      var mid := low + Pow2(k - 1);
      AlignedLess(low, k);
      if w <= mid {
        Between(w, h, low, k - 1);
      } else if h >= mid {
        Between(w, h, mid, k - 1);
      } else if w < low + Pow2(k) {
        Across(w, h, low, k);
      } else {
        AlignedNext(low, k);
        LessByPower(w, k);
        if NextHeight(w, h) != h {
          assert NextHeight(w, h) == w - 1;
          Across(w - 1, h, low, k);
        }
      }
    }
  }

  lemma {:induction false} Across(w: nat, h: nat, low: nat, k: nat)
    requires k > 0 && Aligned(low, k) && low <= h < low + Pow2(k - 1) <= w < low + Pow2(k)
    ensures Steps(w, h) <= k * k
    decreases k, 0
  {
    var mid := low + Pow2(k - 1);
    AlignedLess(low, k);
    forall v | h <= v <= mid ensures Steps(v, h) <= (k - 1) * (k - 1) + 1 {
      Between(v, h, low, k - 1);
    }
    Descend(w, h, mid, k - 1, (k - 1) * (k - 1) + 1);
    if w > mid { OnesAbove(w, mid, k - 1); }
    assert k * k == (k - 1) * (k - 1) + 2 * (k - 1) + 1;
  }

  // The walk from below 2^k takes at most k * k + 1 steps.
  lemma StepsBound(w: nat, h: nat, k: nat)
    requires h <= w <= Pow2(k)
    ensures Steps(w, h) <= k * k + 1
  {
    ZeroAligned(k);
    Between(w, h, 0, k);
  }

  lemma {:induction false} ZeroAligned(k: nat)
    ensures Aligned(0, k)
  {
    if k > 0 { ZeroAligned(k - 1); }
  }
}
