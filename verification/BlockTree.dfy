/** The tree of block headers. A block knows its parent, its height and one
    earlier ancestor to skip to; the links never change once a block is made.
    The active chain is a vector that follows the tip by the shortest rewrite. */
module BlockTree {
  import opened Limbs
  import opened SkipHeights

  /* Blocks */

  class BlockIndex {
    const prev: BlockIndex?
    const skip: BlockIndex?
    const height: nat
    const time: int
    const timeMax: int

    // Heights count the blocks below.
    ghost predicate Linked()
      decreases height
    { if prev == null then height == 0 else height == prev.height + 1 && prev.Linked() }

    // What the constructors establish, all the way down to genesis.
    ghost predicate Valid()
      decreases height
    {
      && Linked()
      && if prev == null then skip == null && timeMax == time
         else
           && prev.Valid()
           && skip == Path(prev)[GetSkipHeight(height)]
           && timeMax == if prev.timeMax < time then time else prev.timeMax
    }

    constructor (prev: BlockIndex?, time: int)
      requires prev != null ==> prev.Valid()
      ensures Valid() && this.prev == prev && this.time == time
    {
      this.prev, this.time := prev, time;
      if prev == null {
        height, skip, timeMax := 0, null, time;
      } else {
        height := prev.height + 1;
        timeMax := if prev.timeMax < time then time else prev.timeMax;
        var s := prev.GetAncestor(GetSkipHeight(prev.height + 1));
        skip := s;
      }
    }

    // Following the skip links reaches what following the parents would.
    method GetAncestor(h: int) returns (r: BlockIndex?)
      requires Valid()
      ensures r == if 0 <= h <= height then Path(this)[h] else null
    {
      if h > height || h < 0 {
        return null;
      }
      ghost var steps;
      r, steps := Walk(h);
    }

    // The walk down the links, and how many of them it follows.
    method Walk(h: nat) returns (walk: BlockIndex, ghost steps: nat)
      requires Valid() && h <= height
      ensures walk == Path(this)[h] && steps == Steps(height, h)
    {
      walk, steps := this, 0;
      var heightWalk := height;
      while heightWalk > h
        invariant walk.Valid() && walk.height == heightWalk >= h
        invariant Path(walk)[h] == Path(this)[h]
        invariant steps + Steps(heightWalk, h) == Steps(height, h)
      {
        var heightSkip := GetSkipHeight(heightWalk);
        var heightSkipPrev := GetSkipHeight(heightWalk - 1);
        LinksOf(walk, h);
        if walk.skip != null
          && (heightSkip == h || (heightSkip > h && !(heightSkipPrev < heightSkip - 2 && heightSkipPrev >= h)))
        {
          walk := walk.skip;
          heightWalk := heightSkip;
        } else {
          assert walk.prev != null;
          walk := walk.prev;
          heightWalk := heightWalk - 1;
        }
        steps := steps + 1;
      }
    }
  }

  // Both links of a block lead to its path, and below them it is the same.
  lemma LinksOf(b: BlockIndex, h: nat)
    requires b.Valid() && h < b.height
    ensures b.prev != null && b.skip != null && b.prev.Valid() && b.skip.Valid()
    ensures b.prev.height == b.height - 1 && b.skip.height == GetSkipHeight(b.height)
    ensures Path(b.prev)[h] == Path(b)[h]
    ensures h <= b.skip.height ==> Path(b.skip)[h] == Path(b)[h]
  {
    PathOn(b.prev, GetSkipHeight(b.height));
  }

  // The blocks from genesis to b, as its parent links give them.
  ghost function Path(b: BlockIndex): (p: seq<BlockIndex>)
    requires b.Linked()
    ensures |p| == b.height + 1 && p[b.height] == b
    decreases b.height
  { if b.prev == null then [b] else Path(b.prev) + [b] }

  // The path to a block on the way is the first part of the path.
  lemma {:induction false} PathOn(b: BlockIndex, h: nat)
    requires b.Linked() && h <= b.height
    ensures var a := Path(b)[h]; a.Linked() && a.height == h && Path(a) == Path(b)[..h + 1]
    ensures b.Valid() ==> Path(b)[h].Valid()
    decreases b.height
  {
    if h < b.height {
      PathOn(b.prev, h);
      assert Path(b)[..h + 1] == Path(b.prev)[..h + 1];
    }
  }

  lemma StepDown(b: BlockIndex, h: nat)
    requires b.Linked() && h <= b.height
    ensures Path(b)[h].prev == if h == 0 then null else Path(b)[h - 1]
  {
    PathOn(b, h);
    if h > 0 {
      PathOn(b, h - 1);
      var a := Path(b)[h];
      assert Path(a) == Path(a.prev) + [a];
      assert Path(a)[h - 1] == Path(b)[h - 1];
    }
  }

  lemma OneDown(b: BlockIndex, h: nat)
    requires b.Linked() && h <= b.height
    ensures if h == 0 then Path(b)[h].prev == null
      else Path(b)[h].prev == Path(b)[h - 1] && Path(b)[h - 1].height == h - 1
  {
    StepDown(b, h);
    if h > 0 { PathOn(b, h - 1); }
  }

  /* Forks */

  // Both paths have the same block at height h.
  predicate Meet(p: seq<BlockIndex>, q: seq<BlockIndex>, h: nat) { h < |p| && h < |q| && p[h] == q[h] }

  // The highest block of both paths, or null if they have none in common.
  ghost predicate IsFork(p: seq<BlockIndex>, q: seq<BlockIndex>, r: BlockIndex?) {
    if r == null then forall h: nat :: !Meet(p, q, h)
    else Meet(p, q, r.height) && r == p[r.height] && forall h: nat :: Meet(p, q, h) ==> h <= r.height
  }

  // Paths that meet are the same below.
  lemma MeetBelow(a: BlockIndex, b: BlockIndex, h: nat)
    requires a.Linked() && b.Linked() && Meet(Path(a), Path(b), h)
    ensures Path(a)[..h + 1] == Path(b)[..h + 1]
  {
    PathOn(a, h);
    PathOn(b, h);
  }

  method LastCommonAncestor(a: BlockIndex, b: BlockIndex) returns (r: BlockIndex?)
    requires a.Valid() && b.Valid()
    ensures IsFork(Path(a), Path(b), r)
  {
    var pa: BlockIndex?, pb: BlockIndex? := a, b;
    if a.height > b.height {
      pa := a.GetAncestor(b.height);
    } else if b.height > a.height {
      pb := b.GetAncestor(a.height);
    }
    ghost var p, q := Path(a), Path(b);
    ghost var top: int := if a.height < b.height then a.height else b.height;
    while pa != pb && pa != null && pb != null
      invariant -1 <= top < |p| && top < |q|
      invariant if top < 0 then pa == null && pb == null else pa == p[top] && pb == q[top]
      invariant forall h: nat :: Meet(p, q, h) ==> h <= top
      decreases top
    {
      StepDown(a, top);
      StepDown(b, top);
      pa := pa.prev;
      pb := pb.prev;
      top := top - 1;
    }
    assert pa == pb;
    if pa != null {
      PathOn(a, top);
    }
    return pa;
  }

  /* The active chain */

  class Chain {
    var vChain: seq<BlockIndex?>
    var tip: BlockIndex?

    // Position i holds the ancestor of the tip at height i.
    ghost predicate Valid()
      reads this
    { if tip == null then vChain == [] else tip.Valid() && vChain == Path(tip) }

    constructor ()
      ensures Valid() && tip == null
    {
      vChain, tip := [], null;
    }

    function At(h: int): BlockIndex?
      reads this
    { if h < 0 || h >= |vChain| then null else vChain[h] }

    // A block is in the chain exactly when it is on the path to the tip.
    predicate Contains(b: BlockIndex)
      reads this
    { At(b.height) == b }

    function Height(): int
      reads this
    { if tip == null then -1 else tip.height }

    method Next(b: BlockIndex) returns (r: BlockIndex?)
      requires b.Valid() && Valid()
      ensures r != null <==> b in vChain && b != tip
      ensures r != null ==> r.prev == b && r in vChain
    {
      if tip != null {
        OnPath(tip, b);
      }
      if !Contains(b) {
        return null;
      }
      if b.height < tip.height {
        StepDown(tip, b.height + 1);
      }
      return At(b.height + 1);
    }

    // Rewrites from the tip down and stops at the first block that is already
    // in its place.
    method SetTip(b: BlockIndex?)
      requires Valid() && (b != null ==> b.Valid())
      modifies this
      ensures Valid() && tip == b
    {
      ghost var was := tip;
      tip := b;
      if b == null {
        vChain := [];
        return;
      }
      Resize(b.height + 1);
      Rewrite(b, was);
    }

    method Resize(n: nat)
      modifies `vChain
      ensures |vChain| == n
      ensures forall i :: 0 <= i < n ==> vChain[i] == if i < |old(vChain)| then old(vChain)[i] else null
    {
      vChain := if n <= |vChain| then vChain[..n] else vChain + seq(n - |vChain|, _ => null);
    }

    // The entries come from the path of the old tip.
    method Rewrite(b: BlockIndex, ghost was: BlockIndex?)
      requires b.Valid() && |vChain| == b.height + 1 && (was != null ==> was.Linked())
      requires forall i :: 0 <= i <= b.height ==>
        vChain[i] == if was != null && i <= was.height then Path(was)[i] else null
      modifies `vChain
      ensures vChain == Path(b)
    {
      ghost var p := Path(b);
      var walk: BlockIndex? := b;
      ghost var top: int := b.height;
      while walk != null && vChain[walk.height] != walk
        invariant -1 <= top <= b.height && |vChain| == |p|
        invariant if top < 0 then walk == null else walk == p[top] && walk.height == top
        invariant forall i :: 0 <= i <= top ==> vChain[i] == old(vChain)[i]
        invariant forall i :: top < i < |p| ==> vChain[i] == p[i]
        decreases top
      {
        StepDown(b, top);
        vChain := vChain[walk.height := walk];
        walk := walk.prev;
        top := top - 1;
        if top >= 0 {
          PathOn(b, top);
        }
      }
      if walk != null {
        RestInPlace(was, b, top, old(vChain));
      }
    }

    method FindFork(b: BlockIndex?) returns (r: BlockIndex?)
      requires Valid() && (b != null ==> b.Valid())
      ensures if b == null || tip == null then r == null else IsFork(Path(tip), Path(b), r)
    {
      if b == null {
        return null;
      }
      var walk: BlockIndex? := b;
      if b.height > Height() {
        walk := b.GetAncestor(Height());
      }
      if tip == null {
        return walk;
      }
      r := FirstContained(b, walk);
    }

    // Goes down from a block of the path to b that is not above the chain.
    method FirstContained(b: BlockIndex, from: BlockIndex?) returns (walk: BlockIndex?)
      requires Valid() && tip != null && b.Valid()
      requires from == Path(b)[if b.height > tip.height then tip.height else b.height]
      ensures IsFork(Path(tip), Path(b), walk)
    {
      walk := from;
      ghost var p, q := Path(tip), Path(b);
      ghost var top: int := if b.height > tip.height then tip.height else b.height;
      PathOn(b, top);
      while walk != null && !Contains(walk)
        invariant -1 <= top < |q| && top < |p|
        invariant if top < 0 then walk == null else walk == q[top] && walk.height == top
        invariant forall h: nat :: Meet(p, q, h) ==> h <= top
        decreases top
      {
        assert !Meet(p, q, top);
        OneDown(b, top);
        walk := walk.prev;
        top := top - 1;
      }
    }

    // Blocks on the way back to genesis, at growing distances.
    method GetLocator(start: BlockIndex?) returns (have: seq<BlockIndex>)
      requires Valid() && (start != null ==> start.Valid())
      ensures start == null && tip == null ==> have == []
      ensures var b := if start == null then tip else start;
        b != null ==> have == Locator(Path(b), b.height, 1, 0)
    {
      var b := if start == null then tip else start;
      if b == null {
        return [];
      }
      have := LocatorFrom(b);
    }

    method LocatorFrom(b: BlockIndex) returns (have: seq<BlockIndex>)
      requires Valid() && b.Valid()
      ensures have == Locator(Path(b), b.height, 1, 0)
    {
      have := [];
      var step: nat, walk := 1, b;
      while true
        invariant Locating(b, walk, step, have)
        decreases walk.height
      {
        if walk.height == 0 {
          LocatorLast(b, walk, step, have);
          return have + [walk];
        }
        LocatorNext(b, walk, step, have);
        have := have + [walk];
        walk := StepBack(b, walk, if walk.height < step then 0 else walk.height - step);
        if |have| > 10 {
          step := step * 2;
        }
      }
    }

    // The ancestor at a lower height, read from the chain where possible.
    method StepBack(ghost b: BlockIndex, walk: BlockIndex, h: nat) returns (r: BlockIndex)
      requires Valid() && b.Valid() && h <= walk.height <= b.height && walk == Path(b)[walk.height]
      ensures r == Path(b)[h] && r.Valid() && r.height == h
    {
      PathOn(b, walk.height);
      PathOn(b, h);
      if Contains(walk) {
        MeetBelow(tip, b, walk.height);
        assert Path(tip)[..walk.height + 1][h] == Path(b)[..walk.height + 1][h];
        r := At(h);
      } else {
        r := walk.GetAncestor(h);
      }
    }

    // Binary search for the first block whose running maximum of times reaches
    // the given time: that is the first block with such a time.
    method FindEarliestAtLeast(time: int) returns (r: BlockIndex?)
      requires Valid()
      ensures r == null <==> forall i :: 0 <= i < |vChain| ==> vChain[i].time < time
      ensures r != null ==> r.height < |vChain| && vChain[r.height] == r && r.time >= time
      ensures r != null ==> forall i :: 0 <= i < r.height ==> vChain[i].time < time
    {
      if tip == null {
        return null;
      }
      ghost var p := Path(tip);
      var first, count := 0, |vChain|;
      while count > 0
        invariant 0 <= first <= first + count <= |vChain|
        invariant first > 0 ==> p[first - 1].timeMax < time
        invariant first + count < |vChain| ==> p[first + count].timeMax >= time
      {
        var half := count / 2;
        var mid := first + half;
        assert vChain[mid] == p[mid];
        if vChain[mid].timeMax < time {
          first := mid + 1;
          count := count - half - 1;
        } else {
          count := half;
        }
      }
      if first > 0 {
        EarlierTimes(tip, first - 1, time);
      }
      if first == |vChain| {
        return null;
      }
      RunningMax(tip, first);
      PathOn(tip, first);
      return vChain[first];
    }
  }

  // The step doubles once more than ten blocks were taken.
  ghost function Locator(p: seq<BlockIndex>, h: nat, step: nat, taken: nat): (r: seq<BlockIndex>)
    requires h < |p| && step > 0
    ensures |r| > 0 && r[0] == p[h] && r[|r| - 1] == p[0]
    decreases h
  {
    if h == 0 then [p[h]]
    else [p[h]] + Locator(p, if h < step then 0 else h - step, if taken + 1 > 10 then step * 2 else step, taken + 1)
  }

  // The blocks taken so far are the first ones of the locator of b.
  ghost predicate Locating(b: BlockIndex, walk: BlockIndex, step: nat, have: seq<BlockIndex>) {
    && b.Valid() && walk.Valid() && step > 0 && walk.height <= b.height && walk == Path(b)[walk.height]
    && have + Locator(Path(b), walk.height, step, |have|) == Locator(Path(b), b.height, 1, 0)
  }

  lemma LocatorNext(b: BlockIndex, walk: BlockIndex, step: nat, have: seq<BlockIndex>)
    requires Locating(b, walk, step, have) && walk.height > 0
    ensures var h := if walk.height < step then 0 else walk.height - step;
      Locating(b, Path(b)[h], if |have| + 1 > 10 then step * 2 else step, have + [walk])
  {
    var h := if walk.height < step then 0 else walk.height - step;
    PathOn(b, h);
    LocatorMore(Path(b), walk.height, step, have);
  }

  lemma LocatorLast(b: BlockIndex, walk: BlockIndex, step: nat, have: seq<BlockIndex>)
    requires Locating(b, walk, step, have) && walk.height == 0
    ensures have + [walk] == Locator(Path(b), b.height, 1, 0)
  {
    LocatorMore(Path(b), 0, step, have);
  }

  lemma LocatorMore(p: seq<BlockIndex>, h: nat, step: nat, have: seq<BlockIndex>)
    requires h < |p| && step > 0
    ensures have + Locator(p, h, step, |have|) ==
      if h == 0 then have + [p[h]]
      else (have + [p[h]]) + Locator(p, if h < step then 0 else h - step,
                                     if |have| + 1 > 10 then step * 2 else step, |have| + 1)
  {}

  // A locator is short: a dozen blocks, and one more for every doubling.
  lemma {:induction false} LocatorDoubling(p: seq<BlockIndex>, h: nat, step: nat, taken: nat, k: nat)
    requires h < |p| && step > 0 && taken >= 10 && h <= step * (Pow2(k) - 1)
    ensures |Locator(p, h, step, taken)| <= k + 1
    decreases h
  {
    if h > 0 {
      var h' := if h < step then 0 else h - step;
      if k > 0 {
        assert (step * 2) * (Pow2(k - 1) - 1) == step * (Pow2(k) - 1) - step;
        assert step * 2 * (Pow2(k - 1) - 1) >= 0;
        LocatorDoubling(p, h', step * 2, taken + 1, k - 1);
      }
    }
  }

  lemma {:induction false} LocatorShort(p: seq<BlockIndex>, h: nat, taken: nat, k: nat)
    requires h < |p| && h < Pow2(k) && taken <= 10
    ensures |Locator(p, h, 1, taken)| <= k + 11 - taken
    decreases h
  {
    if taken == 10 {
      LocatorDoubling(p, h, 1, taken, k);
    } else if h > 0 {
      LocatorShort(p, h - 1, taken + 1, k);
    }
  }

  // The running maximum exceeds the parent's only by the block's own time.
  lemma RunningMax(b: BlockIndex, h: nat)
    requires b.Valid() && h <= b.height
    ensures var p := Path(b);
      p[h].timeMax == if h > 0 && p[h - 1].timeMax >= p[h].time then p[h - 1].timeMax else p[h].time
  {
    PathOn(b, h);
    StepDown(b, h);
  }

  lemma {:induction false} EarlierTimes(b: BlockIndex, h: nat, time: int)
    requires b.Valid() && h <= b.height && Path(b)[h].timeMax < time
    ensures forall i :: 0 <= i <= h ==> Path(b)[i].time < time
  {
    RunningMax(b, h);
    if h > 0 {
      EarlierTimes(b, h - 1, time);
    }
  }

  // Where the old path and the new one meet, nothing below needs rewriting.
  lemma RestInPlace(was: BlockIndex?, b: BlockIndex, top: nat, chain: seq<BlockIndex?>)
    requires b.Linked() && top <= b.height && |chain| == b.height + 1 && (was != null ==> was.Linked())
    requires forall i :: 0 <= i <= b.height ==>
      chain[i] == if was != null && i <= was.height then Path(was)[i] else null
    requires chain[top] == Path(b)[top]
    ensures forall i :: 0 <= i <= top ==> chain[i] == Path(b)[i]
  {
    MeetBelow(was, b, top);
    forall i | 0 <= i <= top
      ensures chain[i] == Path(b)[i]
    {
      assert Path(was)[..top + 1][i] == Path(b)[..top + 1][i];
    }
  }

  // A block on a path is at its own height there.
  lemma OnPath(tip: BlockIndex, b: BlockIndex)
    requires tip.Linked()
    ensures b in Path(tip) <==> b.height <= tip.height && Path(tip)[b.height] == b
  {
    if b in Path(tip) {
      var i :| 0 <= i <= tip.height && Path(tip)[i] == b;
      PathOn(tip, i);
    }
  }
}
