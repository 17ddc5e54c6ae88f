/** Soft consensus freezing: a block frozen for n blocks freezes its next n
    descendants as well. The cumulative marks are brought up to date by walking
    the tree of descendants that lie within reach. */
module SoftFreeze {
  import opened Options
  import opened BlockTree
  import opened Descendants

  /* The tree, built from the index of all blocks */

  class BlockIndexWithDescendants {
    const root: BlockIndex
    var blocks: seq<BlockIndex>
    var parent: seq<Option<nat>>
    var children: seq<seq<nat>>

    // Item positions stand for pointers into the vector of blocks.
    ghost function View(top: nat): Tree
      reads this
    { Tree(top, Heights(blocks), parent, children) }

    ghost predicate Valid(top: nat)
      reads this
    {
      && blocks != [] && blocks[0] == root && Candidates(root, blocks, top)
      && Joined(blocks, parent, children, |blocks|)
    }

    constructor (root: BlockIndex, index: seq<BlockIndex>, maxHeight: nat)
      requires root.Valid() && (forall b :: b in index ==> b.Valid()) && NoTwice(index)
      ensures this.root == root
      ensures Valid(if maxHeight < root.height then root.height else maxHeight)
      ensures forall b :: b in blocks <==> b == root || (b in index && root.height < b.height <= maxHeight)
    {
      this.root := root;
      var bs := Collect(root, index, maxHeight);
      var parents, kids := Join(bs);
      blocks, parent, children := bs, parents, kids;
    }

    // Gives every block its parent among the blocks, and the parent its child.
    static method Join(bs: seq<BlockIndex>) returns (parents: seq<Option<nat>>, kids: seq<seq<nat>>)
      ensures Joined(bs, parents, kids, |bs|)
    {
      var item := Positions(bs);
      parents, kids := seq(|bs|, _ => None), seq(|bs|, _ => []);
      for i := 0 to |bs|
        invariant Joined(bs, parents, kids, i)
      {
        var p := bs[i].prev;
        if p != null && p in item {
          JoinNext(bs, parents, kids, i, item[p]);
          parents := parents[i := Some(item[p])];
          kids := kids[item[p] := kids[item[p]] + [i]];
        } else {
          SkipNext(bs, parents, kids, i);
        }
      }
    }

    // The root, and all blocks above it up to the height limit.
    static method Collect(root: BlockIndex, index: seq<BlockIndex>, maxHeight: nat) returns (bs: seq<BlockIndex>)
      requires NoTwice(index)
      ensures bs != [] && bs[0] == root && NoTwice(bs)
      ensures forall b :: b in bs <==> b == root || (b in index && root.height < b.height <= maxHeight)
    {
      bs := [root];
      for i := 0 to |index|
        invariant bs != [] && bs[0] == root && NoTwice(bs)
        invariant forall b :: b in bs <==> b == root || (b in index[..i] && root.height < b.height <= maxHeight)
      {
        if root.height < index[i].height <= maxHeight {
          bs := bs + [index[i]];
        }
      }
      assert index[..|index|] == index;
    }

    static method Positions(bs: seq<BlockIndex>) returns (item: map<BlockIndex, nat>)
      ensures forall b :: b in item <==> b in bs
      ensures forall b :: b in item ==> item[b] < |bs| && bs[item[b]] == b
    {
      item := map[];
      for i := 0 to |bs|
        invariant forall b :: b in item <==> b in bs[..i]
        invariant forall b :: b in item ==> item[b] < |bs| && bs[item[b]] == b
      {
        if bs[i] !in item {
          item := item[bs[i] := i];
        }
      }
      assert bs[..|bs|] == bs;
    }

    // One step of the walk.
    method NextItem(i: nat, ghost top: nat) returns (r: Option<nat>)
      requires Ok(View(top)) && i < |blocks|
      ensures r == Next(View(top), i)
    {
      if children[i] != [] {
        return Some(children[i][0]);
      }
      r := NextSibling(parent, children, i, View(top));
    }
  }

  // The next sibling of an item, or of its nearest ancestor that has one.
  method NextSibling(parent: seq<Option<nat>>, children: seq<seq<nat>>, i: nat, ghost t: Tree) returns (r: Option<nat>)
    requires Ok(t) && t.parent == parent && t.kids == children && i < |parent|
    ensures r == Climb(t, i)
  {
    var item, p := i, parent[i];
    while p.Some?
      invariant 0 <= item < |parent| && p == parent[item] && Climb(t, item) == Climb(t, i)
      decreases t.height[item]
    {
      assert KidsOk(t, p.value);
      var k := FindChild(children[p.value], item);
      assert k != |children[p.value]|;
      if k + 1 < |children[p.value]| {
        return Some(children[p.value][k + 1]);
      }
      item, p := p.value, parent[p.value];
    }
    return None;
  }

  method FindChild(cs: seq<nat>, c: nat) returns (k: nat)
    ensures k == Find(cs, c)
  {
    k := 0;
    while k < |cs| && cs[k] != c
      invariant k <= |cs| && Find(cs, c) == k + Find(cs[k..], c)
    {
      assert cs[k..][1..] == cs[k + 1..];
      k := k + 1;
    }
  }

  ghost predicate NoTwice(bs: seq<BlockIndex>) { forall i, j :: 0 <= i < j < |bs| ==> bs[i] != bs[j] }

  function Heights(bs: seq<BlockIndex>): (r: seq<nat>)
    ensures |r| == |bs| && forall i :: 0 <= i < |bs| ==> r[i] == bs[i].height
  { seq(|bs|, i requires 0 <= i < |bs| => bs[i].height) }

  ghost predicate Candidates(root: BlockIndex, bs: seq<BlockIndex>, top: nat) {
    && NoTwice(bs)
    && (forall b :: b in bs ==> b.Valid() && b.height <= top && (b == root || root.height < b.height))
  }

  // An item's parent is the item of its block's parent, if there is one.
  predicate ParentOk(bs: seq<BlockIndex>, i: nat, p: Option<nat>)
    requires i < |bs|
  {
    if p.Some? then p.value < |bs| && bs[p.value] == bs[i].prev
    else bs[i].prev == null || bs[i].prev !in bs
  }

  // The first n items have been given their parents, and these their children.
  ghost predicate Joined(bs: seq<BlockIndex>, parent: seq<Option<nat>>, kids: seq<seq<nat>>, n: nat) {
    && |parent| == |kids| == |bs|
    && (forall i :: 0 <= i < |bs| ==> if i < n then ParentOk(bs, i, parent[i]) else parent[i] == None)
    && forall j :: 0 <= j < |bs| ==> KidsJoined(parent, kids[j], j, n)
  }

  ghost predicate KidsJoined(parent: seq<Option<nat>>, kids: seq<nat>, j: nat, n: nat) {
    && (forall k :: 0 <= k < |kids| ==> kids[k] < n && kids[k] < |parent| && parent[kids[k]] == Some(j))
    && (forall k, l :: 0 <= k < l < |kids| ==> kids[k] != kids[l])
    && (forall i :: 0 <= i < |parent| && parent[i] == Some(j) ==> i in kids)
  }

  lemma JoinNext(bs: seq<BlockIndex>, parent: seq<Option<nat>>, kids: seq<seq<nat>>, i: nat, p: nat)
    requires Joined(bs, parent, kids, i) && i < |bs| && p < |bs| && bs[p] == bs[i].prev
    ensures Joined(bs, parent[i := Some(p)], kids[p := kids[p] + [i]], i + 1)
  {
    var parent', kids' := parent[i := Some(p)], kids[p := kids[p] + [i]];
    forall j | 0 <= j < |bs|
      ensures KidsJoined(parent', kids'[j], j, i + 1)
    {
      KidJoins(parent, kids[j], j, i, p);
    }
  }

  lemma KidJoins(parent: seq<Option<nat>>, kids: seq<nat>, j: nat, i: nat, p: nat)
    requires KidsJoined(parent, kids, j, i) && i < |parent| && parent[i] == None
    ensures KidsJoined(parent[i := Some(p)], if j == p then kids + [i] else kids, j, i + 1)
  {}

  lemma SkipNext(bs: seq<BlockIndex>, parent: seq<Option<nat>>, kids: seq<seq<nat>>, i: nat)
    requires Joined(bs, parent, kids, i) && i < |bs| && (bs[i].prev == null || bs[i].prev !in bs)
    ensures Joined(bs, parent, kids, i + 1)
  {
    forall j | 0 <= j < |bs|
      ensures KidsJoined(parent, kids[j], j, i + 1)
    {
      assert KidsJoined(parent, kids[j], j, i);
    }
  }

  lemma TreeOk(root: BlockIndex, bs: seq<BlockIndex>, parent: seq<Option<nat>>, kids: seq<seq<nat>>, top: nat)
    requires Candidates(root, bs, top) && Joined(bs, parent, kids, |bs|)
    ensures Ok(Tree(top, Heights(bs), parent, kids))
  {
    var t := Tree(top, Heights(bs), parent, kids);
    forall i | 0 <= i < |bs| && parent[i].Some?
      ensures parent[i].value < |bs| && bs[i].height == bs[parent[i].value].height + 1
    {
      assert ParentOk(bs, i, parent[i]) && bs[i].Valid();
    }
    assert Shaped(t);
    forall j | 0 <= j < |bs|
      ensures KidsOk(t, j)
    {
      assert KidsJoined(parent, kids[j], j, |bs|);
    }
  }

  /* What the walk visits */

  // Above the root, the parents of blocks in the index are in the index.
  ghost predicate ClosedAbove(root: BlockIndex, bs: seq<BlockIndex>) {
    forall b :: b in bs && b.height > root.height + 1 ==> b.prev in bs
  }

  ghost predicate Descends(b: BlockIndex, root: BlockIndex)
    requires b.Linked()
  { root.height <= b.height && Path(b)[root.height] == root }

  lemma {:induction false} UnderIsDescends(root: BlockIndex, bs: seq<BlockIndex>, parent: seq<Option<nat>>,
                                           kids: seq<seq<nat>>, top: nat, i: nat)
    requires Candidates(root, bs, top) && Joined(bs, parent, kids, |bs|) && ClosedAbove(root, bs)
    requires i < |bs| && bs[0] == root
    ensures Ok(Tree(top, Heights(bs), parent, kids))
    ensures Under(Tree(top, Heights(bs), parent, kids), i, 0) <==> Descends(bs[i], root)
    decreases bs[i].height
  {
    TreeOk(root, bs, parent, kids, top);
    var b := bs[i];
    assert b in bs && b.Valid() && ParentOk(bs, i, parent[i]);
    if i == 0 {
    } else {
      assert b != bs[0];
      assert b.prev != null;
      if parent[i].Some? {
        UnderIsDescends(root, bs, parent, kids, top, parent[i].value);
      } else {
        assert b.prev.height == root.height && b.prev != root;
        assert root in bs;
      }
    }
  }

  // The walk from the root visits its descendants up to the height limit, each
  // once, parents first, and then stops.
  lemma WalkVisits(root: BlockIndex, bs: seq<BlockIndex>, parent: seq<Option<nat>>, kids: seq<seq<nat>>, top: nat)
    requires Candidates(root, bs, top) && Joined(bs, parent, kids, |bs|) && ClosedAbove(root, bs)
    requires bs != [] && bs[0] == root
    ensures var t := Tree(top, Heights(bs), parent, kids);
      && Ok(t) && Follows(t, Preorder(t, 0), None) && Distinct(Preorder(t, 0))
      && Grounded(t, Preorder(t, 0)[1..], 0)
      && forall i: nat :: i in Preorder(t, 0) <==> i < |bs| && bs[i].Linked() && Descends(bs[i], root)
  {
    TreeOk(root, bs, parent, kids, top);
    var t := Tree(top, Heights(bs), parent, kids);
    assert ParentOk(bs, 0, parent[0]) && root in bs;
    WalkIsPreorder(t, 0);
    ListsOnce(t, 0);
    ParentsFirst(t, 0, 0);
    assert Preorder(t, 0)[1..] == PreorderFrom(t, 0, 0);
    forall i: nat
      ensures i in Preorder(t, 0) <==> i < |bs| && bs[i].Linked() && Descends(bs[i], root)
    {
      ListsDescendants(t, 0, i);
      if i < |bs| {
        assert bs[i] in bs;
        UnderIsDescends(root, bs, parent, kids, top, i);
      }
    }
  }

  /* Freezing */

  function Max(a: int, b: int): int { if a < b then b else a }

  // The mark of a block from its own freeze and the mark of its parent.
  function FromParent(own: int, parentMark: int): int {
    if parentMark != -1 then Max(own, parentMark - 1) else own
  }

  function Own(frozen: map<BlockIndex, nat>, b: BlockIndex): int { if b in frozen then frozen[b] else -1 }

  // The mark that the parents' marks lead to.
  ghost function Mark(frozen: map<BlockIndex, nat>, b: BlockIndex): (r: int)
    requires b.Linked()
    ensures r >= -1
    decreases b.height
  { if b.prev == null then Own(frozen, b) else FromParent(Own(frozen, b), Mark(frozen, b.prev)) }

  // The most that any block up to height n still freezes at height h.
  ghost function Reach(frozen: map<BlockIndex, nat>, p: seq<BlockIndex>, n: nat, h: int): int
    requires n <= |p|
  { if n == 0 then -1 else Max(Reach(frozen, p, n - 1, h), Own(frozen, p[n - 1]) - (h - (n - 1))) }

  // The mark in closed form: the largest own freeze on the path, less the
  // distance, and never below -1.
  lemma {:induction false} MarkIsReach(frozen: map<BlockIndex, nat>, b: BlockIndex)
    requires b.Linked()
    ensures Mark(frozen, b) == Reach(frozen, Path(b), b.height + 1, b.height)
    decreases b.height
  {
    if b.prev == null {
      assert Reach(frozen, Path(b), 1, 0) == Max(Reach(frozen, Path(b), 0, 0), Own(frozen, b));
    } else {
      MarkIsReach(frozen, b.prev);
      ReachPrefix(frozen, Path(b.prev), b, b.height, b.height);
      ReachLater(frozen, Path(b.prev), b.height, b.height - 1);
    }
  }

  lemma {:induction false} ReachPrefix(frozen: map<BlockIndex, nat>, p: seq<BlockIndex>, b: BlockIndex, n: nat, h: int)
    requires n <= |p|
    ensures Reach(frozen, p + [b], n, h) == Reach(frozen, p, n, h)
  {
    if n > 0 {
      ReachPrefix(frozen, p, b, n - 1, h);
    }
  }

  // One block further every freeze reaches one block less.
  lemma {:induction false} ReachLater(frozen: map<BlockIndex, nat>, p: seq<BlockIndex>, n: nat, h: int)
    requires n <= |p|
    ensures Reach(frozen, p, n, h + 1) == Max(-1, Reach(frozen, p, n, h) - 1)
  {
    if n > 0 {
      ReachLater(frozen, p, n - 1, h);
    }
  }

  // A new freeze raises the marks of its descendants within reach, and no others.
  lemma {:induction false} NewFreeze(frozen: map<BlockIndex, nat>, a: BlockIndex, n: nat, b: BlockIndex)
    requires a.Linked() && b.Linked() && a !in frozen
    ensures Mark(frozen[a := n], b) ==
      if Descends(b, a) then Max(Mark(frozen, b), n - (b.height - a.height)) else Mark(frozen, b)
    decreases b.height
  {
    if b.prev != null {
      NewFreeze(frozen, a, n, b.prev);
      assert Path(b) == Path(b.prev) + [b];
    }
  }

  ghost predicate IndexOk(index: seq<BlockIndex>) {
    NoTwice(index) && forall b :: b in index ==> b.Valid() && (b.prev != null ==> b.prev in index)
  }

  type Marks = map<BlockIndex, int>

  // The marks are those of frozen on done, and those of was elsewhere.
  ghost predicate MarksOk(index: seq<BlockIndex>, was: map<BlockIndex, nat>, frozen: map<BlockIndex, nat>,
                          marks: Marks, done: set<BlockIndex>)
    requires IndexOk(index)
  { forall b :: b in index ==> b in marks && marks[b] == Mark(if b in done then frozen else was, b) }

  lemma MarkNext(index: seq<BlockIndex>, was: map<BlockIndex, nat>, frozen: map<BlockIndex, nat>, marks: Marks,
                 done: set<BlockIndex>, b: BlockIndex)
    requires IndexOk(index) && MarksOk(index, was, frozen, marks, done)
    requires b in index && b.prev != null && b.prev in done
    ensures b.prev in marks
    ensures MarksOk(index, was, frozen, marks[b := FromParent(Own(frozen, b), marks[b.prev])], done + {b})
  {
    assert b.Valid() && b.prev in index;
  }

  // Marks that were left alone are right exactly where the new freeze does not
  // reach further than the old mark.
  // The marks are right exactly if no block above those visited falls short.
  lemma FrozenExactly(index: seq<BlockIndex>, was: map<BlockIndex, nat>, a: BlockIndex, n: nat, before: Marks,
                      marks: Marks, done: set<BlockIndex>)
    requires IndexOk(index) && a.Linked() && a !in was && MarksOk(index, was, was, before, {})
    requires MarksOk(index, was, was[a := n], marks, done)
    requires forall b :: b in index && Descends(b, a) ==> (b in done <==> b == a || b.height <= MaxHeight(a.height, n))
    ensures MarksOk(index, was[a := n], was[a := n], marks, {}) <==>
      forall b :: b in index && Descends(b, a) && b != a && b.height > MaxHeight(a.height, n) ==>
        before[b] >= n - (b.height - a.height)
    ensures INT_MAX - n > a.height ==> MarksOk(index, was[a := n], was[a := n], marks, {})
  {
    MarkedExactly(index, was, a, n, marks, done);
    assert forall b :: b in index ==> before[b] == Mark(was, b);
  }

  lemma MarkedExactly(index: seq<BlockIndex>, was: map<BlockIndex, nat>, a: BlockIndex, n: nat, marks: Marks,
                      done: set<BlockIndex>)
    requires IndexOk(index) && a.Linked() && a !in was && MarksOk(index, was, was[a := n], marks, done)
    ensures MarksOk(index, was[a := n], was[a := n], marks, {}) <==>
      forall b :: b in index && Descends(b, a) && b !in done ==> Mark(was, b) >= n - (b.height - a.height)
  {
    forall b | b in index
      ensures b.Linked() && b in marks && marks[b] == Mark(if b in done then was[a := n] else was, b)
      ensures Mark(was[a := n], b) ==
        if Descends(b, a) then Max(Mark(was, b), n - (b.height - a.height)) else Mark(was, b)
    {
      assert b.Valid();
      NewFreeze(was, a, n, b);
    }
  }

  // How far the walk goes. The sum is meant, but a sum that is not a 32-bit
  // number is replaced by the duration alone.
  function MaxHeight(height: nat, duration: nat): nat {
    if INT_MAX - duration > height then height + duration else duration
  }

  // A freeze of 2^30 - 1 blocks at height 2^30 reaches the next block, but the
  // walk stops below it: the block keeps the mark of one that is not frozen.
  lemma FrozenTooFar(a: BlockIndex, b: BlockIndex)
    requires b.Linked() && b.prev == a && a.height == 0x4000_0000
    ensures a.Linked() && Descends(b, a) && b.height > MaxHeight(a.height, 0x3fff_ffff)
    ensures Mark(map[], b) == -1 && Mark(map[a := 0x3fff_ffff], b) == 0x3fff_fffe
  {
    PathOn(b, a.height);
    assert Path(b)[a.height] == a;
    NothingFrozen(b);
    NewFreeze(map[], a, 0x3fff_ffff, b);
  }

  lemma {:induction false} NothingFrozen(b: BlockIndex)
    requires b.Linked()
    ensures Mark(map[], b) == -1
    decreases b.height
  {
    if b.prev != null {
      NothingFrozen(b.prev);
    }
  }

  class Freezer {
    const index: seq<BlockIndex>
    var frozen: map<BlockIndex, nat>
    var cumulative: Marks

    ghost predicate Valid()
      reads this
    { IndexOk(index) && MarksOk(index, frozen, frozen, cumulative, {}) }

    // Freezes a block that is not frozen itself. All marks are then right
    // exactly when no descendant above the last height visited is within reach
    // of the freeze, and so always when that height is a 32-bit number.
    method SoftConsensusFreeze(a: BlockIndex, duration: nat)
      requires Valid() && a in index && a !in frozen
      modifies this
      ensures frozen == old(frozen)[a := duration]
      ensures Valid() <==>
        forall b :: b in index && Descends(b, a) && b != a && b.height > MaxHeight(a.height, duration) ==>
          old(cumulative)[b] >= duration - (b.height - a.height)
      ensures INT_MAX - duration > a.height ==> Valid()
    {
      ghost var was := frozen;
      NewFreeze(frozen, a, duration, a);
      frozen := frozen[a := duration];
      cumulative := cumulative[a := Max(cumulative[a], duration)];
      var tree := new BlockIndexWithDescendants(a, index, MaxHeight(a.height, duration));
      ghost var done := UpdateDescendants(a, tree, MaxHeight(a.height, duration), was);
      FrozenExactly(index, was, a, duration, old(cumulative), cumulative, done);
    }

    method UpdateDescendants(a: BlockIndex, tree: BlockIndexWithDescendants, ghost maxHeight: nat,
                             ghost was: map<BlockIndex, nat>)
      returns (ghost done: set<BlockIndex>)
      requires IndexOk(index) && a in index && MarksOk(index, was, frozen, cumulative, {a})
      requires tree.root == a && tree.Valid(if maxHeight < a.height then a.height else maxHeight)
      requires forall b :: b in tree.blocks <==> b == a || (b in index && a.height < b.height <= maxHeight)
      modifies `cumulative
      ensures MarksOk(index, was, frozen, cumulative, done)
      ensures forall b :: b in index && Descends(b, a) ==> (b in done <==> b == a || b.height <= maxHeight)
    {
      ghost var top := if maxHeight < a.height then a.height else maxHeight;
      WalkVisits(a, tree.blocks, tree.parent, tree.children, top);
      ghost var order := Preorder(tree.View(top), 0);
      done := MarkAlong(tree, top, order, was);
      AllVisited(a, index, tree.blocks, order, done, maxHeight);
    }

    // Walks on from the root and marks what it comes to.
    method MarkAlong(tree: BlockIndexWithDescendants, ghost top: nat, ghost order: seq<nat>,
                     ghost was: map<BlockIndex, nat>)
      returns (ghost done: set<BlockIndex>)
      requires tree.blocks != []
      requires Marking(index, was, frozen, cumulative, tree.blocks, tree.View(top), order, 1, {tree.blocks[0]})
      modifies `cumulative
      ensures Marking(index, was, frozen, cumulative, tree.blocks, tree.View(top), order, |order|, done)
    {
      hide Marking;
      ghost var t, k := tree.View(top), 1;
      done := {tree.blocks[0]};
      MarkingStart(index, was, frozen, cumulative, tree.blocks, t, order, done);
      var item := tree.NextItem(0, top);
      while item.Some?
        invariant 1 <= k <= |order| && item == if k < |order| then Some(order[k]) else None
        invariant Marking(index, was, frozen, cumulative, tree.blocks, t, order, k, done)
        decreases |order| - k
      {
        done := MarkOne(tree.blocks, item.value, t, order, k, was, done);
        k := k + 1;
        item := tree.NextItem(item.value, top);
      }
    }

    // The mark of one block, from its parent.
    method MarkOne(blocks: seq<BlockIndex>, i: nat, ghost t: Tree, ghost order: seq<nat>, ghost k: nat,
                   ghost was: map<BlockIndex, nat>, ghost done: set<BlockIndex>)
      returns (ghost done': set<BlockIndex>)
      requires Marking(index, was, frozen, cumulative, blocks, t, order, k, done) && 1 <= k < |order| && i == order[k]
      modifies `cumulative
      ensures Marking(index, was, frozen, cumulative, blocks, t, order, k + 1, done')
      ensures i < |blocks| == |t.height| && Next(t, i) == if k + 1 < |order| then Some(order[k + 1]) else None
    {
      MarkingNext(index, was, frozen, cumulative, blocks, t, order, k, done);
      var b := blocks[i];
      cumulative := cumulative[b := FromParent(Own(frozen, b), cumulative[b.prev])];
      done' := done + {b};
    }
  }

  // The marks are right for the first k blocks that the walk comes to.
  ghost predicate Marking(index: seq<BlockIndex>, was: map<BlockIndex, nat>, frozen: map<BlockIndex, nat>, marks: Marks,
                          bs: seq<BlockIndex>, t: Tree, order: seq<nat>, k: nat, done: set<BlockIndex>) {
    && IndexOk(index) && MarksOk(index, was, frozen, marks, done) && Walkable(t, bs, order)
    && Visited(bs, order, k, done) && (forall b :: b in bs ==> b in index) && (forall b :: b in done ==> b in bs)
  }

  lemma MarkingStart(index: seq<BlockIndex>, was: map<BlockIndex, nat>, frozen: map<BlockIndex, nat>, marks: Marks,
                     bs: seq<BlockIndex>, t: Tree, order: seq<nat>, done: set<BlockIndex>)
    requires Marking(index, was, frozen, marks, bs, t, order, 1, done)
    ensures Ok(t) && |order| >= 1 && 0 < |t.height| == |bs|
    ensures Next(t, 0) == if 1 < |order| then Some(order[1]) else None
  {
    assert FollowsAt(t, order, 0, None);
  }

  lemma MarkingNext(index: seq<BlockIndex>, was: map<BlockIndex, nat>, frozen: map<BlockIndex, nat>, marks: Marks,
                    bs: seq<BlockIndex>, t: Tree, order: seq<nat>, k: nat, done: set<BlockIndex>)
    requires Marking(index, was, frozen, marks, bs, t, order, k, done) && 1 <= k < |order|
    ensures order[k] < |bs| == |t.height| && Next(t, order[k]) == if k + 1 < |order| then Some(order[k + 1]) else None
    ensures var b := bs[order[k]];
      && b.prev != null && b.prev in marks
      && Marking(index, was, frozen, marks[b := FromParent(Own(frozen, b), marks[b.prev])], bs, t, order, k + 1,
        done + {b})
  {
    ParentDone(t, bs, order, k, done);
    MarkNext(index, was, frozen, marks, done, bs[order[k]]);
  }

  // The first k blocks in the order are in done.
  ghost predicate Visited(bs: seq<BlockIndex>, order: seq<nat>, k: nat, done: set<BlockIndex>) {
    k <= |order| && forall m :: 0 <= m < k ==> order[m] < |bs| && bs[order[m]] in done
  }

  // The walk over the tree takes this order, parents first.
  ghost predicate Walkable(t: Tree, bs: seq<BlockIndex>, order: seq<nat>) {
    && Follows(t, order, None) && order != [] && order[0] == 0 && Grounded(t, order[1..], 0) && |t.parent| == |bs|
    && forall i :: 0 <= i < |bs| ==> ParentOk(bs, i, t.parent[i])
  }

  lemma AllVisited(a: BlockIndex, index: seq<BlockIndex>, bs: seq<BlockIndex>, order: seq<nat>, done: set<BlockIndex>,
                   maxHeight: nat)
    requires IndexOk(index) && a in index
    requires forall b :: b in bs <==> b == a || (b in index && a.height < b.height <= maxHeight)
    requires forall i: nat :: i in order <==> i < |bs| && bs[i].Linked() && Descends(bs[i], a)
    requires Visited(bs, order, |order|, done) && forall b :: b in done ==> b in bs
    ensures forall b :: b in index && Descends(b, a) ==> (b in done <==> b == a || b.height <= maxHeight)
  {
    forall b | b in index && Descends(b, a)
      ensures b in done <==> b == a || b.height <= maxHeight
    {
      assert b.Valid();
      assert b.height == a.height ==> b == a;
      if b in bs {
        var i :| 0 <= i < |bs| && bs[i] == b;
        assert i in order;
      }
    }
  }

  // The next block's parent has been visited; the walk goes on in the order.
  lemma ParentDone(t: Tree, bs: seq<BlockIndex>, order: seq<nat>, k: nat, done: set<BlockIndex>)
    requires 1 <= k < |order| && Walkable(t, bs, order) && Visited(bs, order, k, done)
    ensures order[k] < |bs| && bs[order[k]].prev != null && bs[order[k]].prev in done
    ensures Visited(bs, order, k + 1, done + {bs[order[k]]})
    ensures Next(t, order[k]) == if k + 1 < |order| then Some(order[k + 1]) else None
  {
    assert FollowsAt(t, order, k, None);
    var m := ParentBefore(t, order, k);
    assert ParentOk(bs, order[k], t.parent[order[k]]);
  }

  lemma ParentBefore(t: Tree, order: seq<nat>, k: nat) returns (m: nat)
    requires 1 <= k < |order| && order[0] == 0 && Grounded(t, order[1..], 0)
    ensures m < k && order[k] < |t.parent| && t.parent[order[k]] == Some(order[m])
  {
    var rest := order[1..];
    assert rest[k - 1] == order[k];
    var p := t.parent[order[k]].value;
    if p == 0 {
      m := 0;
    } else {
      assert p in rest[..k - 1];
      var l :| 0 <= l < k - 1 && rest[..k - 1][l] == p;
      assert order[l + 1] == p;
      m := l + 1;
    }
  }

  const INT_MAX := 0x7fff_ffff
}
