/** The tree of the descendants of a block, and the walk over it that needs no
    recursion and no stack: from a block to its first child, or else to the next
    sibling of the nearest ancestor that has one. */
module Descendants {
  import opened Options

  // Items by position. The heights are at most top.
  datatype Tree = Tree(top: nat, height: seq<nat>, parent: seq<Option<nat>>, kids: seq<seq<nat>>)

  ghost predicate Shaped(t: Tree) {
    && |t.height| == |t.parent| == |t.kids|
    && (forall i :: 0 <= i < |t.height| ==> t.height[i] <= t.top)
    && (forall i :: 0 <= i < |t.parent| && t.parent[i].Some? ==>
          t.parent[i].value < |t.height| && t.height[i] == t.height[t.parent[i].value] + 1)
  }

  ghost predicate KidsOk(t: Tree, j: nat)
    requires Shaped(t) && j < |t.kids|
  {
    && (forall k :: 0 <= k < |t.kids[j]| ==> t.kids[j][k] < |t.height| && t.parent[t.kids[j][k]] == Some(j))
    && (forall k, l :: 0 <= k < l < |t.kids[j]| ==> t.kids[j][k] != t.kids[j][l])
    && (forall i :: 0 <= i < |t.parent| && t.parent[i] == Some(j) ==> i in t.kids[j])
  }

  // Parents and children say the same, and no child is listed twice.
  ghost predicate Ok(t: Tree) {
    Shaped(t) && forall j :: 0 <= j < |t.kids| ==> KidsOk(t, j)
  }

  /* The walk */

  // The position of an item among the children.
  function Find(cs: seq<nat>, c: nat): (k: nat)
    ensures k <= |cs| && (k < |cs| ==> cs[k] == c) && (k == |cs| ==> c !in cs)
  { if cs == [] then 0 else if cs[0] == c then 0 else 1 + Find(cs[1..], c) }

  // The next sibling of an item or of the nearest ancestor that has one.
  ghost function Climb(t: Tree, i: nat): Option<nat>
    requires Ok(t) && i < |t.height|
    decreases t.height[i]
  {
    if t.parent[i].None? then None
    else
      var p := t.parent[i].value;
      var k := Find(t.kids[p], i) + 1;
      if k < |t.kids[p]| then Some(t.kids[p][k]) else Climb(t, p)
  }

  ghost function Next(t: Tree, i: nat): (r: Option<nat>)
    requires Ok(t) && i < |t.height|
  { if t.kids[i] != [] then Some(t.kids[i][0]) else Climb(t, i) }

  /* The order it should have */

  // A block first, then its children with all theirs, one after the other.
  ghost function Preorder(t: Tree, j: nat): seq<nat>
    requires Ok(t) && j < |t.height|
    decreases t.top - t.height[j], 1, 0
  { [j] + PreorderFrom(t, j, 0) }

  // The children from the k-th on.
  ghost function PreorderFrom(t: Tree, j: nat, k: nat): seq<nat>
    requires Ok(t) && j < |t.height| && k <= |t.kids[j]|
    decreases t.top - t.height[j], 0, |t.kids[j]| - k
  {
    assert KidsOk(t, j);
    if k == |t.kids[j]| then [] else Preorder(t, t.kids[j][k]) + PreorderFrom(t, j, k + 1)
  }

  // Following an order with the walk; at its end the walk is at last.
  ghost predicate Follows(t: Tree, s: seq<nat>, last: Option<nat>) {
    Ok(t) && forall i :: 0 <= i < |s| ==> FollowsAt(t, s, i, last)
  }

  ghost predicate FollowsAt(t: Tree, s: seq<nat>, i: nat, last: Option<nat>)
    requires Ok(t) && i < |s|
  { s[i] < |t.height| && Next(t, s[i]) == if i + 1 < |s| then Some(s[i + 1]) else last }

  lemma FollowsAppend(t: Tree, a: seq<nat>, b: seq<nat>, last: Option<nat>)
    requires Follows(t, b, last) && b != [] && Follows(t, a, Some(b[0]))
    ensures Follows(t, a + b, last)
  {
    forall i | 0 <= i < |a + b|
      ensures FollowsAt(t, a + b, i, last)
    {
      if i < |a| {
        assert FollowsAt(t, a, i, Some(b[0]));
      } else {
        assert FollowsAt(t, b, i - |a|, last);
      }
    }
  }

  lemma {:induction false} WalkIsPreorder(t: Tree, j: nat)
    requires Ok(t) && j < |t.height|
    ensures Follows(t, Preorder(t, j), Climb(t, j))
    decreases t.top - t.height[j], 1, 0
  {
    var rest := PreorderFrom(t, j, 0);
    WalkKids(t, j, 0);
    if t.kids[j] != [] {
      assert FollowsAt(t, [j], 0, Some(rest[0]));
      FollowsAppend(t, [j], rest, Climb(t, j));
    } else {
      assert Preorder(t, j) == [j] && FollowsAt(t, [j], 0, Climb(t, j));
    }
  }

  lemma {:induction false} WalkKids(t: Tree, j: nat, k: nat)
    requires Ok(t) && j < |t.height| && k <= |t.kids[j]|
    ensures Follows(t, PreorderFrom(t, j, k), Climb(t, j))
    ensures k < |t.kids[j]| ==> PreorderFrom(t, j, k) != [] && PreorderFrom(t, j, k)[0] == t.kids[j][k]
    decreases t.top - t.height[j], 0, |t.kids[j]| - k
  {
    if k < |t.kids[j]| {
      assert KidsOk(t, j);
      var c := t.kids[j][k];
      assert Find(t.kids[j], c) == k;
      WalkIsPreorder(t, c);
      WalkKids(t, j, k + 1);
      if k + 1 < |t.kids[j]| {
        FollowsAppend(t, Preorder(t, c), PreorderFrom(t, j, k + 1), Climb(t, j));
      } else {
        assert Preorder(t, c) + PreorderFrom(t, j, k + 1) == Preorder(t, c);
      }
    }
  }

  /* What it visits */

  // i is j or a descendant of j.
  ghost predicate Under(t: Tree, i: nat, j: nat)
    requires Shaped(t) && i < |t.height|
    decreases t.height[i]
  { i == j || (t.parent[i].Some? && Under(t, t.parent[i].value, j)) }

  lemma {:induction false} UnderHeight(t: Tree, i: nat, j: nat)
    requires Shaped(t) && i < |t.height| && j < |t.height| && Under(t, i, j)
    ensures t.height[j] <= t.height[i] && (t.height[i] == t.height[j] ==> i == j)
    decreases t.height[i]
  {
    if i != j {
      UnderHeight(t, t.parent[i].value, j);
    }
  }

  // Two blocks above the same descendant, at one height, are the same.
  lemma {:induction false} OneAtHeight(t: Tree, i: nat, j: nat, k: nat)
    requires Shaped(t) && i < |t.height| && j < |t.height| && k < |t.height|
    requires Under(t, i, j) && Under(t, i, k) && t.height[j] == t.height[k]
    ensures j == k
    decreases t.height[i]
  {
    UnderHeight(t, i, j);
    UnderHeight(t, i, k);
    if i != j && i != k {
      OneAtHeight(t, t.parent[i].value, j, k);
    }
  }

  // A proper descendant comes through one of the children.
  lemma {:induction false} ThroughChild(t: Tree, i: nat, j: nat) returns (k: nat)
    requires Ok(t) && i < |t.height| && j < |t.height| && Under(t, i, j) && i != j
    ensures k < |t.kids[j]| && t.kids[j][k] < |t.height| && Under(t, i, t.kids[j][k])
    decreases t.height[i]
  {
    var p := t.parent[i].value;
    if p == j {
      assert KidsOk(t, j);
      k :| 0 <= k < |t.kids[j]| && t.kids[j][k] == i;
    } else {
      k := ThroughChild(t, p, j);
    }
  }

  lemma {:induction false} UnderStep(t: Tree, i: nat, c: nat, j: nat)
    requires Shaped(t) && i < |t.height| && c < |t.height| && j < |t.height|
    requires Under(t, i, c) && t.parent[c] == Some(j)
    ensures Under(t, i, j)
    decreases t.height[i]
  {
    if i != c {
      UnderStep(t, t.parent[i].value, c, j);
    } else {
      assert Under(t, j, j);
    }
  }

  // The order lists exactly the block and its descendants.
  lemma {:induction false} ListsDescendants(t: Tree, j: nat, i: nat)
    requires Ok(t) && j < |t.height|
    ensures i in Preorder(t, j) <==> i < |t.height| && Under(t, i, j)
    decreases t.top - t.height[j], 1, 0
  {
    ListsKids(t, j, 0, i);
    if i != j && i < |t.height| && Under(t, i, j) {
      var k := ThroughChild(t, i, j);
      assert InKids(t, j, 0, i);
    }
    if InKids(t, j, 0, i) {
      var k :| 0 <= k < |t.kids[j]| && i < |t.height| && t.kids[j][k] < |t.height| && Under(t, i, t.kids[j][k]);
      assert KidsOk(t, j);
      UnderStep(t, i, t.kids[j][k], j);
    }
  }

  ghost predicate InKids(t: Tree, j: nat, k: nat, i: nat)
    requires Ok(t) && j < |t.height|
  {
    i < |t.height| && exists l :: k <= l < |t.kids[j]| && t.kids[j][l] < |t.height| && Under(t, i, t.kids[j][l])
  }

  lemma {:induction false} ListsKids(t: Tree, j: nat, k: nat, i: nat)
    requires Ok(t) && j < |t.height| && k <= |t.kids[j]|
    ensures i in PreorderFrom(t, j, k) <==> InKids(t, j, k, i)
    decreases t.top - t.height[j], 0, |t.kids[j]| - k
  {
    if k < |t.kids[j]| {
      assert KidsOk(t, j);
      ListsDescendants(t, t.kids[j][k], i);
      ListsKids(t, j, k + 1, i);
      assert InKids(t, j, k, i) <==> (i < |t.height| && Under(t, i, t.kids[j][k])) || InKids(t, j, k + 1, i);
    }
  }

  ghost predicate Distinct(s: seq<nat>) { forall a, b :: 0 <= a < b < |s| ==> s[a] != s[b] }

  lemma DistinctAppend(a: seq<nat>, b: seq<nat>)
    requires Distinct(a) && Distinct(b) && forall x :: x in a ==> x !in b
    ensures Distinct(a + b)
  {
    forall i, j | 0 <= i < j < |a + b|
      ensures (a + b)[i] != (a + b)[j]
    {
      if i < |a| && j >= |a| {
        assert (a + b)[i] in a && (a + b)[j] in b;
      }
    }
  }

  // Nothing is listed twice.
  lemma {:induction false} ListsOnce(t: Tree, j: nat)
    requires Ok(t) && j < |t.height|
    ensures Distinct(Preorder(t, j))
    decreases t.top - t.height[j], 1, 0
  {
    ListsKidsOnce(t, j, 0);
    ListsKids(t, j, 0, j);
    if InKids(t, j, 0, j) {
      var l :| 0 <= l < |t.kids[j]| && t.kids[j][l] < |t.height| && Under(t, j, t.kids[j][l]);
      assert KidsOk(t, j);
      UnderHeight(t, j, t.kids[j][l]);
      assert false;
    }
    DistinctAppend([j], PreorderFrom(t, j, 0));
  }

  lemma {:induction false} ListsKidsOnce(t: Tree, j: nat, k: nat)
    requires Ok(t) && j < |t.height| && k <= |t.kids[j]|
    ensures Distinct(PreorderFrom(t, j, k))
    decreases t.top - t.height[j], 0, |t.kids[j]| - k
  {
    if k < |t.kids[j]| {
      assert KidsOk(t, j);
      var c := t.kids[j][k];
      ListsOnce(t, c);
      ListsKidsOnce(t, j, k + 1);
      forall x | x in Preorder(t, c)
        ensures x !in PreorderFrom(t, j, k + 1)
      {
        ListsDescendants(t, c, x);
        ListsKids(t, j, k + 1, x);
        if InKids(t, j, k + 1, x) {
          var l :| k + 1 <= l < |t.kids[j]| && t.kids[j][l] < |t.height| && Under(t, x, t.kids[j][l]);
          OneAtHeight(t, x, c, t.kids[j][l]);
          assert false;
        }
      }
      DistinctAppend(Preorder(t, c), PreorderFrom(t, j, k + 1));
    }
  }

  /* Parents come first */

  // The parent of every element is j, or is listed before it.
  ghost predicate Grounded(t: Tree, s: seq<nat>, j: nat) {
    forall b :: 0 <= b < |s| ==>
      s[b] < |t.parent| && t.parent[s[b]].Some? && (t.parent[s[b]].value == j || t.parent[s[b]].value in s[..b])
  }

  lemma GroundedAppend(t: Tree, a: seq<nat>, b: seq<nat>, j: nat)
    requires Grounded(t, a, j) && Grounded(t, b, j)
    ensures Grounded(t, a + b, j)
  {
    forall i | 0 <= i < |a + b|
      ensures var s := a + b;
        s[i] < |t.parent| && t.parent[s[i]].Some? && (t.parent[s[i]].value == j || t.parent[s[i]].value in s[..i])
    {
      if i < |a| {
        assert (a + b)[i] == a[i] && (a + b)[..i] == a[..i];
      } else {
        assert (a + b)[i] == b[i - |a|] && (a + b)[..i] == a + b[..i - |a|];
      }
    }
  }

  lemma {:induction false} ParentsFirst(t: Tree, j: nat, k: nat)
    requires Ok(t) && j < |t.height| && k <= |t.kids[j]|
    ensures Grounded(t, PreorderFrom(t, j, k), j)
    decreases t.top - t.height[j], |t.kids[j]| - k
  {
    if k < |t.kids[j]| {
      assert KidsOk(t, j);
      var c := t.kids[j][k];
      ParentsFirst(t, c, 0);
      ChildFirst(t, c, PreorderFrom(t, c, 0), j);
      ParentsFirst(t, j, k + 1);
      GroundedAppend(t, Preorder(t, c), PreorderFrom(t, j, k + 1), j);
    }
  }

  lemma ChildFirst(t: Tree, c: nat, rest: seq<nat>, j: nat)
    requires c < |t.parent| && t.parent[c] == Some(j) && Grounded(t, rest, c)
    ensures Grounded(t, [c] + rest, j)
  {
    var s := [c] + rest;
    forall i | 0 <= i < |s|
      ensures s[i] < |t.parent| && t.parent[s[i]].Some? && (t.parent[s[i]].value == j || t.parent[s[i]].value in s[..i])
    {
      if i > 0 {
        assert s[i] == rest[i - 1] && s[..i] == [c] + rest[..i - 1];
      }
    }
  }
}
