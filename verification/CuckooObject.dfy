/** The cuckoo cache as an object over three arrays that it updates in place. */
module CuckooObject {
  import opened Options
  import opened Cuckoo
  import opened CuckooProps

  class Cache<E(==, !new)> {
    const c: Config<E>
    const table: array<E>
    const collectionFlags: array<bool>
    const epochFlags: array<bool>
    var epochHeuristicCounter: nat

    constructor (c: Config<E>)
      requires Ok(c)
      ensures this.c == c && Valid() && View() == Setup(c)
      ensures fresh(table) && fresh(collectionFlags) && fresh(epochFlags)
    {
      this.c := c;
      table := new E[c.size](_ => c.blank);
      collectionFlags := new bool[c.size](_ => true);
      epochFlags := new bool[c.size](_ => false);
      epochHeuristicCounter := c.epochSize;
      new;
      assert table[..] == Setup(c).table && collectionFlags[..] == Setup(c).dead && epochFlags[..] == Setup(c).recent;
    }

    ghost predicate Valid() {
      && Ok(c) && table.Length == collectionFlags.Length == epochFlags.Length == c.size
      && collectionFlags != epochFlags
      // E might be bool as well
      && (table as object) != collectionFlags && (table as object) != epochFlags
    }

    ghost function View(): State<E>
      reads this, table, collectionFlags, epochFlags
    { State(table[..], collectionFlags[..], epochFlags[..], epochHeuristicCounter) }

    method CountRecent() returns (count: nat)
      requires Valid()
      ensures count == Recents(collectionFlags[..], epochFlags[..], c.size)
    {
      count := 0;
      for i := 0 to c.size
        invariant count == Recents(collectionFlags[..], epochFlags[..], i)
      {
        if epochFlags[i] && !collectionFlags[i] {
          count := count + 1;
        }
      }
    }

    method AgeEpoch()
      requires Valid()
      modifies collectionFlags, epochFlags
      ensures forall i :: 0 <= i < c.size ==> !epochFlags[i]
      ensures forall i :: 0 <= i < c.size ==>
        collectionFlags[i] == (old(collectionFlags[i]) || !old(epochFlags[i]))
    {
      for i := 0 to c.size
        invariant forall j :: 0 <= j < i ==> !epochFlags[j]
        invariant forall j :: 0 <= j < i ==> collectionFlags[j] == (old(collectionFlags[j]) || !old(epochFlags[j]))
        invariant forall j :: i <= j < c.size ==>
          epochFlags[j] == old(epochFlags[j]) && collectionFlags[j] == old(collectionFlags[j])
      {
        if epochFlags[i] {
          epochFlags[i] := false;
        } else {
          collectionFlags[i] := true;
        }
      }
    }

    method EpochCheck()
      requires Valid()
      modifies this, collectionFlags, epochFlags
      ensures View() == Checked(c, old(View()))
    {
      if epochHeuristicCounter != 0 {
        epochHeuristicCounter := epochHeuristicCounter - 1;
        return;
      }
      var count := CountRecent();
      if count >= c.epochSize {
        AgeEpoch();
        epochHeuristicCounter := c.epochSize;
        assert View().dead == Checked(c, old(View())).dead;
        assert View().recent == Checked(c, old(View())).recent;
      } else {
        epochHeuristicCounter := Max(1, Max(c.epochSize / 16, c.epochSize - count));
      }
    }

    method FindHolding(locs: seq<nat>, e: E) returns (r: Option<nat>)
      requires Valid() && forall j :: 0 <= j < |locs| ==> locs[j] < c.size
      ensures r == Holding(table[..], locs, e, 0)
    {
      for k := 0 to |locs|
        invariant Holding(table[..], locs, e, 0) == Holding(table[..], locs, e, k)
      {
        if table[locs[k]] == e {
          return Some(locs[k]);
        }
      }
      return None;
    }

    method FindReusable(locs: seq<nat>) returns (r: Option<nat>)
      requires Valid() && forall j :: 0 <= j < |locs| ==> locs[j] < c.size
      ensures r == Reusable(collectionFlags[..], locs, 0)
    {
      for k := 0 to |locs|
        invariant Reusable(collectionFlags[..], locs, 0) == Reusable(collectionFlags[..], locs, k)
      {
        if collectionFlags[locs[k]] {
          return Some(locs[k]);
        }
      }
      return None;
    }

    method FindIndex(locs: seq<nat>, last: Option<nat>) returns (k: nat)
      ensures k == IndexOf(locs, last, 0)
    {
      k := 0;
      while k < |locs| && last != Some(locs[k])
        invariant k <= |locs| && IndexOf(locs, last, 0) == IndexOf(locs, last, k)
      {
        k := k + 1;
      }
    }

    method PutAt(i: nat, e: E, isRecent: bool)
      requires Valid() && i < c.size
      modifies table, collectionFlags, epochFlags
      ensures View() == Put(old(View()), i, e, isRecent)
    {
      table[i] := e;
      collectionFlags[i] := false;
      epochFlags[i] := isRecent;
    }

    method Insert(newcomer: E)
      requires Valid()
      modifies this, table, collectionFlags, epochFlags
      ensures View() == Inserted(c, old(View()), newcomer).0
    {
      EpochCheck();
      var e := newcomer;
      var locs := c.locs(e);
      var at := FindHolding(locs, e);
      if at.Some? {
        PutAt(at.value, e, true);
        return;
      }
      Displace(e);
    }

    // Finds room for an element, pushing out others.
    method Displace(newcomer: E)
      requires Valid()
      modifies table, collectionFlags, epochFlags
      ensures View() == Displaced(c, old(View()), newcomer, true, None, c.depthLimit).0
    {
      var e, lastLoc, lastEpoch, depth := newcomer, None, true, 0;
      while depth < c.depthLimit
        invariant depth <= c.depthLimit
        invariant Displaced(c, old(View()), newcomer, true, None, c.depthLimit)
          == Displaced(c, View(), e, lastEpoch, lastLoc, c.depthLimit - depth)
      {
        var free := FindReusable(c.locs(e));
        if free.Some? {
          PutAt(free.value, e, lastEpoch);
          return;
        }
        var loc;
        loc, e, lastEpoch := SwapIn(e, lastEpoch, lastLoc);
        lastLoc := Some(loc);
        depth := depth + 1;
      }
    }

    // Takes a slot that is in use, and hands out what it held.
    method SwapIn(e: E, isRecent: bool, last: Option<nat>) returns (i: nat, pushed: E, epoch: bool)
      requires Valid() && Reusable(collectionFlags[..], c.locs(e), 0).None?
      modifies table, epochFlags
      ensures i == NextLoc(c.locs(e), last) && pushed == old(table[i]) && epoch == old(epochFlags[i])
      ensures View() == Put(old(View()), i, e, isRecent)
    {
      var locs := c.locs(e);
      var k := FindIndex(locs, last);
      i := locs[(1 + k) % SLOTS];
      pushed, epoch := table[i], epochFlags[i];
      table[i] := e;
      epochFlags[i] := isRecent;
      assert collectionFlags[..][i := false] == collectionFlags[..];
    }

    // Found exactly when it is anywhere in the table, once the invariant holds.
    method Contains(e: E, erase: bool) returns (r: bool)
      requires Valid()
      modifies collectionFlags
      ensures (View(), r) == Looked(c, old(View()), e, erase)
      ensures old(Inv(c, View())) && e != c.blank ==> (r <==> e in old(table[..]))
    {
      var at := FindHolding(c.locs(e), e);
      if Inv(c, View()) && e != c.blank {
        FoundExactly(c, View(), e);
      }
      if at.None? {
        return false;
      }
      if erase {
        collectionFlags[at.value] := true;
      }
      return true;
    }
  }
}
