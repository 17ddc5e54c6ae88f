/** What the cuckoo cache keeps through every run: elements are found where their
    hashes say, none sits in two slots, an insert loses at most one element, and
    the newest epoch stays bounded although it is counted only now and then. */
module CuckooProps {
  import opened Options
  import opened Cuckoo

  // The elements that the cache answers for and has not released.
  ghost function Live<E(!new)>(s: State<E>): set<E>
    requires |s.table| == |s.dead|
  { set i | 0 <= i < |s.table| && !s.dead[i] :: s.table[i] }

  // Elements sit in one of their own slots. Only released slots may still hold
  // the filling of a new table.
  ghost predicate Placed<E(!new)>(c: Config<E>, s: State<E>)
    requires Shaped(c, s)
  {
    forall i :: 0 <= i < c.size && (!s.dead[i] || s.table[i] != c.blank) ==> i in c.locs(s.table[i])
  }

  ghost predicate Distinct<E(!new)>(c: Config<E>, table: seq<E>) {
    forall i, j :: 0 <= i < j < |table| && table[i] == table[j] ==> table[i] == c.blank
  }

  ghost predicate Inv<E(!new)>(c: Config<E>, s: State<E>) {
    Shaped(c, s) && Placed(c, s) && Distinct(c, s.table)
  }

  lemma SetupInv<E(!new)>(c: Config<E>)
    ensures Inv(c, Setup(c)) && Live(Setup(c)) == {}
  {}

  /* Finding */

  // Looking into the eight slots finds an element exactly when it is anywhere
  // in the table.
  lemma FoundExactly<E(!new)>(c: Config<E>, s: State<E>, e: E)
    requires Ok(c) && Inv(c, s) && e != c.blank
    ensures Holding(s.table, c.locs(e), e, 0).Some? <==> e in s.table
  {
    if e in s.table {
      var i :| 0 <= i < |s.table| && s.table[i] == e;
      var k :| 0 <= k < |c.locs(e)| && c.locs(e)[k] == i;
      assert s.table[c.locs(e)[k]] == e;
    }
  }

  /* Displacing */

  // One slot is given to an element that is nowhere else.
  lemma PutKeeps<E(!new)>(c: Config<E>, s: State<E>, i: nat, e: E, isRecent: bool)
    requires Inv(c, s) && i < c.size && i in c.locs(e)
    requires e == c.blank || (forall j :: 0 <= j < c.size && j != i ==> s.table[j] != e)
    ensures Inv(c, Put(s, i, e, isRecent))
  {}

  lemma PutLive<E(!new)>(s: State<E>, i: nat, e: E, isRecent: bool)
    requires i < |s.table| == |s.dead| == |s.recent|
    ensures s.dead[i] || s.table[i] == e ==> Live(Put(s, i, e, isRecent)) == Live(s) + {e}
    ensures !s.dead[i] ==> Live(Put(s, i, e, isRecent)) + {s.table[i]} == Live(s) + {e}
  {
    var r := Put(s, i, e, isRecent);
    assert r.table[i] == e && !r.dead[i];
    assert forall j :: 0 <= j < |s.table| && j != i ==> r.table[j] == s.table[j] && r.dead[j] == s.dead[j];
    forall x | x in Live(s)
      ensures x in Live(r) || (!s.dead[i] && x == s.table[i])
    {
      var j :| 0 <= j < |s.table| && !s.dead[j] && s.table[j] == x;
      if j != i {
        assert r.table[j] == x && !r.dead[j];
      }
    }
  }

  // What an insert carries on with is nowhere in the table.
  ghost predicate InHand<E(!new)>(c: Config<E>, s: State<E>, e: E) {
    e == c.blank || e !in s.table
  }

  lemma {:induction false} DisplacedInv<E(!new)>(c: Config<E>, s: State<E>, e: E, isRecent: bool, last: Option<nat>,
                                                 depth: nat)
    requires Ok(c) && Inv(c, s) && InHand(c, s, e)
    ensures var (r, dropped) := Displaced(c, s, e, isRecent, last, depth);
      Inv(c, r) && (dropped.Some? ==> InHand(c, r, dropped.value))
    decreases depth
  {
    hide InHand;
    if depth > 0 {
      var free := Reusable(s.dead, c.locs(e), 0);
      if free.Some? {
        PutInHand(c, s, free.value, e, isRecent);
      } else {
        var i := NextLoc(c.locs(e), last);
        PutInHand(c, s, i, e, isRecent);
        DisplacedInv(c, Put(s, i, e, isRecent), s.table[i], s.recent[i], Some(i), depth - 1);
      }
    }
  }

  // Nothing is lost on the way but the element that is dropped in the end.
  lemma {:induction false} DisplacedLive<E(!new)>(c: Config<E>, s: State<E>, e: E, isRecent: bool, last: Option<nat>,
                                                  depth: nat)
    requires Ok(c) && Shaped(c, s)
    ensures var (r, dropped) := Displaced(c, s, e, isRecent, last, depth);
      Live(r) + Just(dropped) == Live(s) + {e}
    decreases depth
  {
    if depth > 0 {
      var free := Reusable(s.dead, c.locs(e), 0);
      var i := if free.Some? then free.value else NextLoc(c.locs(e), last);
      PutLive(s, i, e, isRecent);
      if free.None? {
        var k :| 0 <= k < SLOTS && c.locs(e)[k] == i;
        DisplacedLive(c, Put(s, i, e, isRecent), s.table[i], s.recent[i], Some(i), depth - 1);
      }
    }
  }

  function Just<E(==)>(x: Option<E>): set<E> { if x.Some? then {x.value} else {} }

  lemma PutInHand<E(!new)>(c: Config<E>, s: State<E>, i: nat, e: E, isRecent: bool)
    requires Ok(c) && Inv(c, s) && InHand(c, s, e) && i in c.locs(e)
    ensures i < c.size && Inv(c, Put(s, i, e, isRecent)) && InHand(c, Put(s, i, e, isRecent), s.table[i])
  {
    PutKeeps(c, s, i, e, isRecent);
    var r := Put(s, i, e, isRecent);
    if s.table[i] != c.blank {
      assert forall j :: 0 <= j < c.size ==> r.table[j] != s.table[i];
    }
  }

  lemma CheckedKeeps<E(!new)>(c: Config<E>, s: State<E>)
    requires Inv(c, s)
    ensures Inv(c, Checked(c, s)) && Live(Checked(c, s)) <= Live(s)
    ensures s.counter != 0 || NewestCount(c, s) < c.epochSize ==> Live(Checked(c, s)) == Live(s)
    ensures forall i :: 0 <= i < c.size && !s.dead[i] && s.recent[i] ==> s.table[i] in Live(Checked(c, s))
  {
    var t := Checked(c, s);
    forall i | 0 <= i < c.size && !s.dead[i] && s.recent[i]
      ensures s.table[i] in Live(t)
    {
      assert !t.dead[i] && t.table[i] == s.table[i];
    }
  }

  // Apart from the release of an old epoch, an insert adds the element and
  // loses at most one.
  lemma InsertConserves<E(!new)>(c: Config<E>, s: State<E>, e: E)
    requires Ok(c) && Inv(c, s)
    ensures var (r, dropped) := Inserted(c, s, e);
      && Inv(c, r)
      && Live(r) + Just(dropped) == Live(Checked(c, s)) + {e}
      && (dropped.Some? && dropped.value != c.blank ==> dropped.value !in r.table)
  {
    CheckedKeeps(c, s);
    var t := Checked(c, s);
    var at := Holding(t.table, c.locs(e), e, 0);
    if at.Some? {
      PutFound(c, t, at.value, e);
      PutLive(t, at.value, e, true);
    } else {
      if e != c.blank {
        FoundExactly(c, t, e);
      }
      DisplacedInv(c, t, e, true, None, c.depthLimit);
      DisplacedLive(c, t, e, true, None, c.depthLimit);
    }
  }

  lemma PutFound<E(!new)>(c: Config<E>, s: State<E>, i: nat, e: E)
    requires Inv(c, s) && i < c.size && i in c.locs(e) && s.table[i] == e
    ensures Inv(c, Put(s, i, e, true))
  {
    assert Put(s, i, e, true).table == s.table;
  }

  /* The newest epoch */

  lemma {:induction false} RecentsPut(dead: seq<bool>, recent: seq<bool>, n: nat, i: nat, isDead: bool, isRecent: bool)
    requires i < |dead| == |recent| && n <= |dead|
    ensures Recents(dead[i := isDead], recent[i := isRecent], n) == Recents(dead, recent, n)
      + if i >= n then 0
        else (if isRecent && !isDead then 1 else 0) - (if recent[i] && !dead[i] then 1 else 0)
  {
    if n > 0 {
      RecentsPut(dead, recent, n - 1, i, isDead, isRecent);
    }
  }

  lemma {:induction false} NoRecents(dead: seq<bool>, recent: seq<bool>, n: nat)
    requires n <= |dead| && n <= |recent| && forall i :: 0 <= i < n ==> !recent[i] || dead[i]
    ensures Recents(dead, recent, n) == 0
  {
    if n > 0 {
      NoRecents(dead, recent, n - 1);
    }
  }

  function NewestCount<E>(c: Config<E>, s: State<E>): nat
    requires Shaped(c, s)
  { Recents(s.dead, s.recent, c.size) }

  // The marks move with the elements, so displacing adds no more than the
  // element in hand brings.
  lemma {:induction false} DisplacedCount<E(!new)>(c: Config<E>, s: State<E>, e: E, isRecent: bool, last: Option<nat>,
                                                   depth: nat)
    requires Ok(c) && Shaped(c, s)
    ensures var r := Displaced(c, s, e, isRecent, last, depth).0;
      NewestCount(c, r) <= NewestCount(c, s) + (if isRecent then 1 else 0) && r.counter == s.counter
    decreases depth
  {
    if depth > 0 {
      var locs := c.locs(e);
      var free := Reusable(s.dead, locs, 0);
      if free.Some? {
        RecentsPut(s.dead, s.recent, c.size, free.value, false, isRecent);
      } else {
        var i := NextLoc(locs, last);
        RecentsPut(s.dead, s.recent, c.size, i, false, isRecent);
        DisplacedCount(c, Put(s, i, e, isRecent), s.table[i], s.recent[i], Some(i), depth - 1);
      }
    }
  }

  function Bound<E>(c: Config<E>): nat { c.epochSize + Max(1, c.epochSize / 16) }

  // The count and what is left to count down never exceed the bound together.
  ghost predicate Bounded<E(!new)>(c: Config<E>, s: State<E>)
    requires Shaped(c, s)
  { NewestCount(c, s) + s.counter <= Bound(c) }

  lemma CheckedCount<E(!new)>(c: Config<E>, s: State<E>)
    requires Ok(c) && Shaped(c, s) && Bounded(c, s)
    ensures NewestCount(c, Checked(c, s)) + Checked(c, s).counter + 1 <= Bound(c)
  {
    var t := Checked(c, s);
    if s.counter == 0 && NewestCount(c, s) >= c.epochSize {
      NoRecents(t.dead, t.recent, c.size);
    }
  }

  lemma InsertBounded<E(!new)>(c: Config<E>, s: State<E>, e: E)
    requires Ok(c) && Shaped(c, s) && Bounded(c, s)
    ensures Bounded(c, Inserted(c, s, e).0)
  {
    CheckedCount(c, s);
    var t := Checked(c, s);
    var at := Holding(t.table, c.locs(e), e, 0);
    if at.Some? {
      RecentsPut(t.dead, t.recent, c.size, at.value, false, true);
    } else {
      DisplacedCount(c, t, e, true, None, c.depthLimit);
    }
  }

  lemma LookedKeeps<E(!new)>(c: Config<E>, s: State<E>, e: E, erase: bool)
    requires Ok(c) && Inv(c, s) && Bounded(c, s)
    ensures Inv(c, Looked(c, s, e, erase).0) && Bounded(c, Looked(c, s, e, erase).0)
    ensures Live(Looked(c, s, e, erase).0) >= Live(s) - if erase then {e} else {}
  {
    var at := Holding(s.table, c.locs(e), e, 0);
    if at.Some? && erase {
      RecentsPut(s.dead, s.recent, c.size, at.value, true, s.recent[at.value]);
      assert s.recent[at.value := s.recent[at.value]] == s.recent;
      var r := Looked(c, s, e, erase).0;
      forall x | x in Live(s) && x != e
        ensures x in Live(r)
      {
        var j :| 0 <= j < |s.table| && !s.dead[j] && s.table[j] == x;
        assert r.table[j] == x && !r.dead[j];
      }
    }
  }

  /* Whole runs */

  datatype Call<E> = Insert(e: E) | Contains(e: E, erase: bool)

  ghost function Apply<E(!new)>(c: Config<E>, s: State<E>, call: Call<E>): (r: State<E>)
    requires Ok(c) && Shaped(c, s)
    ensures Shaped(c, r)
  {
    match call
    case Insert(e) => Inserted(c, s, e).0
    case Contains(e, erase) => Looked(c, s, e, erase).0
  }

  ghost function RunOf<E(!new)>(c: Config<E>, calls: seq<Call<E>>): (r: State<E>)
    requires Ok(c)
    ensures Shaped(c, r)
  {
    if calls == [] then Setup(c)
    else Apply(c, RunOf(c, calls[..|calls| - 1]), calls[|calls| - 1])
  }

  // After any calls, in any order, elements are in their slots, none is there
  // twice, and the newest epoch is not larger than the bound.
  lemma {:induction false} RunSound<E(!new)>(c: Config<E>, calls: seq<Call<E>>)
    requires Ok(c)
    ensures Inv(c, RunOf(c, calls)) && Bounded(c, RunOf(c, calls))
    ensures NewestCount(c, RunOf(c, calls)) <= c.epochSize + Max(1, c.epochSize / 16)
  {
    if calls == [] {
      SetupInv(c);
      NoRecents(Setup(c).dead, Setup(c).recent, c.size);
    } else {
      var s := RunOf(c, calls[..|calls| - 1]);
      RunSound(c, calls[..|calls| - 1]);
      match calls[|calls| - 1]
      case Insert(e) =>
        InsertConserves(c, s, e);
        InsertBounded(c, s, e);
      case Contains(e, erase) =>
        LookedKeeps(c, s, e, erase);
    }
  }
}
