/** The consistency check of the address manager, loop by loop, and what a pass
    means: apart from a null key, exactly the invariant, as far as the check
    looks. The check finds addresses with an operator that enters a missing one
    under the id 0, so it may add to mapAddr on the way. */
module AddrManCheck {
  import opened AddrMan
  import opened AddrManInv
  import opened AddrManObject
  import R = AddrManRoundTrip

  // The tables are arrays: they have no other slots.
  ghost predicate InTables(h: Hashing, s: State) {
    && (forall slot :: slot in s.newTable ==> slot.bucket < h.newBuckets && slot.pos < h.bucketSize)
    && (forall slot :: slot in s.triedTable ==> slot.bucket < h.triedBuckets && slot.pos < h.bucketSize)
  }

  // What the check does not look at: the next id, and addresses of no entry.
  ghost predicate Unseen(s: State) {
    && 0 <= s.idCount && (forall id :: id in s.info ==> 0 <= id < s.idCount)
    && (forall ip :: ip in s.addr ==> s.addr[ip] in s.info && s.info[s.addr[ip]].service.ip == ip)
  }

  /* Entries */

  predicate EntryPasses(info: map<int, Info>, addr: map<Ip, int>, random: seq<int>, id: int)
    requires id in info
  {
    var i := info[id];
    && EntryOk(i, false) && EntryTimely(i)
    && i.service.ip in addr && addr[i.service.ip] == id
    && 0 <= i.randomPos < |random| && random[i.randomPos] == id
  }

  ghost predicate AllPass(s: State) {
    forall id :: id in s.info ==> EntryPasses(s.info, s.addr, s.random, id)
  }

  ghost predicate Extends(a: map<Ip, int>, b: map<Ip, int>) {
    forall ip :: ip in a ==> ip in b && b[ip] == a[ip]
  }

  // Only mapAddr may have grown, and not if every entry has its address there.
  ghost predicate Grown(s: State, r: State) {
    && r == s.(addr := r.addr) && Extends(s.addr, r.addr)
    && ((forall id :: id in s.info ==> s.info[id].service.ip in s.addr) ==> r == s)
  }

  method CheckEntry(m: Manager, n: int) returns (err: int)
    requires n in m.info
    modifies m
    ensures Grown(old(m.View()), m.View())
    ensures err == 0 <==> EntryPasses(m.info, m.addr, m.random, n)
  {
    var i := m.info[n];
    if i.inTried {
      if i.lastSuccess == 0 { return -1; }
      if i.refCount != 0 { return -2; }
    } else {
      if i.refCount < 0 || i.refCount > NEW_BUCKETS_PER_ADDRESS { return -3; }
      if i.refCount == 0 { return -4; }
    }
    if i.service.ip !in m.addr {
      m.addr := m.addr[i.service.ip := 0];
    }
    if m.addr[i.service.ip] != n { return -5; }
    if i.randomPos < 0 || i.randomPos >= |m.random| || m.random[i.randomPos] != n { return -14; }
    if i.lastTry < 0 { return -6; }
    if i.lastSuccess < 0 { return -8; }
    return 0;
  }

  ghost predicate Collected(s: State, todo: set<int>, setTried: set<int>, mapNew: map<int, int>) {
    && todo <= s.info.Keys
    && (forall id :: id in s.info && id !in todo ==> EntryPasses(s.info, s.addr, s.random, id))
    && setTried == (set id | id in s.info && id !in todo && s.info[id].inTried)
    && mapNew == (map id | id in s.info && id !in todo && !s.info[id].inTried :: s.info[id].refCount)
  }

  lemma CollectedNext(s: State, todo: set<int>, setTried: set<int>, mapNew: map<int, int>, n: int, r: State)
    requires Collected(s, todo, setTried, mapNew) && n in todo && Grown(s, r) &&
      EntryPasses(r.info, r.addr, r.random, n)
    ensures Collected(r, todo - {n}, if r.info[n].inTried then setTried + {n} else setTried,
                      if r.info[n].inTried then mapNew else mapNew[n := r.info[n].refCount])
  {
    forall id | id in r.info && id !in todo - {n} ensures EntryPasses(r.info, r.addr, r.random, id) {
      assert id != n ==> EntryPasses(s.info, s.addr, s.random, id);
    }
  }

  lemma GrownTwice(s: State, t: State, r: State)
    requires Grown(s, t) && Grown(t, r)
    ensures Grown(s, r)
  {}

  // In any order.
  method CheckEntries(m: Manager) returns (err: int, setTried: set<int>, mapNew: map<int, int>)
    modifies m
    ensures Grown(old(m.View()), m.View())
    ensures err == 0 <==> AllPass(m.View())
    ensures err == 0 ==> Collected(m.View(), {}, setTried, mapNew)
  {
    setTried, mapNew := {}, map[];
    var todo := m.info.Keys;
    while todo != {}
      invariant Grown(old(m.View()), m.View()) && Collected(m.View(), todo, setTried, mapNew)
      decreases |todo|
    {
      var n := Choose(todo);
      ghost var before := m.View();
      err := CheckEntry(m, n);
      GrownTwice(old(m.View()), before, m.View());
      if err != 0 {
        return;
      }
      CollectedNext(before, todo, setTried, mapNew, n, m.View());
      if m.info[n].inTried {
        setTried := setTried + {n};
      } else {
        mapNew := mapNew[n := m.info[n].refCount];
      }
      todo := todo - {n};
    }
    return 0, setTried, mapNew;
  }

  /* The tried table */

  // The slot holds an entry that belongs there.
  ghost predicate TriedGood(h: Hashing, s: State, slot: Slot)
    requires h.Ok() && slot in s.triedTable
  {
    && s.triedTable[slot] in s.info && s.info[s.triedTable[slot]].inTried
    && slot == h.TriedSlot(s.key, s.info[s.triedTable[slot]].service)
  }

  // An entry has been met in its own slot.
  ghost predicate Met(h: Hashing, s: State, id: int, bucket: nat, pos: nat)
    requires h.Ok() && id in s.info
  {
    var own := h.TriedSlot(s.key, s.info[id].service);
    own in s.triedTable && s.triedTable[own] == id && R.Before(own, bucket, pos)
  }

  // The slots before (bucket, pos) are good, and the tried entries not met yet
  // are left.
  ghost predicate TriedSoFar(h: Hashing, s: State, left: set<int>, bucket: nat, pos: nat)
    requires h.Ok()
  {
    && (forall slot :: slot in s.triedTable && R.Before(slot, bucket, pos) ==> TriedGood(h, s, slot))
    && left <= TriedIds(s.info)
    && (forall id :: id in TriedIds(s.info) ==> (id in left <==> !Met(h, s, id, bucket, pos)))
  }

  lemma TriedStart(h: Hashing, s: State)
    requires h.Ok()
    ensures TriedSoFar(h, s, TriedIds(s.info), 0, 0)
  {}

  lemma TriedSkip(h: Hashing, s: State, left: set<int>, bucket: nat, pos: nat)
    requires h.Ok() && TriedSoFar(h, s, left, bucket, pos) && Slot(bucket, pos) !in s.triedTable
    ensures TriedSoFar(h, s, left, bucket, pos + 1)
  {}

  lemma TriedNext(h: Hashing, s: State, left: set<int>, bucket: nat, pos: nat)
    requires h.Ok() && TriedSoFar(h, s, left, bucket, pos) && Slot(bucket, pos) in s.triedTable
    requires TriedGood(h, s, Slot(bucket, pos))
    ensures s.triedTable[Slot(bucket, pos)] in left
    ensures TriedSoFar(h, s, left - {s.triedTable[Slot(bucket, pos)]}, bucket, pos + 1)
  {
    var id := s.triedTable[Slot(bucket, pos)];
    assert id in TriedIds(s.info) && !Met(h, s, id, bucket, pos);
  }

  lemma TriedRowEnd(h: Hashing, s: State, left: set<int>, bucket: nat)
    requires h.Ok() && InTables(h, s) && TriedSoFar(h, s, left, bucket, h.bucketSize)
    ensures TriedSoFar(h, s, left, bucket + 1, 0)
  {
    forall slot | slot in s.triedTable
      ensures R.Before(slot, bucket, h.bucketSize) <==> R.Before(slot, bucket + 1, 0)
    {}
  }

  lemma TriedEnd(h: Hashing, s: State, left: set<int>)
    requires h.Ok() && InTables(h, s) && TriedSoFar(h, s, left, h.triedBuckets, 0)
    ensures left == {} <==> TriedTableOk(h, s.key, s.info, s.triedTable)
  {
    forall slot | slot in s.triedTable ensures TriedGood(h, s, slot) {
      assert R.Before(slot, h.triedBuckets, 0);
    }
    forall id | id in s.info && s.info[id].inTried && id !in left
      ensures var slot := h.TriedSlot(s.key, s.info[id].service); slot in s.triedTable && s.triedTable[slot] == id
    {
      assert id in TriedIds(s.info);
    }
    forall id | id in left ensures !TriedTableOk(h, s.key, s.info, s.triedTable) {
      assert id in TriedIds(s.info) && !Met(h, s, id, h.triedBuckets, 0);
      var own := h.TriedSlot(s.key, s.info[id].service);
      assert own.bucket < h.triedBuckets;
      assert R.Before(own, h.triedBuckets, 0);
    }
  }

  lemma TriedBad(h: Hashing, s: State, slot: Slot)
    requires h.Ok() && slot in s.triedTable && !TriedGood(h, s, slot)
    ensures !TriedTableOk(h, s.key, s.info, s.triedTable)
  {}

  method CheckTriedSlot(m: Manager, bucket: nat, pos: nat, setTried: set<int>) returns (err: int, left: set<int>)
    requires m.h.Ok() && TriedSoFar(m.h, m.View(), setTried, bucket, pos)
    ensures err == 0 ==> TriedSoFar(m.h, m.View(), left, bucket, pos + 1)
    ensures err != 0 ==> !TriedTableOk(m.h, m.key, m.info, m.triedTable)
  {
    left := setTried;
    var slot := Slot(bucket, pos);
    if slot !in m.triedTable {
      TriedSkip(m.h, m.View(), left, bucket, pos);
      return 0, left;
    }
    var id := m.triedTable[slot];
    if TriedGood(m.h, m.View(), slot) {
      TriedNext(m.h, m.View(), setTried, bucket, pos);
    } else {
      TriedBad(m.h, m.View(), slot);
    }
    if id !in setTried { return -11, left; }
    var own := m.h.TriedSlot(m.key, m.info[id].service);
    if own.bucket != bucket { return -17, left; }
    if m.h.Position(m.key, false, bucket, m.info[id].service) != pos { return -18, left; }
    return 0, setTried - {id};
  }

  method CheckTried(m: Manager, setTried: set<int>) returns (err: int, left: set<int>)
    requires m.h.Ok() && InTables(m.h, m.View()) && setTried == TriedIds(m.info)
    ensures err == 0 && left == {} <==> TriedTableOk(m.h, m.key, m.info, m.triedTable)
  {
    left := setTried;
    TriedStart(m.h, m.View());
    for n := 0 to m.h.triedBuckets
      invariant TriedSoFar(m.h, m.View(), left, n, 0)
    {
      for i := 0 to m.h.bucketSize
        invariant TriedSoFar(m.h, m.View(), left, n, i)
      {
        err, left := CheckTriedSlot(m, n, i, left);
        if err != 0 {
          return;
        }
      }
      TriedRowEnd(m.h, m.View(), left, n);
    }
    TriedEnd(m.h, m.View(), left);
    err := 0;
  }

  /* The new table */

  ghost predicate NewGood(h: Hashing, s: State, slot: Slot)
    requires h.Ok() && slot in s.newTable
  {
    && s.newTable[slot] in s.info && !s.info[s.newTable[slot]].inTried
    && slot.pos == h.Position(s.key, true, slot.bucket, s.info[s.newTable[slot]].service)
  }

  function Rest(s: State, id: int, bucket: nat, pos: nat): int
    requires id in s.info
  { s.info[id].refCount - |R.SlotsBefore(s.newTable, id, bucket, pos)| }

  // The slots before (bucket, pos) are good, and the references not met yet are
  // left.
  ghost predicate NewSoFar(h: Hashing, s: State, left: map<int, int>, bucket: nat, pos: nat)
    requires h.Ok()
  {
    && (forall slot :: slot in s.newTable && R.Before(slot, bucket, pos) ==> NewGood(h, s, slot))
    && (forall id :: id in left ==> id in s.info && !s.info[id].inTried)
    && (forall id :: id in s.info && !s.info[id].inTried ==>
          if id in left then left[id] == Rest(s, id, bucket, pos) > 0 else Rest(s, id, bucket, pos) == 0)
  }

  ghost predicate Referenced(s: State) {
    forall id :: id in s.info ==> EntryOk(s.info[id], false)
  }

  lemma NewStart(h: Hashing, s: State, left: map<int, int>)
    requires h.Ok() && Referenced(s)
    requires left == map id | id in s.info && !s.info[id].inTried :: s.info[id].refCount
    ensures NewSoFar(h, s, left, 0, 0)
  {
    forall id | id in s.info ensures R.SlotsBefore(s.newTable, id, 0, 0) == {} {}
  }

  lemma NewSkip(h: Hashing, s: State, left: map<int, int>, bucket: nat, pos: nat)
    requires h.Ok() && NewSoFar(h, s, left, bucket, pos) && Slot(bucket, pos) !in s.newTable
    ensures NewSoFar(h, s, left, bucket, pos + 1)
  {
    forall id | id in s.info ensures Rest(s, id, bucket, pos + 1) == Rest(s, id, bucket, pos) {
      R.BeforeNext(s.newTable, id, bucket, pos);
    }
  }

  // One reference less; none left removes the entry.
  function Dropped(left: map<int, int>, id: int): map<int, int>
    requires id in left
  { if left[id] == 1 then left - {id} else left[id := left[id] - 1] }

  lemma NewNext(h: Hashing, s: State, left: map<int, int>, bucket: nat, pos: nat)
    requires h.Ok() && NewSoFar(h, s, left, bucket, pos) && Slot(bucket, pos) in s.newTable
    requires NewGood(h, s, Slot(bucket, pos)) && s.newTable[Slot(bucket, pos)] in left
    ensures NewSoFar(h, s, Dropped(left, s.newTable[Slot(bucket, pos)]), bucket, pos + 1)
  {
    var x := s.newTable[Slot(bucket, pos)];
    forall id | id in s.info
      ensures Rest(s, id, bucket, pos + 1) == Rest(s, id, bucket, pos) - if id == x then 1 else 0
    {
      R.BeforeNext(s.newTable, id, bucket, pos);
    }
  }

  lemma NewBad(h: Hashing, s: State, left: map<int, int>, bucket: nat, pos: nat)
    requires h.Ok() && NewSoFar(h, s, left, bucket, pos) && Slot(bucket, pos) in s.newTable
    requires !NewGood(h, s, Slot(bucket, pos)) || s.newTable[Slot(bucket, pos)] !in left
    ensures !NewTableOk(h, s.key, s.info, s.newTable)
  {
    if NewGood(h, s, Slot(bucket, pos)) {
      var id := s.newTable[Slot(bucket, pos)];
      R.BeforeNext(s.newTable, id, bucket, pos);
      assert Rest(s, id, bucket, pos) == 0;
    }
  }

  lemma NewRowEnd(h: Hashing, s: State, left: map<int, int>, bucket: nat)
    requires h.Ok() && InTables(h, s) && NewSoFar(h, s, left, bucket, h.bucketSize)
    ensures NewSoFar(h, s, left, bucket + 1, 0)
  {
    forall id | id in s.info ensures Rest(s, id, bucket + 1, 0) == Rest(s, id, bucket, h.bucketSize) {
      R.BeforeRowEnd(s.newTable, id, bucket, h.bucketSize);
    }
    forall slot | slot in s.newTable
      ensures R.Before(slot, bucket, h.bucketSize) <==> R.Before(slot, bucket + 1, 0)
    {}
  }

  lemma NewEnd(h: Hashing, s: State, left: map<int, int>)
    requires h.Ok() && InTables(h, s) && Referenced(s) && NewSoFar(h, s, left, h.newBuckets, 0)
    ensures left == map[] <==> NewTableOk(h, s.key, s.info, s.newTable)
  {
    forall slot | slot in s.newTable ensures NewGood(h, s, slot) {
      assert R.Before(slot, h.newBuckets, 0);
    }
    forall id | id in s.info ensures Rest(s, id, h.newBuckets, 0) == s.info[id].refCount - |SlotsOf(s.newTable, id)| {
      R.AllBefore(h, s, id);
    }
    forall id | id in s.info && s.info[id].inTried ensures s.info[id].refCount == |SlotsOf(s.newTable, id)| {
      assert EntryOk(s.info[id], false);
      assert SlotsOf(s.newTable, id) == {};
    }
    forall id | id in left ensures !NewTableOk(h, s.key, s.info, s.newTable) {
      assert Rest(s, id, h.newBuckets, 0) > 0;
    }
  }

  method CheckNewSlot(m: Manager, bucket: nat, pos: nat, mapNew: map<int, int>) returns (err: int, left: map<int, int>)
    requires m.h.Ok() && NewSoFar(m.h, m.View(), mapNew, bucket, pos)
    ensures err == 0 ==> NewSoFar(m.h, m.View(), left, bucket, pos + 1)
    ensures err != 0 ==> !NewTableOk(m.h, m.key, m.info, m.newTable)
  {
    left := mapNew;
    var slot := Slot(bucket, pos);
    if slot !in m.newTable {
      NewSkip(m.h, m.View(), left, bucket, pos);
      return 0, left;
    }
    var id := m.newTable[slot];
    if NewGood(m.h, m.View(), slot) && id in mapNew {
      NewNext(m.h, m.View(), mapNew, bucket, pos);
    } else {
      NewBad(m.h, m.View(), mapNew, bucket, pos);
    }
    if id !in mapNew { return -12, left; }
    if m.h.Position(m.key, true, bucket, m.info[id].service) != pos { return -19, left; }
    left := left[id := left[id] - 1];
    if left[id] == 0 {
      left := left - {id};
      assert left == mapNew - {id};
    }
    return 0, left;
  }

  method CheckNew(m: Manager, mapNew: map<int, int>) returns (err: int, left: map<int, int>)
    requires m.h.Ok() && InTables(m.h, m.View()) && Referenced(m.View())
    requires mapNew == map id | id in m.info && !m.info[id].inTried :: m.info[id].refCount
    ensures err == 0 && left == map[] <==> NewTableOk(m.h, m.key, m.info, m.newTable)
  {
    left := mapNew;
    NewStart(m.h, m.View(), left);
    for n := 0 to m.h.newBuckets
      invariant NewSoFar(m.h, m.View(), left, n, 0)
    {
      for i := 0 to m.h.bucketSize
        invariant NewSoFar(m.h, m.View(), left, n, i)
      {
        err, left := CheckNewSlot(m, n, i, left);
        if err != 0 {
          return;
        }
      }
      NewRowEnd(m.h, m.View(), left, n);
    }
    NewEnd(m.h, m.View(), left);
    err := 0;
  }

  /* Positions */

  function PositionsOf(info: map<int, Info>): set<int> { set id | id in info :: info[id].randomPos }

  ghost predicate Placed(info: map<int, Info>, random: seq<int>) {
    forall id :: id in info ==> 0 <= info[id].randomPos < |random| && random[info[id].randomPos] == id
  }

  lemma {:induction false} PositionsCount(info: map<int, Info>, random: seq<int>)
    requires Placed(info, random)
    ensures |PositionsOf(info)| == |info|
    decreases |info|
  {
    if info != map[] {
      var id := Pick(info.Keys);
      var rest := info - {id};
      PositionsCount(rest, random);
      forall p | p in PositionsOf(info) ensures p in PositionsOf(rest) + {info[id].randomPos} {
        var j :| j in info && info[j].randomPos == p;
        assert j != id ==> j in rest && rest[j].randomPos == p;
      }
      forall p | p in PositionsOf(rest) ensures p in PositionsOf(info) && p != info[id].randomPos {
        var j :| j in rest && rest[j].randomPos == p;
        assert j in info && random[p] == j;
      }
      assert PositionsOf(info) == PositionsOf(rest) + {info[id].randomPos};
      assert info.Keys == rest.Keys + {id};
    } else {
      assert PositionsOf(info) == {};
    }
  }

  lemma SameSize(a: set<int>, b: set<int>)
    requires a <= b && |a| == |b|
    ensures a == b
  {
    assert b == a + (b - a);
  }

  // With as many positions as entries, every position has its entry.
  lemma RandomCount(info: map<int, Info>, random: seq<int>)
    requires Placed(info, random)
    ensures RandomOk(info, random) <==> |random| == |info|
  {
    PositionsCount(info, random);
    R.IntervalSize(0, |random|);
    var all := R.Interval(0, |random|);
    assert PositionsOf(info) <= all;
    if |random| == |info| {
      SameSize(PositionsOf(info), all);
      AllTaken(info, random);
    }
    if RandomOk(info, random) {
      forall p | 0 <= p < |random| ensures p in PositionsOf(info) {
        var id := random[p];
        assert id in info.Keys && info[id].randomPos == p;
      }
      assert PositionsOf(info) == all;
    }
  }

  lemma AllTaken(info: map<int, Info>, random: seq<int>)
    requires Placed(info, random) && forall p :: 0 <= p < |random| ==> p in PositionsOf(info)
    ensures RandomOk(info, random)
  {
    forall p | 0 <= p < |random| ensures random[p] in info && info[random[p]].randomPos == p {
      assert p in PositionsOf(info);
      var id :| id in info && info[id].randomPos == p;
    }
  }

  /* The whole check */

  lemma TriedAndNew(info: map<int, Info>)
    ensures |info| == |TriedIds(info)| + |info.Keys - TriedIds(info)|
  {
    assert info.Keys == TriedIds(info) + (info.Keys - TriedIds(info));
  }

  lemma AllCollected(s: State, setTried: set<int>, mapNew: map<int, int>)
    requires AllPass(s) && Collected(s, {}, setTried, mapNew)
    ensures setTried == TriedIds(s.info)
    ensures mapNew == map id | id in s.info && !s.info[id].inTried :: s.info[id].refCount
    ensures mapNew.Keys == s.info.Keys - TriedIds(s.info)
    ensures Referenced(s) && Timely(s.info)
  {
    forall id | id in s.info ensures EntryOk(s.info[id], false) && EntryTimely(s.info[id]) {
      assert EntryPasses(s.info, s.addr, s.random, id);
    }
  }

  // What the check looks for, apart from the key.
  ghost predicate Passes(h: Hashing, s: State) {
    && h.Ok() && AllPass(s) && |s.random| == s.nTried + s.nNew
    && |TriedIds(s.info)| == s.nTried && |s.info.Keys - TriedIds(s.info)| == s.nNew
    && TriedTableOk(h, s.key, s.info, s.triedTable) && NewTableOk(h, s.key, s.info, s.newTable)
  }

  // What passes is consistent, but for what the check does not look at.
  lemma PassesMeans(h: Hashing, s: State)
    ensures Consistent(h, s) <==> Passes(h, s) && Unseen(s)
  {
    TriedAndNew(s.info);
    if AllPass(s) {
      PassIndexed(s);
      forall id | id in s.info ensures EntryOk(s.info[id], id in {}) && EntryTimely(s.info[id]) {
        assert EntryPasses(s.info, s.addr, s.random, id);
      }
    }
    if Consistent(h, s) {
      EntriesPass(h, s);
    }
  }

  lemma EntriesPass(h: Hashing, s: State)
    requires Consistent(h, s)
    ensures AllPass(s) && |s.random| == |s.info|
  {
    forall id | id in s.info ensures EntryPasses(s.info, s.addr, s.random, id) {
      assert EntryOk(s.info[id], id in {}) && EntryTimely(s.info[id]);
    }
    RandomCount(s.info, s.random);
  }

  lemma PassIndexed(s: State)
    requires AllPass(s)
    ensures Indexed(s) <==> Unseen(s) && |s.random| == |s.info|
  {
    forall id | id in s.info
      ensures s.info[id].service.ip in s.addr && s.addr[s.info[id].service.ip] == id
      ensures 0 <= s.info[id].randomPos < |s.random| && s.random[s.info[id].randomPos] == id
    {
      assert EntryPasses(s.info, s.addr, s.random, id);
    }
    RandomCount(s.info, s.random);
  }

  // Returns 0 exactly if the key is not null and the state passes, and so for a
  // consistent one. mapAddr changes only where an entry's address is missing.
  method Check(m: Manager) returns (err: int)
    requires m.h.Ok() && InTables(m.h, m.View())
    modifies m
    ensures Grown(old(m.View()), m.View())
    ensures err == 0 <==> m.key != 0 && Passes(m.h, m.View())
    ensures err == 0 && Unseen(m.View()) <==> m.key != 0 && m.Valid()
  {
    if |m.random| != m.nTried + m.nNew {
      err := -7;
    } else {
      err := CheckRest(m);
    }
    PassesMeans(m.h, m.View());
  }

  method CheckRest(m: Manager) returns (err: int)
    requires m.h.Ok() && InTables(m.h, m.View()) && |m.random| == m.nTried + m.nNew
    modifies m
    ensures Grown(old(m.View()), m.View())
    ensures err == 0 <==> m.key != 0 && Passes(m.h, m.View())
  {
    var setTried, mapNew;
    err, setTried, mapNew := CheckEntries(m);
    if err != 0 { return; }
    AllCollected(m.View(), setTried, mapNew);
    if |setTried| != m.nTried { return -9; }
    if |mapNew| != m.nNew { return -10; }
    err := CheckTables(m, setTried, mapNew);
    if err == 0 && m.key == 0 { return -16; }
  }

  method CheckTables(m: Manager, setTried: set<int>, mapNew: map<int, int>) returns (err: int)
    requires m.h.Ok() && InTables(m.h, m.View()) && Referenced(m.View()) && setTried == TriedIds(m.info)
    requires mapNew == map id | id in m.info && !m.info[id].inTried :: m.info[id].refCount
    ensures err == 0 <==>
      && TriedTableOk(m.h, m.key, m.info, m.triedTable) && NewTableOk(m.h, m.key, m.info, m.newTable)
  {
    var tried, left;
    err, tried := CheckTried(m, setTried);
    if err != 0 { return; }
    err, left := CheckNew(m, mapNew);
    if err != 0 { return; }
    if tried != {} { return -13; }
    if left != map[] { return -15; }
  }
}
