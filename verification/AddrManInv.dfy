/** The consistency check of the address manager as an invariant, and the
    lemmas that every operation keeps it. */
module AddrManInv {
  import opened AddrMan

  // mapInfo, mapAddr and vRandom describe the same set of entries.
  ghost predicate Indexed(s: State) {
    && 0 <= s.idCount && (forall id :: id in s.info ==> 0 <= id < s.idCount)
    && (forall id :: id in s.info ==> s.info[id].service.ip in s.addr && s.addr[s.info[id].service.ip] == id)
    && (forall ip :: ip in s.addr ==> s.addr[ip] in s.info && s.info[s.addr[ip]].service.ip == ip)
    && RandomOk(s.info, s.random)
  }

  ghost predicate RandomOk(info: map<int, Info>, random: seq<int>) {
    && (forall id :: id in info ==> 0 <= info[id].randomPos < |random| && random[info[id].randomPos] == id)
    && (forall p :: 0 <= p < |random| ==> random[p] in info && info[random[p]].randomPos == p)
  }

  // A tried entry has no reference in the new table; any other has between 1
  // and 8 (a loose entry, on its way between tables, may have none).
  predicate EntryOk(i: Info, loose: bool) {
    if i.inTried then i.refCount == 0
    else i.refCount <= NEW_BUCKETS_PER_ADDRESS && (loose || i.refCount >= 1)
  }

  ghost predicate Entries(info: map<int, Info>, loose: set<int>) {
    forall id :: id in info ==> EntryOk(info[id], id in loose)
  }

  // Every slot of the new table holds an entry that belongs there, and the
  // reference counts are exact.
  ghost predicate NewTableOk(h: Hashing, key: nat, info: map<int, Info>, newTable: map<Slot, int>)
    requires h.Ok()
  {
    && (forall slot :: slot in newTable ==>
          && newTable[slot] in info && !info[newTable[slot]].inTried
          && slot.bucket < h.newBuckets
          && slot.pos == h.Position(key, true, slot.bucket, info[newTable[slot]].service))
    && (forall id :: id in info ==> info[id].refCount == |SlotsOf(newTable, id)|)
  }

  // Every tried entry sits in its own slot of the tried table and nothing else does.
  ghost predicate TriedTableOk(h: Hashing, key: nat, info: map<int, Info>, triedTable: map<Slot, int>)
    requires h.Ok()
  {
    && (forall slot :: slot in triedTable ==>
          && triedTable[slot] in info && info[triedTable[slot]].inTried
          && slot == h.TriedSlot(key, info[triedTable[slot]].service))
    && (forall id :: id in info && info[id].inTried ==>
          var slot := h.TriedSlot(key, info[id].service); slot in triedTable && triedTable[slot] == id)
  }

  function TriedIds(info: map<int, Info>): set<int> { set id | id in info && info[id].inTried }

  // nTried is exact, nNew falls short of the untried entries by k.
  ghost predicate Counted(info: map<int, Info>, nTried: int, nNew: int, k: int) {
    && nTried == |TriedIds(info)|
    && nNew + k == |info.Keys - TriedIds(info)|
  }

  ghost predicate Inv(h: Hashing, s: State, loose: set<int>, k: int) {
    && h.Ok()
    && Indexed(s)
    && Entries(s.info, loose)
    && NewTableOk(h, s.key, s.info, s.newTable)
    && TriedTableOk(h, s.key, s.info, s.triedTable)
    && Counted(s.info, s.nTried, s.nNew, k)
  }

  // The five structures agree.
  ghost predicate Sound(h: Hashing, s: State) { Inv(h, s, {}, 0) }

  // A tried entry has been reached.
  predicate EntryTimely(i: Info) {
    i.lastTry >= 0 && i.lastSuccess >= 0 && (i.inTried ==> i.lastSuccess != 0)
  }

  predicate Timely(info: map<int, Info>) { forall id :: id in info ==> EntryTimely(info[id]) }

  // What Check_ looks for, and that nothing else is in mapAddr.
  ghost predicate Consistent(h: Hashing, s: State) { Sound(h, s) && Timely(s.info) }

  lemma Pick<T>(ids: set<T>) returns (id: T)
    requires ids != {}
    ensures id in ids
  {
    id :| id in ids;
  }

  // ------------------------------------------------- changing one entry

  // r differs from s in entry id (and perhaps in the tables and counters).
  ghost predicate OneEntry(s: State, r: State, id: int) {
    && id in s.info && id in r.info && r.info == s.info[id := r.info[id]]
    && r.info[id].service == s.info[id].service && r.info[id].randomPos == s.info[id].randomPos
    && r.addr == s.addr && r.random == s.random && r.idCount == s.idCount && r.key == s.key
  }

  lemma IndexedKept(s: State, r: State, id: int)
    requires Indexed(s) && OneEntry(s, r, id)
    ensures Indexed(r)
  {}

  lemma EntriesKept(s: State, r: State, id: int, loose: set<int>, loose': set<int>)
    requires Entries(s.info, loose) && OneEntry(s, r, id)
    requires loose - {id} <= loose' && EntryOk(r.info[id], id in loose')
    ensures Entries(r.info, loose')
  {}

  lemma TriedKept(h: Hashing, s: State, r: State, id: int)
    requires h.Ok() && TriedTableOk(h, s.key, s.info, s.triedTable) && OneEntry(s, r, id)
    requires r.info[id].inTried == s.info[id].inTried && r.triedTable == s.triedTable
    ensures TriedTableOk(h, r.key, r.info, r.triedTable)
  {}

  lemma NewKept(h: Hashing, s: State, r: State, id: int)
    requires h.Ok() && NewTableOk(h, s.key, s.info, s.newTable) && OneEntry(s, r, id)
    requires r.info[id].refCount == s.info[id].refCount && r.newTable == s.newTable
    requires r.info[id].inTried ==> SlotsOf(s.newTable, id) == {}
    ensures NewTableOk(h, r.key, r.info, r.newTable)
  {
    forall slot | slot in r.newTable ensures !r.info[r.newTable[slot]].inTried {
      assert slot in SlotsOf(s.newTable, id) <==> s.newTable[slot] == id;
    }
  }

  lemma CountedKept(s: State, r: State, id: int, k: int, k': int)
    requires Counted(s.info, s.nTried, s.nNew, k) && OneEntry(s, r, id)
    requires r.nTried - s.nTried == (if r.info[id].inTried then 1 else 0) - (if s.info[id].inTried then 1 else 0)
    requires (r.nNew + k') - (s.nNew + k) == s.nTried - r.nTried
    ensures Counted(r.info, r.nTried, r.nNew, k')
  {
    TriedPut(s.info, id, r.info[id]);
    PutCard(s.info.Keys, TriedIds(s.info), id, r.info[id].inTried);
  }

  lemma TriedPut(info: map<int, Info>, id: int, e: Info)
    ensures TriedIds(info[id := e]) == if e.inTried then TriedIds(info) + {id} else TriedIds(info) - {id}
    ensures info[id := e].Keys == info.Keys + {id}
  {}

  lemma PutCard(keys: set<int>, t: set<int>, id: int, tried: bool)
    requires t <= keys && id in keys
    ensures keys + {id} == keys
    ensures var t' := if tried then t + {id} else t - {id};
      var d := (if tried then 1 else 0) - (if id in t then 1 else 0);
      |t'| == |t| + d && |keys - t'| == |keys - t| - d
  {
    if tried {
      CardAdd(keys, t, id);
    } else {
      CardRemove(keys, t, id);
    }
  }

  lemma CardAdd(keys: set<int>, t: set<int>, id: int)
    requires t <= keys && id in keys
    ensures |t + {id}| == |t| + (if id in t then 0 else 1)
    ensures |keys - (t + {id})| == |keys - t| - (if id in t then 0 else 1)
  {
    if id in t {
      assert t + {id} == t;
    } else {
      assert keys - (t + {id}) == (keys - t) - {id};
    }
  }

  lemma CardRemove(keys: set<int>, t: set<int>, id: int)
    requires t <= keys && id in keys
    ensures |t - {id}| == |t| - (if id in t then 1 else 0)
    ensures |keys - (t - {id})| == |keys - t| + (if id in t then 1 else 0)
  {
    if id !in t {
      assert t - {id} == t;
    } else {
      assert keys - (t - {id}) == (keys - t) + {id};
    }
  }

  lemma CardNew(keys: set<int>, t: set<int>, id: int)
    requires t <= keys && id !in keys
    ensures |(keys + {id}) - t| == |keys - t| + 1
  {
    assert (keys + {id}) - t == (keys - t) + {id};
  }

  // -------------------------------------------------------- slots of an entry

  lemma SlotsWithout(newTable: map<Slot, int>, slot: Slot, id: int)
    requires slot in newTable
    ensures |SlotsOf(newTable - {slot}, id)| == |SlotsOf(newTable, id)| - (if newTable[slot] == id then 1 else 0)
  {
    assert SlotsOf(newTable - {slot}, id) == SlotsOf(newTable, id) - {slot};
    if newTable[slot] == id { assert slot in SlotsOf(newTable, id); }
  }

  lemma SlotsWith(newTable: map<Slot, int>, slot: Slot, x: int, id: int)
    requires slot !in newTable
    ensures |SlotsOf(newTable[slot := x], id)| == |SlotsOf(newTable, id)| + (if x == id then 1 else 0)
  {
    if x == id {
      assert SlotsOf(newTable[slot := x], id) == SlotsOf(newTable, id) + {slot};
    } else {
      assert SlotsOf(newTable[slot := x], id) == SlotsOf(newTable, id);
    }
  }

  // ------------------------------------------------------- dropping a reference

  lemma UnrefTable(h: Hashing, s: State, slot: Slot)
    requires h.Ok() && NewTableOk(h, s.key, s.info, s.newTable) && slot in s.newTable
    ensures var r := Unref(s, slot); NewTableOk(h, r.key, r.info, r.newTable)
    ensures s.info[s.newTable[slot]].refCount >= 1
  {
    var r := Unref(s, slot);
    assert slot in SlotsOf(s.newTable, s.newTable[slot]);
    forall id | id in r.info ensures r.info[id].refCount == |SlotsOf(r.newTable, id)| {
      SlotsWithout(s.newTable, slot, id);
    }
  }

  lemma UnrefInv(h: Hashing, s: State, slot: Slot, loose: set<int>, k: int)
    requires Inv(h, s, loose, k) && slot in s.newTable
    ensures s.newTable[slot] in s.info && s.info[s.newTable[slot]].refCount >= 1
    ensures Inv(h, Unref(s, slot), loose + {s.newTable[slot]}, k)
  {
    var r, id := Unref(s, slot), s.newTable[slot];
    UnrefTable(h, s, slot);
    assert EntryOk(s.info[id], id in loose);
    IndexedKept(s, r, id);
    EntriesKept(s, r, id, loose, loose + {id});
    TriedKept(h, s, r, id);
    CountedKept(s, r, id, k, k);
  }

  // ------------------------------------------------------- deleting an entry

  lemma SwapRandomOk(s: State, p1: int, p2: int)
    requires RandomOk(s.info, s.random) && 0 <= p1 < |s.random| && 0 <= p2 < |s.random|
    ensures CanSwap(s, p1, p2)
    ensures RandomOk(SwapRandom(s, p1, p2).info, SwapRandom(s, p1, p2).random)
  {}

  // Swapping changes nothing but positions.
  lemma SwapRandomSame(s: State, p1: int, p2: int)
    requires RandomOk(s.info, s.random) && CanSwap(s, p1, p2)
    ensures var r := SwapRandom(s, p1, p2);
      && r == s.(info := r.info, random := r.random) && |r.random| == |s.random|
      && r.info.Keys == s.info.Keys && SameButPosition(s.info, r.info)
  {}

  ghost predicate SameButPosition(a: map<int, Info>, b: map<int, Info>) {
    forall id :: id in a && id in b ==> b[id] == a[id].(randomPos := b[id].randomPos)
  }

  lemma DeleteRandom(s: State, id: int)
    requires RandomOk(s.info, s.random) && id in s.info && !s.info[id].inTried && s.info[id].refCount == 0
    ensures CanDelete(s, id)
    ensures RandomOk(Delete(s, id).info, Delete(s, id).random)
  {
    var p := s.info[id].randomPos;
    assert 0 <= p < |s.random| && s.random[p] == id;
    SwapRandomOk(s, p, |s.random| - 1);
    SwappedLast(s, p, |s.random| - 1);
    DeletedRandom(s, id, SwapRandom(s, p, |s.random| - 1));
  }

  lemma DeletedRandom(s: State, id: int, r: State)
    requires CanDelete(s, id) && r == SwapRandom(s, s.info[id].randomPos, |s.random| - 1)
    requires RandomOk(r.info, r.random) && r.random != [] && r.random[|r.random| - 1] == id
    ensures RandomOk(Delete(s, id).info, Delete(s, id).random)
  {
    LastRemoved(r.info, r.random, id);
  }

  lemma SwappedLast(s: State, p1: int, p2: int)
    requires CanSwap(s, p1, p2) && 0 <= p1 < |s.random| && 0 <= p2 < |s.random|
    ensures var r := SwapRandom(s, p1, p2); |r.random| == |s.random| && r.random[p2] == s.random[p1]
  {}

  lemma LastRemoved(info: map<int, Info>, random: seq<int>, id: int)
    requires RandomOk(info, random) && random != [] && random[|random| - 1] == id
    ensures RandomOk(info - {id}, random[..|random| - 1])
  {}

  lemma DeleteSame(s: State, id: int)
    requires RandomOk(s.info, s.random) && CanDelete(s, id)
    ensures var r := Delete(s, id);
      && r == s.(info := r.info, random := r.random, addr := s.addr - {s.info[id].service.ip}, nNew := s.nNew - 1)
      && r.info.Keys == s.info.Keys - {id} && SameButPosition(s.info, r.info)
  {
    SwapRandomSame(s, s.info[id].randomPos, |s.random| - 1);
  }

  // What the rest of the invariant needs to know about a deletion.
  ghost predicate Removed(s: State, r: State, id: int) {
    && id in s.info && r.info.Keys == s.info.Keys - {id} && SameButPosition(s.info, r.info)
    && r.newTable == s.newTable && r.triedTable == s.triedTable && r.key == s.key && r.idCount == s.idCount
    && r.addr == s.addr - {s.info[id].service.ip} && r.nTried == s.nTried && r.nNew == s.nNew - 1
  }

  lemma RemovedIndexed(s: State, r: State, id: int)
    requires Indexed(s) && Removed(s, r, id) && RandomOk(r.info, r.random)
    ensures Indexed(r)
  {
    forall x | x in r.info ensures r.info[x].service.ip in r.addr && r.addr[r.info[x].service.ip] == x {
      assert r.info[x].service == s.info[x].service;
      assert s.addr[s.info[x].service.ip] == x;
    }
    forall ip | ip in r.addr ensures r.addr[ip] in r.info && r.info[r.addr[ip]].service.ip == ip {
      assert s.info[s.addr[ip]].service.ip == ip;
    }
  }

  lemma RemovedEntries(s: State, r: State, id: int, loose: set<int>)
    requires Entries(s.info, loose) && Removed(s, r, id)
    ensures Entries(r.info, loose - {id})
  {
    forall x | x in r.info ensures EntryOk(r.info[x], x in loose - {id}) {
      assert EntryOk(s.info[x], x in loose);
    }
  }

  lemma RemovedNew(h: Hashing, s: State, r: State, id: int)
    requires h.Ok() && NewTableOk(h, s.key, s.info, s.newTable) && Removed(s, r, id) && s.info[id].refCount == 0
    ensures NewTableOk(h, r.key, r.info, r.newTable)
  {
    assert |SlotsOf(s.newTable, id)| == 0;
    forall slot | slot in s.newTable ensures s.newTable[slot] != id {
      assert slot !in SlotsOf(s.newTable, id);
    }
  }

  lemma RemovedTried(h: Hashing, s: State, r: State, id: int)
    requires h.Ok() && TriedTableOk(h, s.key, s.info, s.triedTable) && Removed(s, r, id) && !s.info[id].inTried
    ensures TriedTableOk(h, r.key, r.info, r.triedTable)
  {
    forall slot | slot in r.triedTable
      ensures
        && r.triedTable[slot] in r.info && r.info[r.triedTable[slot]].inTried
        && slot == h.TriedSlot(r.key, r.info[r.triedTable[slot]].service)
    {
      var x := s.triedTable[slot];
      assert s.info[x].inTried && x in r.info;
      assert r.info[x] == s.info[x].(randomPos := r.info[x].randomPos);
    }
  }

  lemma RemovedTriedIds(s: State, r: State, id: int)
    requires Removed(s, r, id) && !s.info[id].inTried
    ensures TriedIds(r.info) == TriedIds(s.info)
  {
    forall x ensures x in TriedIds(r.info) <==> x in TriedIds(s.info) {}
  }

  lemma RemovedCounted(s: State, r: State, id: int, k: int)
    requires Counted(s.info, s.nTried, s.nNew, k) && Removed(s, r, id) && !s.info[id].inTried
    ensures Counted(r.info, r.nTried, r.nNew, k)
  {
    RemovedTriedIds(s, r, id);
    var t := TriedIds(s.info);
    assert id in s.info.Keys - t;
    assert r.info.Keys - t == (s.info.Keys - t) - {id};
  }

  lemma DeleteInv(h: Hashing, s: State, id: int, loose: set<int>, k: int)
    requires Inv(h, s, loose, k) && id in s.info && !s.info[id].inTried && s.info[id].refCount == 0
    ensures CanDelete(s, id)
    ensures Inv(h, Delete(s, id), loose - {id}, k)
  {
    DeleteRandom(s, id);
    DeleteSame(s, id);
    var r := Delete(s, id);
    RemovedIndexed(s, r, id);
    RemovedEntries(s, r, id, loose);
    RemovedNew(h, s, r, id);
    RemovedTried(h, s, r, id);
    RemovedCounted(s, r, id, k);
  }

  lemma EntriesMono(info: map<int, Info>, loose: set<int>, loose': set<int>)
    requires Entries(info, loose) && forall id :: id in info && id in loose && id !in loose' ==> info[id].refCount >= 1
    ensures Entries(info, loose')
  {
    forall id | id in info ensures EntryOk(info[id], id in loose') {
      assert EntryOk(info[id], id in loose);
    }
  }

  // Clearing a slot keeps the invariant, whether or not it deletes the entry.
  lemma ClearNewInv(h: Hashing, s: State, slot: Slot, loose: set<int>, k: int)
    requires Inv(h, s, loose, k)
    ensures CanClear(s, slot)
    ensures Inv(h, ClearNew(s, slot), loose, k)
  {
    if slot in s.newTable {
      var id := s.newTable[slot];
      UnrefInv(h, s, slot, loose, k);
      var r := Unref(s, slot);
      if r.info[id].refCount == 0 {
        DeleteInv(h, r, id, loose + {id}, k);
        EntriesMono(Delete(r, id).info, (loose + {id}) - {id}, loose);
      } else {
        assert EntryOk(s.info[id], id in loose);
        EntriesMono(r.info, loose + {id}, loose);
      }
    }
  }

  // ... and leaves every other entry as it was, apart from its position in vRandom.
  lemma LastFrame(s: State, slot: Slot)
    requires slot in s.newTable && s.newTable[slot] in s.info && RandomOk(s.info, s.random)
    requires CanDelete(Unref(s, slot), s.newTable[slot])
    ensures var r := Delete(Unref(s, slot), s.newTable[slot]);
      && r.newTable == s.newTable - {slot} && r.triedTable == s.triedTable && r.key == s.key
      && r.nTried == s.nTried && r.lastGood == s.lastGood && r.idCount == s.idCount
      && forall id :: id in s.info && s.newTable[slot] != id ==>
           id in r.info && r.info[id] == s.info[id].(randomPos := r.info[id].randomPos)
  {
    DeleteFrame(Unref(s, slot), s.newTable[slot]);
  }

  lemma ClearNewFrame(h: Hashing, s: State, slot: Slot, loose: set<int>, k: int)
    requires Inv(h, s, loose, k) && CanClear(s, slot)
    ensures var r := ClearNew(s, slot);
      && r.newTable == s.newTable - {slot} && r.triedTable == s.triedTable && r.key == s.key
      && r.nTried == s.nTried && r.lastGood == s.lastGood && r.idCount == s.idCount
      && forall id :: id in s.info && (slot in s.newTable ==> s.newTable[slot] != id) ==>
           id in r.info && r.info[id] == s.info[id].(randomPos := r.info[id].randomPos)
  {
    if slot in s.newTable {
      if s.info[s.newTable[slot]].refCount == 1 {
        LastFrame(s, slot);
      }
    } else {
      assert s.newTable - {slot} == s.newTable;
    }
  }

  lemma DeleteFrame(s: State, id: int)
    requires RandomOk(s.info, s.random) && CanDelete(s, id)
    ensures var r := Delete(s, id);
      && r.newTable == s.newTable && r.triedTable == s.triedTable && r.key == s.key
      && r.nTried == s.nTried && r.lastGood == s.lastGood && r.idCount == s.idCount
      && forall x :: x in s.info && x != id ==> x in r.info && r.info[x] == s.info[x].(randomPos := r.info[x].randomPos)
  {
    DeleteSame(s, id);
  }

  // ------------------------------------------------ moving between the tables

  lemma WithdrawTable(h: Hashing, s: State, id: int)
    requires h.Ok() && NewTableOk(h, s.key, s.info, s.newTable) && id in s.info
    ensures var r := Withdraw(s, id); NewTableOk(h, r.key, r.info, r.newTable) && r.info[id].refCount == 0
  {
    var r := Withdraw(s, id);
    forall x | x in r.info ensures r.info[x].refCount == |SlotsOf(r.newTable, x)| {
      if x == id {
        assert SlotsOf(r.newTable, x) == {};
      } else {
        assert SlotsOf(r.newTable, x) == SlotsOf(s.newTable, x);
      }
    }
  }

  lemma WithdrawInv(h: Hashing, s: State, id: int)
    requires Sound(h, s) && id in s.info && !s.info[id].inTried
    ensures Inv(h, Withdraw(s, id), {id}, 1) && Withdraw(s, id).info[id].refCount == 0
  {
    var r := Withdraw(s, id);
    WithdrawTable(h, s, id);
    assert EntryOk(s.info[id], id in {});
    IndexedKept(s, r, id);
    EntriesKept(s, r, id, {}, {id});
    TriedKept(h, s, r, id);
    CountedKept(s, r, id, 0, 1);
  }

  lemma EvictTried(h: Hashing, s: State, slot: Slot)
    requires h.Ok() && TriedTableOk(h, s.key, s.info, s.triedTable) && slot in s.triedTable
    ensures var r := Evict(s, slot); TriedTableOk(h, r.key, r.info, r.triedTable)
  {}

  lemma EvictNew(h: Hashing, s: State, slot: Slot)
    requires h.Ok() && NewTableOk(h, s.key, s.info, s.newTable) && slot in s.triedTable && s.triedTable[slot] in s.info
    ensures var r := Evict(s, slot); NewTableOk(h, r.key, r.info, r.newTable)
  {}

  lemma EvictInv(h: Hashing, s: State, slot: Slot, loose: set<int>, k: int)
    requires Inv(h, s, loose, k) && slot in s.triedTable
    ensures s.triedTable[slot] in s.info && Inv(h, Evict(s, slot), loose + {s.triedTable[slot]}, k + 1)
    ensures Evict(s, slot).info[s.triedTable[slot]].refCount == 0
  {
    var id := s.triedTable[slot];
    assert EntryOk(s.info[id], id in loose);
    var r := Evict(s, slot);
    EvictTried(h, s, slot);
    EvictNew(h, s, slot);
    IndexedKept(s, r, id);
    EntriesKept(s, r, id, loose, loose + {id});
    CountedKept(s, r, id, k, k + 1);
  }

  // An entry gains a reference.
  function Refer(s: State, id: int, slot: Slot): State
    requires id in s.info
  {
    s.(info := s.info[id := s.info[id].(refCount := s.info[id].refCount + 1)], newTable := s.newTable[slot := id])
  }

  ghost predicate Fits(h: Hashing, s: State, id: int, slot: Slot)
    requires h.Ok() && id in s.info
  {
    slot.bucket < h.newBuckets && slot.pos == h.Position(s.key, true, slot.bucket, s.info[id].service)
  }

  lemma ReferTable(h: Hashing, s: State, id: int, slot: Slot)
    requires h.Ok() && NewTableOk(h, s.key, s.info, s.newTable) && id in s.info && !s.info[id].inTried
    requires slot !in s.newTable && Fits(h, s, id, slot)
    ensures var r := Refer(s, id, slot); NewTableOk(h, r.key, r.info, r.newTable)
  {
    var r := Refer(s, id, slot);
    forall x | x in r.info ensures r.info[x].refCount == |SlotsOf(r.newTable, x)| {
      SlotsWith(s.newTable, slot, id, x);
    }
  }

  lemma ReferInv(h: Hashing, s: State, id: int, slot: Slot, loose: set<int>, k: int)
    requires Inv(h, s, loose, k) && id in s.info && !s.info[id].inTried
    requires s.info[id].refCount < NEW_BUCKETS_PER_ADDRESS && slot !in s.newTable && Fits(h, s, id, slot)
    ensures Inv(h, Refer(s, id, slot), loose - {id}, k)
  {
    var r := Refer(s, id, slot);
    ReferTable(h, s, id, slot);
    assert EntryOk(s.info[id], id in loose);
    assert s.info[id].refCount == |SlotsOf(s.newTable, id)|;
    IndexedKept(s, r, id);
    EntriesKept(s, r, id, loose, loose - {id});
    TriedKept(h, s, r, id);
    CountedKept(s, r, id, k, k);
  }

  lemma CountShift(h: Hashing, s: State, loose: set<int>, k: int)
    requires Inv(h, s, loose, k)
    ensures Inv(h, s.(nNew := s.nNew + 1), loose, k - 1)
  {}

  lemma ReadmitIsRefer(s: State, id: int, slot: Slot)
    requires id in s.info && s.info[id].refCount == 0
    ensures Readmit(s, id, slot) == Refer(s, id, slot).(nNew := s.nNew + 1)
  {}

  lemma ReadmitInv(h: Hashing, s: State, id: int, slot: Slot, loose: set<int>, k: int)
    requires Inv(h, s, loose, k) && id in s.info && !s.info[id].inTried && s.info[id].refCount == 0
    requires slot !in s.newTable && Fits(h, s, id, slot)
    ensures Inv(h, Readmit(s, id, slot), loose - {id}, k - 1)
  {
    ReferInv(h, s, id, slot, loose, k);
    CountShift(h, Refer(s, id, slot), loose - {id}, k);
    ReadmitIsRefer(s, id, slot);
  }

  lemma PromoteTried(h: Hashing, s: State, id: int, slot: Slot)
    requires h.Ok() && TriedTableOk(h, s.key, s.info, s.triedTable) && id in s.info && !s.info[id].inTried
    requires slot !in s.triedTable && slot == h.TriedSlot(s.key, s.info[id].service)
    ensures var r := Promote(s, id, slot); TriedTableOk(h, r.key, r.info, r.triedTable)
  {}

  lemma PromoteInv(h: Hashing, s: State, id: int, slot: Slot, loose: set<int>, k: int)
    requires Inv(h, s, loose, k) && id in s.info && !s.info[id].inTried && s.info[id].refCount == 0
    requires slot !in s.triedTable && slot == h.TriedSlot(s.key, s.info[id].service)
    ensures Inv(h, Promote(s, id, slot), loose - {id}, k - 1)
  {
    var r := Promote(s, id, slot);
    assert EntryOk(s.info[id], id in loose);
    assert |SlotsOf(s.newTable, id)| == 0;
    PromoteTried(h, s, id, slot);
    NewKept(h, s, r, id);
    IndexedKept(s, r, id);
    EntriesKept(s, r, id, loose, loose - {id});
    CountedKept(s, r, id, k, k - 1);
  }

  // Statistics may change freely.
  lemma TouchInv(h: Hashing, s: State, r: State, id: int, loose: set<int>, k: int)
    requires Inv(h, s, loose, k) && OneEntry(s, r, id)
    requires r == s.(info := r.info, lastGood := r.lastGood)
    requires r.info[id].refCount == s.info[id].refCount && r.info[id].inTried == s.info[id].inTried
    ensures Inv(h, r, loose, k)
  {
    assert EntryOk(s.info[id], id in loose);
    if s.info[id].inTried { TriedHasNoSlots(h, s, id, loose); }
    NewKept(h, s, r, id);
    TriedKept(h, s, r, id);
    IndexedKept(s, r, id);
    EntriesKept(s, r, id, loose, loose);
    CountedKept(s, r, id, k, k);
  }

  lemma TriedHasNoSlots(h: Hashing, s: State, id: int, loose: set<int>)
    requires h.Ok() && NewTableOk(h, s.key, s.info, s.newTable) && Entries(s.info, loose) && id in s.info &&
      s.info[id].inTried
    ensures SlotsOf(s.newTable, id) == {}
  {
    assert EntryOk(s.info[id], id in loose);
  }

  // ------------------------------------------------------- creating an entry

  lemma CreateIndexed(s: State, a: Address, source: Ip)
    requires Indexed(s) && a.service.ip !in s.addr
    ensures Indexed(Create(s, a, source))
  {}

  lemma CreateNew(h: Hashing, s: State, a: Address, source: Ip)
    requires h.Ok() && NewTableOk(h, s.key, s.info, s.newTable) && s.idCount !in s.info
    ensures var r := Create(s, a, source); NewTableOk(h, r.key, r.info, r.newTable)
  {
    var r := Create(s, a, source);
    assert SlotsOf(s.newTable, s.idCount) == {};
  }

  lemma CreateTried(h: Hashing, s: State, a: Address, source: Ip)
    requires h.Ok() && TriedTableOk(h, s.key, s.info, s.triedTable) && s.idCount !in s.info
    ensures var r := Create(s, a, source); TriedTableOk(h, r.key, r.info, r.triedTable)
  {}

  lemma CreateCounted(s: State, a: Address, source: Ip, k: int)
    requires Counted(s.info, s.nTried, s.nNew, k) && s.idCount !in s.info
    ensures var r := Create(s, a, source); Counted(r.info, r.nTried, r.nNew, k + 1)
  {
    TriedPut(s.info, s.idCount, Create(s, a, source).info[s.idCount]);
    CardNew(s.info.Keys, TriedIds(s.info), s.idCount);
    assert TriedIds(s.info) - {s.idCount} == TriedIds(s.info);
  }

  lemma CreateEntries(s: State, a: Address, source: Ip)
    requires Entries(s.info, {}) && s.idCount !in s.info
    ensures Entries(Create(s, a, source).info, {s.idCount})
  {
    var r := Create(s, a, source);
    forall id | id in r.info
      ensures EntryOk(r.info[id], id in {s.idCount})
    {
      if id in s.info { assert EntryOk(s.info[id], false); }
    }
  }

  lemma CreateInv(h: Hashing, s: State, a: Address, source: Ip)
    requires Sound(h, s) && a.service.ip !in s.addr
    ensures Inv(h, Create(s, a, source), {s.idCount}, 1)
  {
    CreateIndexed(s, a, source);
    CreateNew(h, s, a, source);
    CreateTried(h, s, a, source);
    CreateCounted(s, a, source, 0);
    CreateEntries(s, a, source);
  }

  // ------------------------------------------------------------------- times

  // The entries of b are entries of a, with their times; none is newly tried.
  ghost predicate Kept(a: map<int, Info>, b: map<int, Info>) {
    forall id :: id in b ==>
      && id in a && b[id].lastTry == a[id].lastTry && b[id].lastSuccess == a[id].lastSuccess
      && (b[id].inTried ==> a[id].inTried)
  }

  lemma KeptTimely(a: map<int, Info>, b: map<int, Info>)
    requires Kept(a, b) && Timely(a)
    ensures Timely(b)
  {
    forall id | id in b ensures EntryTimely(b[id]) {
      assert EntryTimely(a[id]);
    }
  }

  lemma KeptTwice(a: map<int, Info>, b: map<int, Info>, c: map<int, Info>)
    requires Kept(a, b) && Kept(b, c)
    ensures Kept(a, c)
  {}

  lemma DeleteKept(s: State, id: int)
    requires RandomOk(s.info, s.random) && CanDelete(s, id)
    ensures Kept(s.info, Delete(s, id).info)
  {
    DeleteSame(s, id);
  }

  lemma ClearNewKept(s: State, slot: Slot)
    requires RandomOk(s.info, s.random) && CanClear(s, slot)
    ensures Kept(s.info, ClearNew(s, slot).info)
  {
    if slot in s.newTable {
      var r := Unref(s, slot);
      if r.info[s.newTable[slot]].refCount == 0 {
        DeleteKept(r, s.newTable[slot]);
      }
    }
  }
}
