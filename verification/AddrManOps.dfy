/** The operations of the address manager on a consistent state, and the proof
    that whole runs of them keep it consistent. */
module AddrManOps {
  import opened Options
  import opened AddrMan
  import opened AddrManInv

  // ---------------------------------------------------------------- MakeTried

  // Move a new entry to the tried table. An entry that holds its slot there
  // goes back to its home slot in the new table, which is cleared first.
  function MakeTried(h: Hashing, s: State, id: int): State
    requires Sound(h, s) && id in s.info && !s.info[id].inTried
  {
    WithdrawnMid(h, s, id);
    var slot := h.TriedSlot(s.key, s.info[id].service);
    VacatedFrame(h, Withdraw(s, id), id, slot);
    Promote(Vacated(h, Withdraw(s, id), id, slot), id, slot)
  }

  // The slot in the tried table is made free.
  function Vacated(h: Hashing, s: State, id: int, slot: Slot): State
    requires slot in s.triedTable ==> MidMove(h, s, id, slot)
  { if slot in s.triedTable then BackToNew(h, s, id, slot) else s }

  lemma VacatedFrame(h: Hashing, s: State, id: int, slot: Slot)
    requires id in s.info && (slot in s.triedTable ==> MidMove(h, s, id, slot))
    ensures var r := Vacated(h, s, id, slot); StillThere(s, r, id) && r.triedTable == s.triedTable - {slot}
  {
    if slot in s.triedTable {
      BackToNewFrame(h, s, id, slot);
    } else {
      assert s.triedTable - {slot} == s.triedTable;
    }
  }

  ghost predicate MidMove(h: Hashing, s: State, id: int, slot: Slot) {
    && Inv(h, s, {id}, 1) && id in s.info && !s.info[id].inTried && s.info[id].refCount == 0
    && slot in s.triedTable
  }

  lemma WithdrawnMid(h: Hashing, s: State, id: int)
    requires Sound(h, s) && id in s.info && !s.info[id].inTried
    ensures var s1 := Withdraw(s, id); var slot := h.TriedSlot(s.key, s.info[id].service);
      && (slot in s1.triedTable ==> MidMove(h, s1, id, slot))
      && s1.info[id] == s.info[id].(refCount := 0)
  {
    WithdrawInv(h, s, id);
  }

  lemma HomeFree(h: Hashing, s: State, id: int, slot: Slot)
    requires MidMove(h, s, id, slot)
    ensures var prior := s.triedTable[slot];
      && prior in s.info && prior != id
      && var s2 := Evict(s, slot);
      && var home := h.NewSlot(s.key, s2.info[prior].service, s2.info[prior].source);
      && Inv(h, s2, {id, prior}, 2) && s2.key == s.key
      && !s2.info[prior].inTried && s2.info[prior].refCount == 0
      && (home in s2.newTable ==> s2.newTable[home] != id && s2.newTable[home] != prior)
  {
    var prior := s.triedTable[slot];
    EvictInv(h, s, slot, {id}, 1);
    var s2 := Evict(s, slot);
    assert {id} + {prior} == {id, prior};
    NoSlots(h, s2, id);
    NoSlots(h, s2, prior);
    var home := h.NewSlot(s.key, s2.info[prior].service, s2.info[prior].source);
    assert home !in SlotsOf(s2.newTable, id) && home !in SlotsOf(s2.newTable, prior);
  }

  lemma NoSlots(h: Hashing, s: State, id: int)
    requires h.Ok() && NewTableOk(h, s.key, s.info, s.newTable) && id in s.info && s.info[id].refCount == 0
    ensures SlotsOf(s.newTable, id) == {}
  {
    assert |SlotsOf(s.newTable, id)| == 0;
  }

  function BackToNew(h: Hashing, s: State, id: int, slot: Slot): State
    requires MidMove(h, s, id, slot)
  {
    HomeFree(h, s, id, slot);
    var prior := s.triedTable[slot];
    var s2 := Evict(s, slot);
    var home := h.NewSlot(s.key, s2.info[prior].service, s2.info[prior].source);
    ClearNewInv(h, s2, home, {id, prior}, 2);
    ClearNewFrame(h, s2, home, {id, prior}, 2);
    Readmit(ClearNew(s2, home), prior, home)
  }

  lemma ClearedHome(h: Hashing, s2: State, id: int, prior: int, home: Slot)
    requires Inv(h, s2, {id, prior}, 2) && prior in s2.info && !s2.info[prior].inTried && s2.info[prior].refCount == 0
    requires home == h.NewSlot(s2.key, s2.info[prior].service, s2.info[prior].source)
    requires home in s2.newTable ==> s2.newTable[home] != prior
    ensures CanClear(s2, home) && Inv(h, ClearNew(s2, home), {id, prior}, 2)
    ensures var s3 := ClearNew(s2, home);
      && prior in s3.info && !s3.info[prior].inTried && s3.info[prior].refCount == 0
      && home !in s3.newTable && Fits(h, s3, prior, home)
  {
    ClearNewInv(h, s2, home, {id, prior}, 2);
    ClearNewFrame(h, s2, home, {id, prior}, 2);
  }

  lemma ReadmittedHome(h: Hashing, s2: State, id: int, prior: int, home: Slot)
    requires Inv(h, s2, {id, prior}, 2) && prior in s2.info && !s2.info[prior].inTried && s2.info[prior].refCount == 0
    requires home == h.NewSlot(s2.key, s2.info[prior].service, s2.info[prior].source)
    requires home in s2.newTable ==> s2.newTable[home] != prior
    requires id != prior
    ensures CanClear(s2, home) && prior in ClearNew(s2, home).info
    ensures Inv(h, Readmit(ClearNew(s2, home), prior, home), {id}, 1)
  {
    ClearedHome(h, s2, id, prior, home);
    ReadmitInv(h, ClearNew(s2, home), prior, home, {id, prior}, 2);
    assert {id, prior} - {prior} == {id};
  }

  lemma BackToNewInv(h: Hashing, s: State, id: int, slot: Slot)
    requires MidMove(h, s, id, slot)
    ensures Inv(h, BackToNew(h, s, id, slot), {id}, 1)
  {
    HomeFree(h, s, id, slot);
    var prior := s.triedTable[slot];
    var s2 := Evict(s, slot);
    var home := h.NewSlot(s.key, s2.info[prior].service, s2.info[prior].source);
    ReadmittedHome(h, s2, id, prior, home);
  }

  ghost predicate StillThere(s: State, r: State, id: int) {
    && id in s.info && id in r.info && r.info[id] == s.info[id].(randomPos := r.info[id].randomPos)
    && r.key == s.key && r.lastGood == s.lastGood && r.idCount == s.idCount
  }

  lemma BackToNewFrame(h: Hashing, s: State, id: int, slot: Slot)
    requires MidMove(h, s, id, slot)
    ensures var r := BackToNew(h, s, id, slot); StillThere(s, r, id) && r.triedTable == s.triedTable - {slot}
  {
    HomeFree(h, s, id, slot);
    var prior := s.triedTable[slot];
    var s2 := Evict(s, slot);
    var home := h.NewSlot(s.key, s2.info[prior].service, s2.info[prior].source);
    ClearNewInv(h, s2, home, {id, prior}, 2);
    ClearNewFrame(h, s2, home, {id, prior}, 2);
  }

  lemma BackToNewSafe(h: Hashing, s: State, id: int, slot: Slot)
    requires MidMove(h, s, id, slot)
    ensures var prior := s.triedTable[slot];
      && prior in s.info
      && var s2 := Evict(s, slot);
      && var home := h.NewSlot(s.key, s2.info[prior].service, s2.info[prior].source);
      && CanClear(s2, home) && prior in ClearNew(s2, home).info
  {
    HomeFree(h, s, id, slot);
    var prior := s.triedTable[slot];
    var s2 := Evict(s, slot);
    ClearedHome(h, s2, id, prior, h.NewSlot(s.key, s2.info[prior].service, s2.info[prior].source));
  }

  // MakeTried keeps the whole invariant if the entry has been reached.
  lemma MakeTriedKeeps(h: Hashing, s: State, id: int)
    requires Sound(h, s) && id in s.info && !s.info[id].inTried
    ensures Sound(h, MakeTried(h, s, id))
    ensures Timely(s.info) && s.info[id].lastSuccess != 0 ==> Timely(MakeTried(h, s, id).info)
  {
    MakeTriedSound(h, s, id);
    MakeTriedTimes(h, s, id);
  }

  lemma MakeTriedTimes(h: Hashing, s: State, id: int)
    requires Sound(h, s) && id in s.info && !s.info[id].inTried
    ensures Timely(s.info) && s.info[id].lastSuccess != 0 ==> Timely(MakeTried(h, s, id).info)
  {
    WithdrawnMid(h, s, id);
    var slot := h.TriedSlot(s.key, s.info[id].service);
    var s1 := Withdraw(s, id);
    VacatedFrame(h, s1, id, slot);
    var s2 := Vacated(h, s1, id, slot);
    if Timely(s.info) {
      WithdrawKept(s, id);
      KeptTimely(s.info, s1.info);
      VacatedKept(h, s1, id, slot);
      KeptTimely(s1.info, s2.info);
    }
  }

  lemma WithdrawKept(s: State, id: int)
    requires id in s.info
    ensures Kept(s.info, Withdraw(s, id).info)
  {}

  lemma VacatedKept(h: Hashing, s: State, id: int, slot: Slot)
    requires slot in s.triedTable ==> MidMove(h, s, id, slot)
    ensures Kept(s.info, Vacated(h, s, id, slot).info)
  {
    if slot in s.triedTable {
      BackToNewSafe(h, s, id, slot);
      var prior, s2 := s.triedTable[slot], Evict(s, slot);
      var home := h.NewSlot(s.key, s2.info[prior].service, s2.info[prior].source);
      EvictKept(s, slot);
      ClearNewKept(s2, home);
      ReadmitKept(ClearNew(s2, home), prior, home);
      KeptTwice(s.info, s2.info, ClearNew(s2, home).info);
      KeptTwice(s.info, ClearNew(s2, home).info, BackToNew(h, s, id, slot).info);
    }
  }

  lemma EvictKept(s: State, slot: Slot)
    requires slot in s.triedTable && s.triedTable[slot] in s.info && RandomOk(s.info, s.random)
    ensures Kept(s.info, Evict(s, slot).info) && RandomOk(Evict(s, slot).info, s.random)
  {}

  lemma ReadmitKept(s: State, id: int, slot: Slot)
    requires id in s.info
    ensures Kept(s.info, Readmit(s, id, slot).info)
  {}

  lemma MakeTriedSound(h: Hashing, s: State, id: int)
    requires Sound(h, s) && id in s.info && !s.info[id].inTried
    ensures Sound(h, MakeTried(h, s, id))
  {
    WithdrawnMid(h, s, id);
    WithdrawInv(h, s, id);
    var slot := h.TriedSlot(s.key, s.info[id].service);
    VacatedInv(h, Withdraw(s, id), id, slot);
    VacatedFrame(h, Withdraw(s, id), id, slot);
    PromoteInv(h, Vacated(h, Withdraw(s, id), id, slot), id, slot, {id}, 1);
    assert {id} - {id} == {};
  }

  lemma VacatedInv(h: Hashing, s: State, id: int, slot: Slot)
    requires Inv(h, s, {id}, 1) && (slot in s.triedTable ==> MidMove(h, s, id, slot))
    ensures Inv(h, Vacated(h, s, id, slot), {id}, 1)
  {
    if slot in s.triedTable {
      BackToNewInv(h, s, id, slot);
    }
  }

  ghost predicate Moved(s: State, r: State, id: int, slot: Slot) {
    && id in s.info && id in r.info
    && r.info[id] == s.info[id].(inTried := true, refCount := 0, randomPos := r.info[id].randomPos)
    && r.triedTable == s.triedTable[slot := id]
    && r.key == s.key && r.lastGood == s.lastGood && r.idCount == s.idCount
  }

  lemma PromoteMoved(s: State, s1: State, v: State, id: int, slot: Slot)
    requires id in s.info && id in s1.info && s1.info[id] == s.info[id].(refCount := 0)
    requires s1.triedTable == s.triedTable && s1.key == s.key && s1.lastGood == s.lastGood && s1.idCount == s.idCount
    requires StillThere(s1, v, id) && v.triedTable == s1.triedTable - {slot}
    ensures Moved(s, Promote(v, id, slot), id, slot)
  {
    assert (s.triedTable - {slot})[slot := id] == s.triedTable[slot := id];
  }

  lemma MakeTriedEffect(h: Hashing, s: State, id: int)
    requires Sound(h, s) && id in s.info && !s.info[id].inTried
    ensures Moved(s, MakeTried(h, s, id), id, h.TriedSlot(s.key, s.info[id].service))
  {
    WithdrawnMid(h, s, id);
    var slot := h.TriedSlot(s.key, s.info[id].service);
    VacatedFrame(h, Withdraw(s, id), id, slot);
    PromoteMoved(s, Withdraw(s, id), Vacated(h, Withdraw(s, id), id, slot), id, slot);
  }

  // ------------------------------------------------------------------ Good_

  predicate Matches(s: State, a: Service) {
    Find(s, a.ip).Some? && s.info[Find(s, a.ip).value].service == a
  }

  function MarkGood(s: State, id: int, time: int): State
    requires id in s.info
  {
    s.(lastGood := time, info := s.info[id := s.info[id].(lastSuccess := time, lastTry := time, attempts := 0)])
  }

  function Good(h: Hashing, s: State, a: Service, time: int): State
    requires Sound(h, s)
  {
    if !Matches(s, a) then s.(lastGood := time)
    else
      var id := s.addr[a.ip];
      var s1 := MarkGood(s, id, time);
      if s1.info[id].inTried then s1
      else
        TouchInv(h, s, s1, id, {}, 0);
        MakeTried(h, s1, id)
  }

  // The first part of Good_, up to the decision to move the entry.
  function Marked(s: State, a: Service, time: int): State {
    if Matches(s, a) then MarkGood(s, s.addr[a.ip], time) else s.(lastGood := time)
  }

  predicate Moves(s: State, a: Service) { Matches(s, a) && !s.info[s.addr[a.ip]].inTried }

  lemma GoodParts(h: Hashing, s: State, a: Service, time: int)
    requires Sound(h, s)
    ensures if Moves(s, a) then
        && Sound(h, Marked(s, a, time)) && !Marked(s, a, time).info[s.addr[a.ip]].inTried
        && Good(h, s, a, time) == MakeTried(h, Marked(s, a, time), s.addr[a.ip])
      else Good(h, s, a, time) == Marked(s, a, time)
  {
    if Moves(s, a) {
      TouchInv(h, s, MarkGood(s, s.addr[a.ip], time), s.addr[a.ip], {}, 0);
    }
  }

  // The search for a bucket that holds an untried entry always succeeds: the
  // bail-out of Good_ is unreachable.
  lemma BucketFound(h: Hashing, s: State, id: int)
    requires Sound(h, s) && id in s.info && !s.info[id].inTried
    ensures exists b :: 0 <= b < h.newBuckets && InBucket(h, s, id, b)
  {
    assert EntryOk(s.info[id], false);
    assert |SlotsOf(s.newTable, id)| >= 1;
    var slot :| slot in SlotsOf(s.newTable, id);
    assert InBucket(h, s, id, slot.bucket);
  }

  predicate InBucket(h: Hashing, s: State, id: int, bucket: nat)
    requires h.Ok() && id in s.info
  {
    var slot := Slot(bucket, h.Position(s.key, true, bucket, s.info[id].service));
    slot in s.newTable && s.newTable[slot] == id
  }

  // Good_ keeps the invariant exactly when it has nothing to mark or a positive
  // time to mark it with. The structures agree in any case.
  lemma GoodKeeps(h: Hashing, s: State, a: Service, time: int)
    requires Consistent(h, s)
    ensures Sound(h, Good(h, s, a, time))
    ensures Consistent(h, Good(h, s, a, time)) <==> (time > 0 || !Matches(s, a))
    ensures Matches(s, a) ==>
      var r := Good(h, s, a, time); var id := s.addr[a.ip];
      id in r.info && r.info[id].service == a && r.info[id].inTried && r.info[id].lastSuccess == time
  {
    hide NewTableOk, TriedTableOk, Counted;
    if Matches(s, a) {
      var id := s.addr[a.ip];
      var s1 := MarkGood(s, id, time);
      TouchInv(h, s, s1, id, {}, 0);
      if time > 0 { MarkedTimely(s, id, time); }
      if !s1.info[id].inTried {
        MakeTriedEffect(h, s1, id);
        MakeTriedKeeps(h, s1, id);
      }
      var r := Good(h, s, a, time);
      assert time <= 0 ==> !EntryTimely(r.info[id]);
    }
  }

  lemma MarkedTimely(s: State, id: int, time: int)
    requires id in s.info && Timely(s.info) && time > 0
    ensures Timely(MarkGood(s, id, time).info)
  {}

  // -------------------------------------------------------------------- Add_

  // Whether the occupant of a slot gives way to entry id.
  predicate GivesWay(s: State, id: int, slot: Slot, now: int)
    requires id in s.info && (slot in s.newTable ==> s.newTable[slot] in s.info)
  {
    slot !in s.newTable ||
    var e := s.info[s.newTable[slot]];
    IsTerrible(e, now) || (e.refCount > 1 && s.info[id].refCount == 0)
  }

  // An untried entry with room for one more reference; without any it is only
  // just being created.
  ghost predicate CanPlace(h: Hashing, s: State, id: int) {
    && Inv(h, s, {id}, 0) && id in s.info && !s.info[id].inTried
    && 0 <= s.info[id].refCount < NEW_BUCKETS_PER_ADDRESS
  }

  function Place(h: Hashing, s: State, id: int, source: Ip, now: int): State
    requires CanPlace(h, s, id)
  {
    var slot := h.NewSlot(s.key, s.info[id].service, source);
    if slot in s.newTable && s.newTable[slot] == id then s
    else if GivesWay(s, id, slot, now) then
      ClearNewInv(h, s, slot, {id}, 0);
      ClearNewFrame(h, s, slot, {id}, 0);
      Refer(ClearNew(s, slot), id, slot)
    else if s.info[id].refCount == 0 then
      DeleteInv(h, s, id, {id}, 0);
      Delete(s, id)
    else s
  }

  // No assertion fires on the way: where the occupant gives way the slot can be
  // cleared and the entry survives that, and where it does not an entry without
  // references can be deleted.
  lemma PlaceCases(h: Hashing, s: State, id: int, source: Ip, now: int)
    requires CanPlace(h, s, id)
    ensures var slot := h.NewSlot(s.key, s.info[id].service, source);
      slot in s.newTable ==> s.newTable[slot] in s.info
    ensures var slot := h.NewSlot(s.key, s.info[id].service, source);
      && (GivesWay(s, id, slot, now) && (slot in s.newTable ==> s.newTable[slot] != id) ==>
            CanClear(s, slot) && id in ClearNew(s, slot).info)
      && (!GivesWay(s, id, slot, now) && s.info[id].refCount == 0 ==> CanDelete(s, id))
  {
    var slot := h.NewSlot(s.key, s.info[id].service, source);
    if slot in s.newTable && s.newTable[slot] == id {
    } else if GivesWay(s, id, slot, now) {
      ClearNewInv(h, s, slot, {id}, 0);
      ClearNewFrame(h, s, slot, {id}, 0);
    } else if s.info[id].refCount == 0 {
      DeleteInv(h, s, id, {id}, 0);
    }
  }

  lemma ReferredSlot(h: Hashing, s: State, id: int, slot: Slot)
    requires CanPlace(h, s, id) && Fits(h, s, id, slot)
    requires slot in s.newTable ==> s.newTable[slot] != id
    ensures CanClear(s, slot) && id in ClearNew(s, slot).info
    ensures Inv(h, Refer(ClearNew(s, slot), id, slot), {}, 0)
  {
    ClearNewInv(h, s, slot, {id}, 0);
    ClearNewFrame(h, s, slot, {id}, 0);
    ReferInv(h, ClearNew(s, slot), id, slot, {id}, 0);
    assert {id} - {id} == {};
  }

  lemma Tightened(h: Hashing, s: State, id: int)
    requires CanPlace(h, s, id) && s.info[id].refCount > 0
    ensures Sound(h, s)
  {
    EntriesMono(s.info, {id}, {});
  }

  lemma PlaceKeeps(h: Hashing, s: State, id: int, source: Ip, now: int)
    requires CanPlace(h, s, id)
    ensures Sound(h, Place(h, s, id, source, now))
  {
    var slot := h.NewSlot(s.key, s.info[id].service, source);
    if slot in s.newTable && s.newTable[slot] == id {
      assert slot in SlotsOf(s.newTable, id);
      assert s.info[id].refCount == |SlotsOf(s.newTable, id)|;
      Tightened(h, s, id);
    } else if GivesWay(s, id, slot, now) {
      ReferredSlot(h, s, id, slot);
    } else if s.info[id].refCount == 0 {
      DeleteInv(h, s, id, {id}, 0);
      assert {id} - {id} == {};
    } else {
      Tightened(h, s, id);
    }
  }

  function Max0(x: int): int { if x < 0 then 0 else x }

  // A known address: take over newer information.
  function Refresh(i: Info, a: Address, penalty: int, now: int): Info {
    var interval := if now - a.time < 24 * 60 * 60 then 60 * 60 else 24 * 60 * 60;
    i.(time := if a.time != 0 && (i.time == 0 || i.time < a.time - interval - penalty)
               then Max0(a.time - penalty) else i.time,
       services := i.services + a.services)
  }

  function Refreshed(s: State, id: int, a: Address, penalty: int, now: int): State
    requires id in s.info
  {
    s.(info := s.info[id := Refresh(s.info[id], a, penalty, now)])
  }

  function Created(s: State, a: Address, source: Ip, penalty: int): State {
    var r := Create(s, a, source);
    r.(info := r.info[s.idCount := r.info[s.idCount].(time := Max0(a.time - penalty))], nNew := r.nNew + 1)
  }

  lemma CreatedCounted(h: Hashing, s: State, a: Address, source: Ip)
    requires Sound(h, s) && Find(s, a.service.ip).None?
    ensures var r := Create(s, a, source); Inv(h, r.(nNew := r.nNew + 1), {s.idCount}, 0)
  {
    CreateInv(h, s, a, source);
    CountShift(h, Create(s, a, source), {s.idCount}, 1);
  }

  lemma CreatedOk(h: Hashing, s: State, a: Address, source: Ip, penalty: int)
    requires Sound(h, s) && Find(s, a.service.ip).None?
    ensures CanPlace(h, Created(s, a, source, penalty), s.idCount)
  {
    CreatedCounted(h, s, a, source);
    var r := Create(s, a, source);
    TouchInv(h, r.(nNew := r.nNew + 1), Created(s, a, source, penalty), s.idCount, {s.idCount}, 0);
  }

  lemma RefreshedOk(h: Hashing, s: State, id: int, a: Address, penalty: int, now: int)
    requires Sound(h, s) && id in s.info
    ensures Sound(h, Refreshed(s, id, a, penalty, now))
    ensures !s.info[id].inTried && s.info[id].refCount < NEW_BUCKETS_PER_ADDRESS ==>
      CanPlace(h, Refreshed(s, id, a, penalty, now), id)
  {
    var r := Refreshed(s, id, a, penalty, now);
    assert EntryOk(s.info[id], false);
    TouchInv(h, s, r, id, {}, 0);
    EntriesMono(r.info, {}, {id});
  }

  // Whether a known address is worth another reference; lucky is the outcome
  // of the stochastic test.
  predicate WantsReference(i: Info, a: Address, lucky: bool) {
    && a.time != 0 && !(i.time != 0 && a.time <= i.time)
    && !i.inTried && i.refCount != NEW_BUCKETS_PER_ADDRESS
    && (i.refCount > 0 ==> lucky)
  }

  lemma PlaceableRefresh(h: Hashing, s: State, id: int, a: Address, penalty: int, now: int, lucky: bool)
    requires Sound(h, s) && id in s.info
    ensures var r := Refreshed(s, id, a, penalty, now); WantsReference(r.info[id], a, lucky) ==> CanPlace(h, r, id)
  {
    assert EntryOk(s.info[id], false);
    RefreshedOk(h, s, id, a, penalty, now);
  }

  datatype Added = Added(s: State, isNew: bool)

  function Add(h: Hashing, s: State, a: Address, source: Ip, timePenalty: int, now: int, lucky: bool): Added
    requires Sound(h, s)
  {
    var penalty := if a.service.ip == source then 0 else timePenalty;
    if !h.routable(a.service.ip) then Added(s, false)
    else if Find(s, a.service.ip).Some? then
      var id := s.addr[a.service.ip];
      var r := Refreshed(s, id, a, penalty, now);
      if WantsReference(r.info[id], a, lucky) then
        assert EntryOk(s.info[id], false);
        RefreshedOk(h, s, id, a, penalty, now);
        Added(Place(h, r, id, source, now), false)
      else Added(r, false)
    else
      CreatedOk(h, s, a, source, penalty);
      Added(Place(h, Created(s, a, source, penalty), s.idCount, source, now), true)
  }

  lemma AddKeeps(h: Hashing, s: State, a: Address, source: Ip, timePenalty: int, now: int, lucky: bool)
    requires Sound(h, s)
    ensures Sound(h, Add(h, s, a, source, timePenalty, now, lucky).s)
    ensures Timely(s.info) ==> Timely(Add(h, s, a, source, timePenalty, now, lucky).s.info)
  {
    var penalty := if a.service.ip == source then 0 else timePenalty;
    if !h.routable(a.service.ip) {
    } else if Find(s, a.service.ip).Some? {
      var id := s.addr[a.service.ip];
      assert EntryOk(s.info[id], false);
      RefreshedOk(h, s, id, a, penalty, now);
      var r := Refreshed(s, id, a, penalty, now);
      if Timely(s.info) { RefreshedTimely(s, id, a, penalty, now); }
      if WantsReference(r.info[id], a, lucky) {
        PlaceKeeps(h, r, id, source, now);
        PlaceTimes(h, r, id, source, now);
      }
    } else {
      CreatedOk(h, s, a, source, penalty);
      var r := Created(s, a, source, penalty);
      if Timely(s.info) { CreatedTimely(s, a, source, penalty); }
      PlaceKeeps(h, r, s.idCount, source, now);
      PlaceTimes(h, r, s.idCount, source, now);
    }
  }

  lemma RefreshedTimely(s: State, id: int, a: Address, penalty: int, now: int)
    requires id in s.info && Timely(s.info)
    ensures Timely(Refreshed(s, id, a, penalty, now).info)
  {}

  lemma CreatedTimely(s: State, a: Address, source: Ip, penalty: int)
    requires Timely(s.info)
    ensures Timely(Created(s, a, source, penalty).info)
  {}

  lemma PlaceTimes(h: Hashing, s: State, id: int, source: Ip, now: int)
    requires CanPlace(h, s, id)
    ensures Timely(s.info) ==> Timely(Place(h, s, id, source, now).info)
  {
    PlaceKept(h, s, id, source, now);
    if Timely(s.info) { KeptTimely(s.info, Place(h, s, id, source, now).info); }
  }

  lemma PlaceKept(h: Hashing, s: State, id: int, source: Ip, now: int)
    requires CanPlace(h, s, id)
    ensures Kept(s.info, Place(h, s, id, source, now).info)
  {
    PlaceCases(h, s, id, source, now);
    var slot := h.NewSlot(s.key, s.info[id].service, source);
    if slot in s.newTable && s.newTable[slot] == id {
    } else if GivesWay(s, id, slot, now) {
      ClearNewKept(s, slot);
      ReferKept(ClearNew(s, slot), id, slot);
      KeptTwice(s.info, ClearNew(s, slot).info, Refer(ClearNew(s, slot), id, slot).info);
    } else if s.info[id].refCount == 0 {
      DeleteKept(s, id);
    }
  }

  lemma ReferKept(s: State, id: int, slot: Slot)
    requires id in s.info
    ensures Kept(s.info, Refer(s, id, slot).info)
  {}

  lemma PlaceKnown(h: Hashing, s: State, id: int, source: Ip, now: int)
    requires CanPlace(h, s, id) && s.info[id].refCount == 0
    ensures id in Place(h, s, id, source, now).info <==>
            GivesWay(s, id, h.NewSlot(s.key, s.info[id].service, source), now)
  {
    var slot := h.NewSlot(s.key, s.info[id].service, source);
    NoSlots(h, s, id);
    assert slot !in SlotsOf(s.newTable, id);
    if GivesWay(s, id, slot, now) {
      ReferredSlot(h, s, id, slot);
    } else {
      DeleteInv(h, s, id, {id}, 0);
      DeleteSame(s, id);
    }
  }

  // Add_ reports a routable unknown address as added, but it is known
  // afterwards exactly if its slot was free or its occupant gave way.
  lemma AddKnown(h: Hashing, s: State, a: Address, source: Ip, timePenalty: int, now: int, lucky: bool)
    requires Sound(h, s) && h.routable(a.service.ip) && a.service.ip !in s.addr
    ensures var r := Add(h, s, a, source, timePenalty, now, lucky);
      var slot := h.NewSlot(s.key, a.service, source);
      && r.isNew
      && (slot in s.newTable ==> s.newTable[slot] in s.info)
      && (s.idCount in r.s.info <==>
            (slot in s.newTable ==> var e := s.info[s.newTable[slot]]; IsTerrible(e, now) || e.refCount > 1))
  {
    var penalty := if a.service.ip == source then 0 else timePenalty;
    var s1 := Created(s, a, source, penalty);
    CreatedOk(h, s, a, source, penalty);
    PlaceKnown(h, s1, s.idCount, source, now);
  }

  // ------------------------------------------- Attempt_, Connected_, SetServices_

  function Attempted(i: Info, countFailure: bool, time: int, lastGood: int): Info {
    var j := i.(lastTry := time);
    if countFailure && i.lastCountAttempt < lastGood
    then j.(lastCountAttempt := time, attempts := i.attempts + 1) else j
  }

  function Attempt(s: State, a: Service, countFailure: bool, time: int): State {
    if !Matches(s, a) then s
    else var id := s.addr[a.ip]; s.(info := s.info[id := Attempted(s.info[id], countFailure, time, s.lastGood)])
  }

  function Connected(s: State, a: Service, time: int): State {
    if !Matches(s, a) then s
    else
      var id := s.addr[a.ip];
      if time - s.info[id].time > 20 * 60 then s.(info := s.info[id := s.info[id].(time := time)]) else s
  }

  function SetServices(s: State, a: Service, services: set<nat>): State {
    if !Matches(s, a) then s
    else var id := s.addr[a.ip]; s.(info := s.info[id := s.info[id].(services := services)])
  }

  // Attempt_ keeps the invariant exactly when it has nothing to mark or no
  // negative time to mark it with; the others always do.
  lemma TouchesKeep(h: Hashing, s: State, a: Service, countFailure: bool, time: int, services: set<nat>)
    requires Consistent(h, s)
    ensures Consistent(h, Attempt(s, a, countFailure, time)) <==> (time >= 0 || !Matches(s, a))
    ensures Consistent(h, Connected(s, a, time))
    ensures Consistent(h, SetServices(s, a, services))
  {
    if Matches(s, a) {
      var id := s.addr[a.ip];
      assert EntryTimely(s.info[id]);
      TouchKeeps(h, s, Attempt(s, a, countFailure, time), id);
      if time - s.info[id].time > 20 * 60 { TouchKeeps(h, s, Connected(s, a, time), id); }
      TouchKeeps(h, s, SetServices(s, a, services), id);
    }
  }

  // One entry with other statistics.
  lemma TouchKeeps(h: Hashing, s: State, r: State, id: int)
    requires Consistent(h, s) && OneEntry(s, r, id) && r == s.(info := r.info)
    requires r.info[id].refCount == s.info[id].refCount && r.info[id].inTried == s.info[id].inTried
    ensures Consistent(h, r) <==> EntryTimely(r.info[id])
  {
    TouchInv(h, s, r, id, {}, 0);
    OthersTimely(s.info, id, r.info[id]);
  }

  lemma OthersTimely(info: map<int, Info>, id: int, e: Info)
    requires Timely(info)
    ensures Timely(info[id := e]) <==> EntryTimely(e)
  {
    assert info[id := e][id] == e;
  }

  // An address just added to an empty manager, marked as good at time zero,
  // leaves a state that Check_ rejects.
  lemma GoodAtZero(h: Hashing, key: nat, a: Address, source: Ip, now: int)
    requires h.Ok() && h.routable(a.service.ip)
    ensures Sound(h, Fresh(key))
    ensures var s := Add(h, Fresh(key), a, source, 0, now, false).s;
      Consistent(h, s) && Matches(s, a.service) && !Consistent(h, Good(h, s, a.service, 0))
  {
    FreshConsistent(h, key);
    AddKeeps(h, Fresh(key), a, source, 0, now, false);
    AddedMatches(h, key, a, source, now);
    GoodKeeps(h, Add(h, Fresh(key), a, source, 0, now, false).s, a.service, 0);
  }

  lemma AddedMatches(h: Hashing, key: nat, a: Address, source: Ip, now: int)
    requires Sound(h, Fresh(key)) && h.routable(a.service.ip)
    ensures Matches(Add(h, Fresh(key), a, source, 0, now, false).s, a.service)
  {
    var s := Created(Fresh(key), a, source, 0);
    CreatedOk(h, Fresh(key), a, source, 0);
    assert s.newTable == map[] && s.info[0].service == a.service && s.addr[a.service.ip] == 0;
  }

  // ------------------------------------------------------------ positions only

  lemma SwapIndexed(s: State, p1: int, p2: int)
    requires Indexed(s) && 0 <= p1 < |s.random| && 0 <= p2 < |s.random|
    ensures CanSwap(s, p1, p2) && Indexed(SwapRandom(s, p1, p2))
  {
    SwapRandomOk(s, p1, p2);
    SwapRandomSame(s, p1, p2);
  }

  lemma SwapTables(h: Hashing, s: State, r: State, k: int)
    requires h.Ok() && r == s.(info := r.info, random := r.random)
    requires r.info.Keys == s.info.Keys && SameButPosition(s.info, r.info)
    ensures Entries(s.info, {}) ==> Entries(r.info, {})
    ensures NewTableOk(h, s.key, s.info, s.newTable) ==> NewTableOk(h, r.key, r.info, r.newTable)
    ensures TriedTableOk(h, s.key, s.info, s.triedTable) ==> TriedTableOk(h, r.key, r.info, r.triedTable)
    ensures Counted(s.info, s.nTried, s.nNew, k) ==> Counted(r.info, r.nTried, r.nNew, k)
  {
    forall id | id in s.info ensures id in r.info && r.info[id] == s.info[id].(randomPos := r.info[id].randomPos) {}
    forall id ensures id in TriedIds(r.info) <==> id in TriedIds(s.info) {}
    assert TriedIds(r.info) == TriedIds(s.info);
  }

  lemma SwapKeeps(h: Hashing, s: State, p1: int, p2: int)
    requires Sound(h, s) && 0 <= p1 < |s.random| && 0 <= p2 < |s.random|
    ensures CanSwap(s, p1, p2) && Sound(h, SwapRandom(s, p1, p2))
    ensures Timely(s.info) ==> Timely(SwapRandom(s, p1, p2).info)
  {
    SwapIndexed(s, p1, p2);
    SwapRandomSame(s, p1, p2);
    SwapTables(h, s, SwapRandom(s, p1, p2), 0);
    if Timely(s.info) { KeptTimely(s.info, SwapRandom(s, p1, p2).info); }
  }

  // ------------------------------------------------------------- whole runs

  // One call of the public interface, with its clock readings and random
  // choices; a Shuffle is one swap of GetAddr_.
  datatype Call =
    | AddCall(a: Address, source: Ip, penalty: int, now: int, lucky: bool)
    | GoodCall(service: Service, time: int)
    | AttemptCall(service: Service, countFailure: bool, time: int)
    | ConnectedCall(service: Service, time: int)
    | SetServicesCall(service: Service, services: set<nat>)
    | Shuffle(p1: nat, p2: nat)

  // The clock shows a positive time where it is recorded, and the random
  // positions are positions.
  predicate Admissible(s: State, c: Call) {
    match c
    case AddCall(_, _, _, _, _) => true
    case GoodCall(a, time) => time > 0 || !Matches(s, a)
    case AttemptCall(a, _, time) => time >= 0 || !Matches(s, a)
    case ConnectedCall(_, _) => true
    case SetServicesCall(_, _) => true
    case Shuffle(p1, p2) => p1 < |s.random| && p2 < |s.random|
  }

  function Perform(h: Hashing, s: State, c: Call): State
    requires Sound(h, s) && Admissible(s, c)
  {
    match c
    case AddCall(a, source, penalty, now, lucky) => Add(h, s, a, source, penalty, now, lucky).s
    case GoodCall(a, time) => Good(h, s, a, time)
    case AttemptCall(a, countFailure, time) => Attempt(s, a, countFailure, time)
    case ConnectedCall(a, time) => Connected(s, a, time)
    case SetServicesCall(a, services) => SetServices(s, a, services)
    case Shuffle(p1, p2) => SwapKeeps(h, s, p1, p2); SwapRandom(s, p1, p2)
  }

  lemma PerformKeeps(h: Hashing, s: State, c: Call)
    requires Consistent(h, s) && Admissible(s, c)
    ensures Consistent(h, Perform(h, s, c))
  {
    match c
    case AddCall(a, source, penalty, now, lucky) => AddKeeps(h, s, a, source, penalty, now, lucky);
    case GoodCall(a, time) => GoodKeeps(h, s, a, time);
    case AttemptCall(a, countFailure, time) => TouchesKeep(h, s, a, countFailure, time, {});
    case ConnectedCall(a, time) => TouchesKeep(h, s, a, false, time, {});
    case SetServicesCall(a, services) => TouchesKeep(h, s, a, false, 0, services);
    case Shuffle(p1, p2) => SwapKeeps(h, s, p1, p2);
  }

  ghost predicate RunOf(h: Hashing, key: nat, states: seq<State>, calls: seq<Call>) {
    && |states| == |calls| + 1 && states[0] == Fresh(key)
    && forall i :: 0 <= i < |calls| ==>
         && Admissible(states[i], calls[i])
         && (Consistent(h, states[i]) ==> states[i + 1] == Perform(h, states[i], calls[i]))
  }

  lemma FreshConsistent(h: Hashing, key: nat)
    requires h.Ok()
    ensures Consistent(h, Fresh(key))
  {
    var s := Fresh(key);
    assert TriedIds(s.info) == {};
    assert s.info.Keys - TriedIds(s.info) == {};
  }

  // Clearing a manager that has entries leaves them behind, out of its tables:
  // it keeps the invariant exactly when there were none.
  lemma ClearKeeps(h: Hashing, s: State, key: nat)
    requires Consistent(h, s)
    ensures Consistent(h, Clear(s, key)) <==> s.info == map[]
  {
    var r := Clear(s, key);
    if s.info == map[] {
      assert forall ip :: ip !in s.addr;
      FreshConsistent(h, key);
      assert r == Fresh(key);
    } else {
      var id := Pick(s.info.Keys);
      assert id in r.info && !(0 <= r.info[id].randomPos < |r.random|);
    }
  }

  // Every run of calls from an empty manager passes the consistency check in
  // every state.
  lemma {:induction false} RunConsistent(h: Hashing, key: nat, states: seq<State>, calls: seq<Call>, n: nat)
    requires h.Ok() && RunOf(h, key, states, calls) && n < |states|
    ensures Consistent(h, states[n])
  {
    if n == 0 {
      FreshConsistent(h, key);
    } else {
      RunConsistent(h, key, states, calls, n - 1);
      PerformKeeps(h, states[n - 1], calls[n - 1]);
    }
  }
}
