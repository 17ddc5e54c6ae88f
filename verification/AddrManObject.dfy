/** The address manager as an object that updates its maps, its vector and its
    tables in place. Every method is proved to do what the function of the same
    name in AddrMan or AddrManOps says. */
module AddrManObject {
  import M = AddrMan
  import I = AddrManInv
  import Ops = AddrManOps
  import Nonlinear

  // Every reference to id is in the position its address has in that bucket.
  ghost predicate InPlace(h: M.Hashing, key: nat, newTable: map<M.Slot, int>, id: int, a: M.Service)
    requires h.Ok()
  {
    forall slot :: slot in newTable && newTable[slot] == id ==>
      slot.bucket < h.newBuckets && slot.pos == h.Position(key, true, slot.bucket, a)
  }

  lemma PlacedRight(h: M.Hashing, s: M.State, id: int)
    requires I.Sound(h, s) && id in s.info
    ensures InPlace(h, s.key, s.newTable, id, s.info[id].service)
  {}

  function SlotsUpTo(newTable: map<M.Slot, int>, id: int, bucket: nat): set<M.Slot> {
    set slot | slot in newTable && newTable[slot] == id && slot.bucket < bucket
  }

  // The next bucket has one slot where the entry may be.
  lemma NextBucket(h: M.Hashing, key: nat, newTable: map<M.Slot, int>, id: int, a: M.Service, bucket: nat)
    requires h.Ok() && InPlace(h, key, newTable, id, a)
    ensures var slot := M.Slot(bucket, h.Position(key, true, bucket, a));
      var before, after := SlotsUpTo(newTable, id, bucket), SlotsUpTo(newTable, id, bucket + 1);
      && slot !in before
      && after == if slot in newTable && newTable[slot] == id then before + {slot} else before
  {}

  lemma WithdrawNext(h: M.Hashing, key: nat, newTable: map<M.Slot, int>, id: int, a: M.Service, bucket: nat)
    requires h.Ok() && InPlace(h, key, newTable, id, a)
    ensures var slot := M.Slot(bucket, h.Position(key, true, bucket, a));
      var left := newTable - SlotsUpTo(newTable, id, bucket);
      var after := SlotsUpTo(newTable, id, bucket + 1);
      if slot in left && left[slot] == id then
        newTable - after == left - {slot} && |after| == |SlotsUpTo(newTable, id, bucket)| + 1
      else newTable - after == left && |after| == |SlotsUpTo(newTable, id, bucket)|
  {
    NextBucket(h, key, newTable, id, a, bucket);
    var before := SlotsUpTo(newTable, id, bucket);
    var slot := M.Slot(bucket, h.Position(key, true, bucket, a));
    WithoutOne(newTable, before, slot);
  }

  lemma WithoutOne(newTable: map<M.Slot, int>, before: set<M.Slot>, slot: M.Slot)
    ensures newTable - (before + {slot}) == newTable - before - {slot}
  {}

  lemma WithdrawEnds(h: M.Hashing, key: nat, newTable: map<M.Slot, int>, id: int, a: M.Service)
    requires h.Ok() && InPlace(h, key, newTable, id, a)
    ensures SlotsUpTo(newTable, id, 0) == {} && newTable - {} == newTable
    ensures SlotsUpTo(newTable, id, h.newBuckets) == M.SlotsOf(newTable, id)
  {}

  function Limit(size: nat): nat {
    var share := M.GETADDR_MAX_PCT * size / 100;
    if share > M.GETADDR_MAX then M.GETADDR_MAX else share
  }

  // i is the record of a known address (its position in vRandom aside).
  predicate Listed(info: map<int, M.Info>, addr: map<M.Ip, int>, i: M.Info) {
    && i.service.ip in addr && addr[i.service.ip] in info
    && info[addr[i.service.ip]].(randomPos := i.randomPos) == i
  }

  // Distinct good addresses that are known.
  ghost predicate GoodSample(info: map<int, M.Info>, addr: map<M.Ip, int>, now: int, found: seq<M.Info>) {
    && (forall k :: 0 <= k < |found| ==> !M.IsTerrible(found[k], now) && Listed(info, addr, found[k]))
    && (forall j, k :: 0 <= j < k < |found| ==> found[j].service.ip != found[k].service.ip)
  }

  // No good address is missing.
  ghost predicate Complete(info: map<int, M.Info>, now: int, found: seq<M.Info>) {
    forall id :: id in info && !M.IsTerrible(info[id], now) ==>
      exists k :: 0 <= k < |found| && found[k].service == info[id].service
  }

  // found holds the good entries among the first n of vRandom, ids their ids.
  ghost predicate Sampled(info: map<int, M.Info>, random: seq<int>, n: nat, now: int, found: seq<M.Info>, ids: seq<int>)
    requires n <= |random|
  {
    Picked(info, n, now, found, ids) && Covered(info, random, n, now, ids)
  }

  ghost predicate Picked(info: map<int, M.Info>, n: nat, now: int, found: seq<M.Info>, ids: seq<int>) {
    && |found| == |ids|
    && (forall k :: 0 <= k < |ids| ==>
          && ids[k] in info && info[ids[k]].randomPos < n
          && info[ids[k]].(randomPos := found[k].randomPos) == found[k] && !M.IsTerrible(found[k], now))
    && (forall j, k :: 0 <= j < k < |ids| ==> ids[j] != ids[k])
  }

  ghost predicate Covered(info: map<int, M.Info>, random: seq<int>, n: nat, now: int, ids: seq<int>)
    requires n <= |random|
  {
    forall p :: 0 <= p < n && random[p] in info && !M.IsTerrible(info[random[p]], now) ==> random[p] in ids
  }

  lemma SwapSampled(s: M.State, p1: int, p2: int, n: nat, now: int, found: seq<M.Info>, ids: seq<int>)
    requires I.RandomOk(s.info, s.random) && n <= p1 < |s.random| && n <= p2 < |s.random|
    requires Sampled(s.info, s.random, n, now, found, ids)
    ensures M.CanSwap(s, p1, p2) && |M.SwapRandom(s, p1, p2).random| == |s.random|
    ensures Sampled(M.SwapRandom(s, p1, p2).info, M.SwapRandom(s, p1, p2).random, n, now, found, ids)
  {}

  function Sample(s: M.State, n: nat, now: int, found: seq<M.Info>): seq<M.Info>
    requires n < |s.random| && s.random[n] in s.info
  {
    if M.IsTerrible(s.info[s.random[n]], now) then found else found + [s.info[s.random[n]]]
  }

  lemma NextSampled(s: M.State, n: nat, now: int, found: seq<M.Info>, ids: seq<int>)
    requires I.RandomOk(s.info, s.random) && n < |s.random| && Sampled(s.info, s.random, n, now, found, ids)
    ensures Sampled(s.info, s.random, n + 1, now, Sample(s, n, now, found),
                    if M.IsTerrible(s.info[s.random[n]], now) then ids else ids + [s.random[n]])
  {
    var id := s.random[n];
    if M.IsTerrible(s.info[id], now) {
      CoveredNext(s.info, s.random, n, now, ids, ids);
    } else {
      PickedNext(s.info, n, now, found, ids, id);
      CoveredNext(s.info, s.random, n, now, ids, ids + [id]);
    }
  }

  lemma PickedNext(info: map<int, M.Info>, n: nat, now: int, found: seq<M.Info>, ids: seq<int>, id: int)
    requires Picked(info, n, now, found, ids) && id in info && info[id].randomPos == n
    requires !M.IsTerrible(info[id], now)
    ensures Picked(info, n + 1, now, found + [info[id]], ids + [id])
  {}

  lemma CoveredNext(info: map<int, M.Info>, random: seq<int>, n: nat, now: int, ids: seq<int>, more: seq<int>)
    requires n < |random| && random[n] in info && Covered(info, random, n, now, ids)
    requires more == if M.IsTerrible(info[random[n]], now) then ids else ids + [random[n]]
    ensures Covered(info, random, n + 1, now, more)
  {
    forall p | 0 <= p < n + 1 && random[p] in info && !M.IsTerrible(info[random[p]], now) ensures random[p] in more {
      if p < n { assert random[p] in ids; }
    }
  }

  // What the sample says once the loop is over.
  lemma SampleGood(s: M.State, n: nat, now: int, found: seq<M.Info>, ids: seq<int>)
    requires I.Indexed(s) && Picked(s.info, n, now, found, ids)
    ensures GoodSample(s.info, s.addr, now, found)
  {
    forall k | 0 <= k < |found| ensures Listed(s.info, s.addr, found[k]) && s.addr[found[k].service.ip] == ids[k] {
      var id := ids[k];
      assert s.info[id].(randomPos := found[k].randomPos) == found[k];
      assert s.info[id].service == found[k].service;
      assert s.addr[s.info[id].service.ip] == id;
    }
  }

  lemma SampleComplete(s: M.State, now: int, found: seq<M.Info>, ids: seq<int>)
    requires I.RandomOk(s.info, s.random) && Sampled(s.info, s.random, |s.random|, now, found, ids)
    ensures Complete(s.info, now, found)
  {
    forall id | id in s.info && !M.IsTerrible(s.info[id], now)
      ensures exists k :: 0 <= k < |found| && found[k].service == s.info[id].service
    {
      assert s.random[s.info[id].randomPos] in ids;
      var k :| 0 <= k < |ids| && ids[k] == id;
      assert found[k].service == s.info[id].service;
    }
  }

  // Positions do not matter to any of this.
  lemma SameGood(s: M.State, r: M.State, now: int, found: seq<M.Info>)
    requires Reordered(s, r) && GoodSample(r.info, r.addr, now, found)
    ensures GoodSample(s.info, s.addr, now, found)
  {
    forall i: M.Info | Listed(r.info, r.addr, i) ensures Listed(s.info, s.addr, i) {
      var id := r.addr[i.service.ip];
      assert r.info[id] == s.info[id].(randomPos := r.info[id].randomPos);
    }
  }

  lemma SameComplete(s: M.State, r: M.State, now: int, found: seq<M.Info>)
    requires Reordered(s, r) && Complete(r.info, now, found)
    ensures Complete(s.info, now, found)
  {
    forall id | id in s.info && !M.IsTerrible(s.info[id], now)
      ensures exists k :: 0 <= k < |found| && found[k].service == s.info[id].service
    {
      assert id in r.info && r.info[id] == s.info[id].(randomPos := r.info[id].randomPos);
      assert !M.IsTerrible(r.info[id], now);
    }
  }

  method Choose<T>(s: set<T>) returns (x: T)
    requires s != {}
    ensures x in s
  {
    x :| x in s;
  }

  // Only positions in vRandom are different.
  ghost predicate Reordered(s: M.State, r: M.State) {
    && r == s.(info := r.info, random := r.random) && |r.random| == |s.random|
    && r.info.Keys == s.info.Keys && I.SameButPosition(s.info, r.info)
  }

  lemma ReorderedTwice(s: M.State, t: M.State, r: M.State)
    requires Reordered(s, t) && Reordered(t, r)
    ensures Reordered(s, r)
  {
    forall id | id in s.info && id in r.info
      ensures r.info[id] == s.info[id].(randomPos := r.info[id].randomPos)
    {
      assert id in t.info;
    }
  }

  class Manager {
    const h: M.Hashing
    var key: nat
    var idCount: int
    var info: map<int, M.Info>
    var addr: map<M.Ip, int>
    var random: seq<int>
    var nTried: int
    var nNew: int
    var triedTable: map<M.Slot, int>
    var newTable: map<M.Slot, int>
    var lastGood: int

    function View(): M.State
      reads this
    {
      M.State(key, idCount, info, addr, random, nTried, nNew, triedTable, newTable, lastGood)
    }

    ghost predicate Valid()
      reads this
    {
      I.Consistent(h, View())
    }

    // Valid apart from the times.
    ghost predicate Sound()
      reads this
    {
      I.Sound(h, View())
    }

    constructor (h: M.Hashing, key: nat)
      requires h.Ok()
      ensures Valid() && this.h == h && View() == M.Fresh(key)
    {
      this.h := h;
      this.key := key;
      idCount, nTried, nNew, lastGood := 0, 0, 0, 1;
      info, addr, random, triedTable, newTable := map[], map[], [], map[], map[];
      new;
      Ops.FreshConsistent(h, key);
    }

    method Clear(key: nat)
      modifies this
      ensures View() == M.Clear(old(View()), key)
    {
      random, triedTable, newTable := [], map[], map[];
      this.key, idCount, nTried, nNew, lastGood := key, 0, 0, 0, 1;
    }

    method Create(a: M.Address, source: M.Ip) returns (id: int)
      modifies this
      ensures id == old(idCount) && View() == M.Create(old(View()), a, source)
    {
      id := idCount;
      idCount := idCount + 1;
      info := info[id := M.Info(a.service, a.services, a.time, source, 0, 0, 0, 0, 0, false, -1)];
      addr := addr[a.service.ip := id];
      info := info[id := info[id].(randomPos := |random|)];
      random := random + [id];
    }

    method SwapRandom(p1: int, p2: int)
      requires M.CanSwap(View(), p1, p2)
      modifies this
      ensures View() == M.SwapRandom(old(View()), p1, p2)
    {
      if p1 == p2 { return; }
      var id1, id2 := random[p1], random[p2];
      info := info[id1 := info[id1].(randomPos := p2)];
      info := info[id2 := info[id2].(randomPos := p1)];
      random := random[p1 := id2];
      random := random[p2 := id1];
    }

    method Delete(id: int)
      requires M.CanDelete(View(), id)
      modifies this
      ensures View() == M.Delete(old(View()), id)
    {
      var ip := info[id].service.ip;
      SwapRandom(info[id].randomPos, |random| - 1);
      random := random[..|random| - 1];
      addr := addr - {ip};
      info := info - {id};
      nNew := nNew - 1;
    }

    method ClearNew(slot: M.Slot)
      requires M.CanClear(View(), slot)
      modifies this
      ensures View() == M.ClearNew(old(View()), slot)
    {
      if slot in newTable {
        var id := newTable[slot];
        info := info[id := info[id].(refCount := info[id].refCount - 1)];
        newTable := newTable - {slot};
        if info[id].refCount == 0 {
          Delete(id);
        }
      }
    }

    // The first loop of MakeTried.
    method Withdraw(id: int)
      requires h.Ok() && id in info && InPlace(h, key, newTable, id, info[id].service)
      modifies this
      ensures View() == M.Withdraw(old(View()), id)
    {
      hide SlotsUpTo, InPlace;
      ghost var e, table := info[id], newTable;
      WithdrawEnds(h, key, newTable, id, e.service);
      assert info == info[id := e.(refCount := e.refCount - |SlotsUpTo(table, id, 0)|)];
      var bucket := 0;
      while bucket < h.newBuckets
        invariant 0 <= bucket <= h.newBuckets
        invariant View() == old(View()).(info := info, newTable := newTable)
        invariant newTable == table - SlotsUpTo(table, id, bucket)
        invariant info == old(info)[id := e.(refCount := e.refCount - |SlotsUpTo(table, id, bucket)|)]
      {
        WithdrawNext(h, key, table, id, e.service, bucket);
        var slot := M.Slot(bucket, h.Position(key, true, bucket, info[id].service));
        if slot in newTable && newTable[slot] == id {
          newTable := newTable - {slot};
          info := info[id := info[id].(refCount := info[id].refCount - 1)];
        }
        bucket := bucket + 1;
      }
      nNew := nNew - 1;
    }

    method Evict(slot: M.Slot) returns (id: int)
      requires slot in triedTable && triedTable[slot] in info
      modifies this
      ensures id == old(triedTable)[slot] && View() == M.Evict(old(View()), slot)
    {
      id := triedTable[slot];
      info := info[id := info[id].(inTried := false)];
      triedTable := triedTable - {slot};
      nTried := nTried - 1;
    }

    method Readmit(id: int, slot: M.Slot)
      requires id in info
      modifies this
      ensures View() == M.Readmit(old(View()), id, slot)
    {
      info := info[id := info[id].(refCount := 1)];
      newTable := newTable[slot := id];
      nNew := nNew + 1;
    }

    // The middle of MakeTried: the entry that holds the slot goes back to the
    // new table.
    method BackToNew(ghost id: int, slot: M.Slot)
      requires Ops.MidMove(h, View(), id, slot)
      modifies this
      ensures View() == Ops.BackToNew(h, old(View()), id, slot)
    {
      Ops.BackToNewSafe(h, View(), id, slot);
      var prior := Evict(slot);
      var home := h.NewSlot(key, info[prior].service, info[prior].source);
      ClearNew(home);
      Readmit(prior, home);
    }

    method MakeTried(id: int)
      requires Sound() && id in info && !info[id].inTried
      modifies this
      ensures View() == Ops.MakeTried(h, old(View()), id)
    {
      PlacedRight(h, View(), id);
      Ops.WithdrawnMid(h, View(), id);
      var slot := h.TriedSlot(key, info[id].service);
      Ops.VacatedFrame(h, M.Withdraw(View(), id), id, slot);
      Withdraw(id);
      Vacate(id, slot);
      Promote(id, slot);
    }

    method Vacate(ghost id: int, slot: M.Slot)
      requires slot in triedTable ==> Ops.MidMove(h, View(), id, slot)
      modifies this
      ensures View() == Ops.Vacated(h, old(View()), id, slot)
    {
      if slot in triedTable {
        BackToNew(id, slot);
      }
    }

    method Promote(id: int, slot: M.Slot)
      requires id in info
      modifies this
      ensures View() == M.Promote(old(View()), id, slot)
    {
      triedTable := triedTable[slot := id];
      nTried := nTried + 1;
      info := info[id := info[id].(inTried := true)];
    }

    // The search of Good_ for a bucket that holds the entry, from a random
    // start. It never comes back empty-handed.
    method FindBucket(id: int, start: nat) returns (bucket: int)
      requires Sound() && id in info && !info[id].inTried
      ensures 0 <= bucket < h.newBuckets && Ops.InBucket(h, View(), id, bucket)
    {
      Ops.BucketFound(h, View(), id);
      ghost var b: nat :| b < h.newBuckets && Ops.InBucket(h, View(), id, b);
      ghost var goal := Nonlinear.Rotation(b, start, h.newBuckets);
      bucket := SearchFrom(id, start, goal);
    }

    method SearchFrom(id: int, start: nat, ghost goal: nat) returns (bucket: int)
      requires h.Ok() && id in info && goal < h.newBuckets
      requires Ops.InBucket(h, View(), id, (goal + start) % h.newBuckets)
      ensures 0 <= bucket < h.newBuckets && Ops.InBucket(h, View(), id, bucket)
    {
      bucket := -1;
      var n := 0;
      while n < h.newBuckets && bucket == -1
        invariant 0 <= n <= h.newBuckets
        invariant bucket == -1 ==> n <= goal
        invariant bucket != -1 ==> 0 <= bucket < h.newBuckets && Ops.InBucket(h, View(), id, bucket)
      {
        var nB := (n + start) % h.newBuckets;
        var slot := M.Slot(nB, h.Position(key, true, nB, info[id].service));
        if slot in newTable && newTable[slot] == id {
          bucket := nB;
        }
        n := n + 1;
      }
    }

    method Good(a: M.Service, time: int, random: nat)
      requires Valid()
      modifies this
      ensures View() == Ops.Good(h, old(View()), a, time)
      ensures Valid() <==> (time > 0 || !Ops.Matches(old(View()), a))
    {
      Ops.GoodKeeps(h, View(), a, time);
      Ops.GoodParts(h, View(), a, time);
      var move := MarkGood(a, time);
      if move {
        MoveToTried(addr[a.ip], random);
      }
    }

    method MarkGood(a: M.Service, time: int) returns (move: bool)
      modifies this
      ensures View() == Ops.Marked(old(View()), a, time) && move == Ops.Moves(old(View()), a)
    {
      lastGood := time;
      if a.ip !in addr || addr[a.ip] !in info { return false; }
      var id := addr[a.ip];
      if info[id].service != a { return false; }
      info := info[id := info[id].(lastSuccess := time, lastTry := time, attempts := 0)];
      return !info[id].inTried;
    }

    // The rest of Good_ for an entry that is not tried yet.
    method MoveToTried(id: int, random: nat)
      requires Sound() && id in info && !info[id].inTried
      modifies this
      ensures View() == Ops.MakeTried(h, old(View()), id)
    {
      var bucket := FindBucket(id, random);
      if bucket == -1 { return; }
      MakeTried(id);
    }

    // The two branches of Add_: a known address takes over newer information
    // and may want another reference, an unknown one is created.
    method Update(id: int, a: M.Address, penalty: int, now: int, lucky: bool) returns (more: bool)
      requires id in info
      modifies this
      ensures View() == Ops.Refreshed(old(View()), id, a, penalty, now)
      ensures more == Ops.WantsReference(View().info[id], a, lucky)
    {
      info := info[id := Ops.Refresh(info[id], a, penalty, now)];
      more := false;
      if a.time == 0 || (info[id].time != 0 && a.time <= info[id].time) { return; }
      if info[id].inTried { return; }
      if info[id].refCount == M.NEW_BUCKETS_PER_ADDRESS { return; }
      if info[id].refCount > 0 && !lucky { return; }
      more := true;
    }

    method Introduce(a: M.Address, source: M.Ip, penalty: int) returns (id: int)
      modifies this
      ensures id == old(idCount) && View() == Ops.Created(old(View()), a, source, penalty)
    {
      id := Create(a, source);
      info := info[id := info[id].(time := Ops.Max0(info[id].time - penalty))];
      nNew := nNew + 1;
    }

    method Add(a: M.Address, source: M.Ip, timePenalty: int, now: int, lucky: bool) returns (isNew: bool)
      requires Valid()
      modifies this
      ensures Ops.Added(View(), isNew) == Ops.Add(h, old(View()), a, source, timePenalty, now, lucky)
    {
      var penalty := if a.service.ip == source then 0 else timePenalty;
      isNew := false;
      if !h.routable(a.service.ip) { return; }
      if a.service.ip in addr && addr[a.service.ip] in info {
        var id := addr[a.service.ip];
        Ops.PlaceableRefresh(h, View(), id, a, penalty, now, lucky);
        var more := Update(id, a, penalty, now, lucky);
        if more { Place(id, source, now); }
      } else {
        Ops.CreatedOk(h, View(), a, source, penalty);
        var id := Introduce(a, source, penalty);
        isNew := true;
        Place(id, source, now);
      }
    }

    // Enters an entry into a slot, of which another one may have to give way.
    method Refer(id: int, slot: M.Slot)
      requires M.CanClear(View(), slot) && id in M.ClearNew(View(), slot).info
      modifies this
      ensures View() == I.Refer(M.ClearNew(old(View()), slot), id, slot)
    {
      ClearNew(slot);
      info := info[id := info[id].(refCount := info[id].refCount + 1)];
      newTable := newTable[slot := id];
    }

    method Place(id: int, source: M.Ip, now: int)
      requires Ops.CanPlace(h, View(), id)
      modifies this
      ensures View() == Ops.Place(h, old(View()), id, source, now)
    {
      Ops.PlaceCases(h, View(), id, source, now);
      var slot := h.NewSlot(key, info[id].service, source);
      if slot in newTable && newTable[slot] == id { return; }
      var insert := slot !in newTable;
      if !insert {
        var existing := info[newTable[slot]];
        if M.IsTerrible(existing, now) || (existing.refCount > 1 && info[id].refCount == 0) {
          insert := true;
        }
      }
      if insert {
        Refer(id, slot);
      } else if info[id].refCount == 0 {
        Delete(id);
      }
    }

    // Returns distinct good addresses, at most 23% of all and at most 2500, and
    // all good ones if there are fewer. Only the order of vRandom changes.
    method GetAddr(now: int) returns (found: seq<M.Info>)
      requires Valid()
      modifies this
      ensures Valid()
      ensures Reordered(old(View()), View())
      ensures |found| <= Limit(|old(random)|)
      ensures GoodSample(old(info), old(addr), now, found)
      ensures |found| < Limit(|old(random)|) ==> Complete(old(info), now, found)
    {
      var limit := Limit(|random|);
      found := [];
      ghost var ids: seq<int> := [];
      var n := 0;
      while n < |random| && |found| < limit
        invariant 0 <= n <= |random| && |found| <= limit
        invariant Valid() && Reordered(old(View()), View())
        invariant Sampled(info, random, n, now, found, ids)
      {
        ghost var before := View();
        found, ids := SampleOne(n, now, found, ids);
        ReorderedTwice(old(View()), before, View());
        n := n + 1;
      }
      SampleGood(View(), n, now, found, ids);
      SameGood(old(View()), View(), now, found);
      if |found| < limit {
        SampleComplete(View(), now, found, ids);
        SameComplete(old(View()), View(), now, found);
      }
    }

    // One round of GetAddr_.
    method SampleOne(n: nat, now: int, soFar: seq<M.Info>, ghost ids: seq<int>)
      returns (found: seq<M.Info>, ghost ids': seq<int>)
      requires Valid() && n < |random| && Sampled(info, random, n, now, soFar, ids)
      modifies this
      ensures Valid() && Reordered(old(View()), View())
      ensures |soFar| <= |found| <= |soFar| + 1
      ensures Sampled(info, random, n + 1, now, found, ids')
    {
      var r :| 0 <= r < |random| - n;
      Ops.SwapKeeps(h, View(), n, n + r);
      I.SwapRandomSame(View(), n, n + r);
      SwapSampled(View(), n, n + r, n, now, soFar, ids);
      SwapRandom(n, n + r);
      NextSampled(View(), n, now, soFar, ids);
      var ai := info[random[n]];
      found, ids' := soFar, ids;
      if !M.IsTerrible(ai, now) {
        found := found + [ai];
        ids' := ids' + [random[n]];
      }
    }
  }
}
