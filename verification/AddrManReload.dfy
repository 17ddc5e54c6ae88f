/** Loading into a manager that is not new. Clearing leaves mapInfo and mapAddr
    as they are, and loading starts from them, so that entries of before can
    survive a load: exactly when they do no harm is shown here. */
module AddrManReload {
  import opened Options
  import opened AddrMan
  import opened AddrManInv
  import opened AddrManDisk
  import opened AddrManCheck
  import R = AddrManRoundTrip
  import S = AddrManStream

  /* A new manager */

  // The positions in vRandom are right and no id has reached the bound.
  ghost predicate Listed(s: State, bound: int) {
    RandomOk(s.info, s.random) && forall id :: id in s.info ==> id < bound
  }

  lemma NewReadListed(h: Hashing, s: State, n: nat, r: Record, useTable: bool)
    requires h.Ok() && Listed(s, n)
    ensures Listed(NewRead(h, s, n, r, useTable), n + 1)
  {}

  lemma {:induction false} ReadNewListed(h: Hashing, r: Reading, n: nat, useTable: bool)
    requires h.Ok() && Listed(r.s, n) && (n > r.s.nNew ==> r.s.info == map[])
    ensures var p := ReadNew(h, r, n, useTable); p.Done? ==> Listed(p.value.s, p.value.s.nNew)
    decreases r.s.nNew - n
  {
    if n < r.s.nNew && r.rest != [] && r.rest[0].Entry? {
      NewReadListed(h, r.s, n, r.rest[0].r, useTable);
      ReadNewListed(h, Reading(NewRead(h, r.s, n, r.rest[0].r, useTable), r.rest[1..]), n + 1, useTable);
    }
  }

  lemma TriedReadListed(h: Hashing, s: State, r: Record)
    requires h.Ok() && Listed(s, s.idCount)
    ensures Listed(TriedRead(h, s, r), TriedRead(h, s, r).idCount)
  {}

  lemma {:induction false} ReadTriedListed(h: Hashing, r: Reading, n: nat, lost: nat)
    requires h.Ok() && Listed(r.s, r.s.idCount)
    ensures var p := ReadTried(h, r, n, lost); p.Done? ==> RandomOk(p.value.0.s.info, p.value.0.s.random)
    decreases r.s.nTried - n
  {
    if n < r.s.nTried && r.rest != [] && r.rest[0].Entry? {
      TriedReadListed(h, r.s, r.rest[0].r);
      var s := TriedRead(h, r.s, r.rest[0].r);
      ReadTriedListed(h, Reading(s, r.rest[1..]), n + 1, if s == r.s then lost + 1 else lost);
    }
  }

  lemma {:induction false} ReadRowListed(h: Hashing, r: Reading, bucket: nat, size: int, useTable: bool)
    requires h.Ok() && RandomOk(r.s.info, r.s.random)
    ensures var p := ReadRow(h, r, bucket, size, useTable); p.Done? ==> RandomOk(p.value.s.info, p.value.s.random)
    decreases size
  {
    if size > 0 && r.rest != [] && r.rest[0].Int? {
      var s := Attach(h, r.s, bucket, r.rest[0].i, useTable);
      assert RandomOk(s.info, s.random);
      ReadRowListed(h, Reading(s, r.rest[1..]), bucket, size - 1, useTable);
    }
  }

  lemma {:induction false} ReadBucketsListed(h: Hashing, r: Reading, bucket: nat, count: int, useTable: bool)
    requires h.Ok() && RandomOk(r.s.info, r.s.random)
    ensures var p := ReadBuckets(h, r, bucket, count, useTable); p.Done? ==> RandomOk(p.value.s.info, p.value.s.random)
    decreases count - bucket
  {
    if bucket < count && r.rest != [] && r.rest[0].Int? {
      ReadRowListed(h, Reading(r.s, r.rest[1..]), bucket, r.rest[0].i, useTable);
      var row := ReadRow(h, Reading(r.s, r.rest[1..]), bucket, r.rest[0].i, useTable);
      if row.Done? { ReadBucketsListed(h, row.value, bucket + 1, count, useTable); }
    }
  }

  // No deletion fails an assertion where the positions are right.
  lemma {:induction false} PruneSafe(s: State, ids: seq<int>, lost: nat)
    requires RandomOk(s.info, s.random)
    ensures Prune(s, ids, lost).Some?
    decreases ids
  {
    if ids != [] {
      if ids[0] in s.info && Loose(s.info[ids[0]]) {
        DeleteRandom(s, ids[0]);
        PruneSafe(Delete(s, ids[0]), ids[1..], lost + 1);
      } else {
        PruneSafe(s, ids[1..], lost);
      }
    }
  }

  // Whatever the stream, loading into a manager without entries fails no
  // assertion.
  lemma NewNeverAborts(h: Hashing, p: State, key: nat, t: seq<Token>)
    requires h.Ok() && p.info == map[]
    ensures !Unserialize(h, p, key, t).Aborted?
  {
    var s := HeaderRead(Clear(p, key), t);
    if HeaderOk(t) && SizesOk(h, s.nNew, s.nTried) {
      var nUBuckets := if t[0].b != 0 then Flip30(t[5].i) else t[5].i;
      BodySafe(h, s, t[6..], nUBuckets, t[0].b == 1 && nUBuckets == h.newBuckets);
    }
  }

  lemma BodySafe(h: Hashing, s: State, t: seq<Token>, nUBuckets: int, useTable: bool)
    requires h.Ok() && s.info == map[] && s.random == []
    ensures !BodyRead(h, s, t, nUBuckets, useTable).Aborted?
  {
    ReadNewListed(h, Reading(s, t), 0, useTable);
    var r := ReadNew(h, Reading(s, t), 0, useTable);
    if r.Done? {
      TablesSafe(h, r.value.s.(idCount := r.value.s.nNew), r.value.rest, nUBuckets, useTable);
    }
  }

  lemma TablesSafe(h: Hashing, s: State, t: seq<Token>, nUBuckets: int, useTable: bool)
    requires h.Ok() && Listed(s, s.idCount)
    ensures !TablesRead(h, s, t, nUBuckets, useTable).Aborted?
  {
    ReadTriedListed(h, Reading(s, t), 0, 0);
    var r := ReadTried(h, Reading(s, t), 0, 0);
    if r.Done? {
      var s2 := r.value.0.s.(nTried := r.value.0.s.nTried - r.value.1);
      ReadBucketsListed(h, Reading(s2, r.value.0.rest), 0, nUBuckets, useTable);
      var r3 := ReadBuckets(h, Reading(s2, r.value.0.rest), 0, nUBuckets, useTable);
      if r3.Done? { PruneSafe(r3.value.s, Sorted(r3.value.s.info.Keys), 0); }
    }
  }

  /* Entries of before */

  // x is still an entry of before: its references are counted on top of those it
  // had, and it is not in the tried table.
  ghost predicate Stale(s: State, x: int, e: Info) {
    && x in s.info && s.info[x].inTried == e.inTried
    && s.info[x].refCount == e.refCount + |SlotsOf(s.newTable, x)|
    && forall slot :: slot in s.triedTable ==> s.triedTable[slot] != x
  }

  lemma NewReadStale(h: Hashing, s: State, n: nat, r: Record, useTable: bool, x: int, e: Info)
    requires h.Ok() && Stale(s, x, e)
    ensures Stale(NewRead(h, s, n, r, useTable), x, e)
  {
    var slot := h.NewSlot(s.key, r.service, r.source);
    if slot !in s.newTable { SlotsWith(s.newTable, slot, n, x); }
  }

  lemma {:induction false} ReadNewStale(h: Hashing, r: Reading, n: nat, useTable: bool, x: int, e: Info)
    requires h.Ok() && Stale(r.s, x, e)
    ensures var p := ReadNew(h, r, n, useTable);
      p.Done? ==> Stale(p.value.s, x, e) && p.value.s.nNew == r.s.nNew && p.value.s.nTried == r.s.nTried
    decreases r.s.nNew - n
  {
    if n < r.s.nNew && r.rest != [] && r.rest[0].Entry? {
      NewReadStale(h, r.s, n, r.rest[0].r, useTable, x, e);
      ReadNewStale(h, Reading(NewRead(h, r.s, n, r.rest[0].r, useTable), r.rest[1..]), n + 1, useTable, x, e);
    }
  }

  // A tried entry is written over x only if x is among the next ids.
  lemma {:induction false} ReadTriedStale(h: Hashing, r: Reading, n: nat, lost: nat, x: int, e: Info)
    requires h.Ok() && Stale(r.s, x, e) && (r.s.idCount <= x ==> r.s.idCount + r.s.nTried - n <= x)
    ensures var p := ReadTried(h, r, n, lost); p.Done? ==> Stale(p.value.0.s, x, e)
    decreases r.s.nTried - n
  {
    if n < r.s.nTried && r.rest != [] && r.rest[0].Entry? {
      var s := TriedRead(h, r.s, r.rest[0].r);
      assert Stale(s, x, e);
      ReadTriedStale(h, Reading(s, r.rest[1..]), n + 1, if s == r.s then lost + 1 else lost, x, e);
    }
  }

  lemma AttachStale(h: Hashing, s: State, bucket: nat, index: int, useTable: bool, x: int, e: Info)
    requires h.Ok() && Stale(s, x, e)
    ensures Stale(Attach(h, s, bucket, index, useTable), x, e)
  {
    if index in s.info {
      var slot := Slot(bucket, h.Position(s.key, true, bucket, s.info[index].service));
      if slot !in s.newTable { SlotsWith(s.newTable, slot, index, x); }
    }
  }

  lemma {:induction false} ReadRowStale(h: Hashing, r: Reading, bucket: nat, size: int, useTable: bool, x: int, e: Info)
    requires h.Ok() && Stale(r.s, x, e)
    ensures var p := ReadRow(h, r, bucket, size, useTable);
      p.Done? ==> Stale(p.value.s, x, e)
    decreases size
  {
    if size > 0 && r.rest != [] && r.rest[0].Int? {
      AttachStale(h, r.s, bucket, r.rest[0].i, useTable, x, e);
      var s := Attach(h, r.s, bucket, r.rest[0].i, useTable);
      ReadRowStale(h, Reading(s, r.rest[1..]), bucket, size - 1, useTable, x, e);
    }
  }

  lemma {:induction false} ReadBucketsStale(h: Hashing, r: Reading, bucket: nat, count: int, useTable: bool,
                                            x: int, e: Info)
    requires h.Ok() && Stale(r.s, x, e)
    ensures var p := ReadBuckets(h, r, bucket, count, useTable);
      p.Done? ==> Stale(p.value.s, x, e)
    decreases count - bucket
  {
    if bucket < count && r.rest != [] && r.rest[0].Int? {
      ReadRowStale(h, Reading(r.s, r.rest[1..]), bucket, r.rest[0].i, useTable, x, e);
      var row := ReadRow(h, Reading(r.s, r.rest[1..]), bucket, r.rest[0].i, useTable);
      if row.Done? { ReadBucketsStale(h, row.value, bucket + 1, count, useTable, x, e); }
    }
  }

  // An entry had a place in one of the tables.
  predicate HadPlace(e: Info) { if e.inTried then e.refCount == 0 else e.refCount >= 1 }

  lemma DeleteStale(s: State, id: int, x: int, e: Info)
    requires CanDelete(s, id) && Stale(s, x, e) && HadPlace(e)
    ensures Stale(Delete(s, id), x, e)
  {
    assert x != id;
  }

  lemma {:induction false} PruneStale(s: State, ids: seq<int>, lost: nat, x: int, e: Info)
    requires Stale(s, x, e) && HadPlace(e)
    ensures var r := Prune(s, ids, lost); r.Some? ==> Stale(r.value.0, x, e)
    decreases ids
  {
    if ids != [] {
      if ids[0] in s.info && Loose(s.info[ids[0]]) {
        if CanDelete(s, ids[0]) {
          DeleteStale(s, ids[0], x, e);
          PruneStale(Delete(s, ids[0]), ids[1..], lost + 1, x, e);
        }
      } else {
        PruneStale(s, ids[1..], lost, x, e);
      }
    }
  }

  lemma StaleFails(h: Hashing, s: State, x: int, e: Info)
    requires Stale(s, x, e) && HadPlace(e)
    ensures !Passes(h, s)
  {
    if e.inTried && h.Ok() {
      var slot := h.TriedSlot(s.key, s.info[x].service);
      assert slot in s.triedTable ==> s.triedTable[slot] != x;
    }
  }

  lemma TablesStale(h: Hashing, s: State, t: seq<Token>, nUBuckets: int, useTable: bool, x: int, e: Info)
    requires h.Ok() && Stale(s, x, e) && HadPlace(e) && !(s.idCount <= x < s.idCount + s.nTried)
    ensures var l := TablesRead(h, s, t, nUBuckets, useTable); l.Loaded? ==> !Passes(h, l.s)
  {
    hide Stale, Passes;
    ReadTriedStale(h, Reading(s, t), 0, 0, x, e);
    var r := ReadTried(h, Reading(s, t), 0, 0);
    if r.Done? {
      var s2 := r.value.0.s.(nTried := r.value.0.s.nTried - r.value.1);
      ReadBucketsStale(h, Reading(s2, r.value.0.rest), 0, nUBuckets, useTable, x, e);
      var r3 := ReadBuckets(h, Reading(s2, r.value.0.rest), 0, nUBuckets, useTable);
      if r3.Done? { PrunedStale(h, r3.value.s, r.value.1, x, e); }
    }
  }

  lemma PrunedStale(h: Hashing, s: State, nLost: nat, x: int, e: Info)
    requires Stale(s, x, e) && HadPlace(e)
    ensures var l := Pruned(s, nLost); l.Loaded? ==> !Passes(h, l.s)
  {
    var ids := Sorted(s.info.Keys);
    PruneStale(s, ids, 0, x, e);
    var pruned := Prune(s, ids, 0);
    if pruned.Some? { StaleFails(h, pruned.value.0, x, e); }
  }

  lemma BodyStale(h: Hashing, s: State, t: seq<Token>, nUBuckets: int, useTable: bool, x: int, e: Info)
    requires h.Ok() && Stale(s, x, e) && HadPlace(e) && !(s.nNew <= x < s.nNew + s.nTried)
    ensures var l := BodyRead(h, s, t, nUBuckets, useTable); l.Loaded? ==> !Passes(h, l.s)
  {
    ReadNewStale(h, Reading(s, t), 0, useTable, x, e);
    var r := ReadNew(h, Reading(s, t), 0, useTable);
    if r.Done? {
      TablesStale(h, r.value.s.(idCount := r.value.s.nNew), r.value.rest, nUBuckets, useTable, x, e);
    }
  }

  // Whatever the stream: if a manager that was consistent passes the check after
  // loading it, then the ids it had are among those of the tried entries read.
  lemma OnlyOverwritten(h: Hashing, p: State, key: nat, t: seq<Token>, x: int)
    requires Consistent(h, p) && x in p.info
    ensures var l := Unserialize(h, p, key, t);
      l.Loaded? && Passes(h, l.s) ==> HeaderOk(t) && t[3].i <= x < t[3].i + t[4].i
  {
    var s := HeaderRead(Clear(p, key), t);
    if HeaderOk(t) && SizesOk(h, s.nNew, s.nTried) && !(s.nNew <= x < s.nNew + s.nTried) {
      assert SlotsOf(s.newTable, x) == {};
      assert EntryOk(p.info[x], x in {});
      var nUBuckets := if t[0].b != 0 then Flip30(t[5].i) else t[5].i;
      BodyStale(h, s, t[6..], nUBuckets, t[0].b == 1 && nUBuckets == h.newBuckets, x, p.info[x]);
    }
  }

  /* A saved manager over entries of before */

  // s on top of other maps.
  function Over(s: State, info: map<int, Info>, addr: map<Ip, int>): State {
    s.(info := info + s.info, addr := addr + s.addr)
  }

  function OverReading(r: Reading, info: map<int, Info>, addr: map<Ip, int>): Reading {
    Reading(Over(r.s, info, addr), r.rest)
  }

  // None of the ids will be read as a new entry.
  ghost predicate Beyond(info: map<int, Info>, nNew: int) { forall id :: id in info ==> !(0 <= id < nNew) }

  lemma PutOver<K, V>(a: map<K, V>, b: map<K, V>, k: K, v: V)
    ensures (a + b)[k := v] == a + b[k := v]
  {}

  lemma NewReadOver(h: Hashing, s: State, n: nat, r: Record, useTable: bool, info: map<int, Info>, addr: map<Ip, int>)
    requires h.Ok() && n !in info
    ensures NewRead(h, Over(s, info, addr), n, r, useTable) == Over(NewRead(h, s, n, r, useTable), info, addr)
  {
    var t := NewRead(h, s, n, r, useTable);
    PutOver(info, s.info, n, t.info[n]);
    PutOver(addr, s.addr, r.service.ip, n);
  }

  lemma {:induction false} ReadNewOver(h: Hashing, r: Reading, n: nat, info: map<int, Info>, addr: map<Ip, int>)
    requires h.Ok() && Beyond(info, r.s.nNew)
    ensures var p := ReadNew(h, r, n, true);
      p.Done? ==>
        ReadNew(h, OverReading(r, info, addr), n, true) == Done(OverReading(p.value, info, addr))
        && p.value.s.nNew == r.s.nNew
    decreases r.s.nNew - n
  {
    if n < r.s.nNew && r.rest != [] && r.rest[0].Entry? {
      NewReadOver(h, r.s, n, r.rest[0].r, true, info, addr);
      ReadNewOver(h, Reading(NewRead(h, r.s, n, r.rest[0].r, true), r.rest[1..]), n + 1, info, addr);
    }
  }

  lemma TriedReadOver(h: Hashing, s: State, r: Record, info: map<int, Info>, addr: map<Ip, int>)
    requires h.Ok()
    ensures TriedRead(h, Over(s, info, addr), r) == Over(TriedRead(h, s, r), info, addr)
    ensures TriedRead(h, Over(s, info, addr), r) == Over(s, info, addr) <==> TriedRead(h, s, r) == s
  {
    var t := TriedRead(h, s, r);
    PutOver(info, s.info, s.idCount, Restored(r, |s.random|, true));
    PutOver(addr, s.addr, r.service.ip, s.idCount);
    assert t != s ==> |t.random| == |s.random| + 1;
  }

  lemma {:induction false} ReadTriedOver(h: Hashing, r: Reading, n: nat, lost: nat,
                                         info: map<int, Info>, addr: map<Ip, int>)
    requires h.Ok()
    ensures var p := ReadTried(h, r, n, lost);
      p.Done? ==>
        ReadTried(h, OverReading(r, info, addr), n, lost) == Done((OverReading(p.value.0, info, addr), p.value.1))
        && p.value.0.s.nNew == r.s.nNew
    decreases r.s.nTried - n
  {
    if n < r.s.nTried && r.rest != [] && r.rest[0].Entry? {
      TriedReadOver(h, r.s, r.rest[0].r, info, addr);
      var s := TriedRead(h, r.s, r.rest[0].r);
      ReadTriedOver(h, Reading(s, r.rest[1..]), n + 1, if s == r.s then lost + 1 else lost, info, addr);
    }
  }

  lemma AttachOver(h: Hashing, s: State, bucket: nat, index: int, info: map<int, Info>, addr: map<Ip, int>)
    requires h.Ok() && Beyond(info, s.nNew)
    ensures Attach(h, Over(s, info, addr), bucket, index, true) == Over(Attach(h, s, bucket, index, true), info, addr)
  {
    if index in s.info {
      PutOver(info, s.info, index, s.info[index].(refCount := s.info[index].refCount + 1));
    }
  }

  lemma {:induction false} ReadRowOver(h: Hashing, r: Reading, bucket: nat, size: int,
                                       info: map<int, Info>, addr: map<Ip, int>)
    requires h.Ok() && Beyond(info, r.s.nNew)
    ensures var p := ReadRow(h, r, bucket, size, true);
      p.Done? ==>
        ReadRow(h, OverReading(r, info, addr), bucket, size, true) == Done(OverReading(p.value, info, addr))
        && p.value.s.nNew == r.s.nNew
    decreases size
  {
    if size > 0 && r.rest != [] && r.rest[0].Int? {
      AttachOver(h, r.s, bucket, r.rest[0].i, info, addr);
      var s := Attach(h, r.s, bucket, r.rest[0].i, true);
      ReadRowOver(h, Reading(s, r.rest[1..]), bucket, size - 1, info, addr);
    }
  }

  lemma {:induction false} ReadBucketsOver(h: Hashing, r: Reading, bucket: nat, count: int,
                                           info: map<int, Info>, addr: map<Ip, int>)
    requires h.Ok() && Beyond(info, r.s.nNew)
    ensures var p := ReadBuckets(h, r, bucket, count, true);
      p.Done? ==>
        ReadBuckets(h, OverReading(r, info, addr), bucket, count, true) == Done(OverReading(p.value, info, addr))
    decreases count - bucket
  {
    if bucket < count && r.rest != [] && r.rest[0].Int? {
      var first := Reading(r.s, r.rest[1..]);
      ReadRowOver(h, first, bucket, r.rest[0].i, info, addr);
      var row := ReadRow(h, first, bucket, r.rest[0].i, true);
      if row.Done? { ReadBucketsOver(h, row.value, bucket + 1, count, info, addr); }
    }
  }

  lemma ReadsOver(h: Hashing, start: State, body: seq<Token>, entries: Reading, base: Reading, r: Reading,
                  info: map<int, Info>, addr: map<Ip, int>)
    requires R.Reads(h, start, body, entries, base, r) && Beyond(info, start.nNew)
    ensures R.Reads(h, Over(start, info, addr), body,
                    OverReading(entries, info, addr), OverReading(base, info, addr), OverReading(r, info, addr))
  {
    ReadNewOver(h, Reading(start, body), 0, info, addr);
    ReadTriedOver(h, Reading(entries.s.(idCount := entries.s.nNew), entries.rest), 0, 0, info, addr);
    ReadBucketsOver(h, base, 0, h.newBuckets, info, addr);
  }

  // The ids of a manager lie where the tried entries of another will.
  ghost predicate UnderTried(p: State, s: State) {
    forall id :: id in p.info ==> s.nNew <= id < s.nNew + s.nTried
  }

  lemma StartOver(p: State, s: State)
    ensures Over(R.Start(s), p.info, p.addr) == Clear(p, s.key).(nNew := s.nNew, nTried := s.nTried)
  {
    assert p.info + map[] == p.info && p.addr + map[] == p.addr;
  }

  lemma AllOver(p: State, s: State, f: State)
    requires UnderTried(p, s) && s.idCount >= 0 && |R.Order(s)| == s.nNew + s.nTried && s.nNew >= 0
    requires R.Renamed(s, R.Order(s), f)
    ensures p.info + f.info == f.info
  {
    forall id | id in p.info ensures id in f.info { assert 0 <= id < |R.Order(s)|; }
  }

  // If so, the entries of before are written over, and only the addresses stay.
  lemma LoadsOver(h: Hashing, p: State, key: nat, s: State) returns (f: State)
    requires Consistent(h, s) && UnderTried(p, s)
    ensures Unserialize(h, p, key, Serialize(h, s)) == Loaded(f.(addr := p.addr + f.addr), 0, 0)
    ensures Consistent(h, f) && R.Indices(s, R.Order(s), f) && R.Renamed(s, R.Order(s), f)
  {
    R.ConsistentTyped(h, s);
    R.OrderIsGood(s);
    R.SerializedHeader(h, s, p, key);
    var entries, base, r := R.ReadAll(h, s, R.Order(s));
    f := r.s;
    R.RenamedConsistent(h, s, R.Order(s), f);
    ReadsOver(h, R.Start(s), R.Body(h, s, R.Order(s)), entries, base, r, p.info, p.addr);
    StartOver(p, s);
    AllOver(p, s, f);
    R.LoadsParts(h, p, key, Serialize(h, s), OverReading(entries, p.info, p.addr),
                 OverReading(base, p.info, p.addr), OverReading(r, p.info, p.addr));
  }

  lemma SameAddresses(h: Hashing, s: State, f: State)
    requires Consistent(h, s) && R.Indices(s, R.Order(s), f) && R.Renamed(s, R.Order(s), f)
    ensures f.addr.Keys == s.addr.Keys
  {
    var order := R.Order(s);
    forall ip | ip in f.addr ensures ip in s.addr {
      var id := order[f.addr[ip]];
      assert id in s.info && s.info[id].service.ip == ip;
    }
    forall ip | ip in s.addr ensures ip in f.addr {
      var id := s.addr[ip];
      assert id in s.info && s.info[id].service.ip == ip;
      var j :| 0 <= j < |order| && order[j] == id;
    }
  }

  // More addresses do not matter to the check; they do to consistency.
  lemma MoreAddressesPass(h: Hashing, f: State, addr: map<Ip, int>)
    requires Passes(h, f)
    ensures Passes(h, f.(addr := addr + f.addr))
  {
    var g := f.(addr := addr + f.addr);
    forall id | id in g.info ensures EntryPasses(g.info, g.addr, g.random, id) {
      assert EntryPasses(f.info, f.addr, f.random, id);
    }
  }

  lemma MoreAddressesUnseen(f: State, addr: map<Ip, int>)
    requires Indexed(f)
    ensures Unseen(f.(addr := addr + f.addr)) <==> addr.Keys <= f.addr.Keys
  {
    var g := f.(addr := addr + f.addr);
    if ip :| ip in addr && ip !in f.addr {
      var id := g.addr[ip];
      if id in f.info { assert f.info[id].service.ip in f.addr; }
      assert ip in g.addr;
    } else {
      assert g.addr == f.addr;
    }
  }

  lemma MoreAddresses(h: Hashing, f: State, addr: map<Ip, int>)
    requires Consistent(h, f)
    ensures var g := f.(addr := addr + f.addr);
      Passes(h, g) && (Consistent(h, g) <==> addr.Keys <= f.addr.Keys)
  {
    PassesMeans(h, f);
    MoreAddressesPass(h, f, addr);
    MoreAddressesUnseen(f, addr);
    PassesMeans(h, f.(addr := addr + f.addr));
  }

  // Loading what one consistent manager saved into another passes the check if
  // and only if the old ids lie where the tried entries are read; it gives a
  // consistent manager if and only if, besides, no old address is missing.
  lemma Reload(h: Hashing, p: State, key: nat, s: State)
    requires Consistent(h, p) && Consistent(h, s)
    ensures var l := Unserialize(h, p, key, Serialize(h, s));
      && (l.Loaded? && Passes(h, l.s) <==> UnderTried(p, s))
      && (l.Loaded? && Consistent(h, l.s) <==> UnderTried(p, s) && p.addr.Keys <= s.addr.Keys)
  {
    var l := Unserialize(h, p, key, Serialize(h, s));
    if UnderTried(p, s) {
      var f := LoadsOver(h, p, key, s);
      MoreAddresses(h, f, p.addr);
      SameAddresses(h, s, f);
    } else {
      var x :| x in p.info && !(s.nNew <= x < s.nNew + s.nTried);
      OnlyOverwritten(h, p, key, Serialize(h, s), x);
      R.SerializedHeader(h, s, p, key);
      if l.Loaded? { PassesMeans(h, l.s); }
    }
  }

  /* Streams that do harm */

  // A stream of no entries leaves all of the old ones behind, but for one that
  // has no place, whose deletion fails an assertion.
  lemma LoadsEmpty(h: Hashing, p: State, key: nat, key': nat)
    requires h.Ok()
    ensures var l := Unserialize(h, p, key, EmptyStream(key'));
      if exists id :: id in p.info && Loose(p.info[id]) then l.Aborted? else l == Loaded(Clear(p, key'), 0, 0)
  {
    var s := Clear(p, key');
    if x :| x in p.info && Loose(p.info[x]) {
      SortedHas(s.info.Keys, x);
      PruneFails(s, Sorted(s.info.Keys), 0, x);
    } else {
      R.NothingPruned(s, Sorted(s.info.Keys), 0);
    }
  }

  function EmptyStream(key: nat): seq<Token> { [Byte(0), Byte(32), Key(key), Int(0), Int(0), Int(0)] }

  lemma {:induction false} SortedHas(ids: set<int>, x: int)
    requires x in ids
    ensures x in Sorted(ids)
    decreases |ids|
  {
    if x != Smallest(ids) { SortedHas(ids - {Smallest(ids)}, x); }
  }

  lemma {:induction false} PruneFails(s: State, ids: seq<int>, lost: nat, x: int)
    requires s.random == [] && x in ids && x in s.info && Loose(s.info[x])
    ensures Prune(s, ids, lost).None?
  {
    if x != ids[0] { PruneFails(s, ids[1..], lost, x); }
  }

  // On it, a manager that held an entry no longer passes.
  lemma EmptyFails(h: Hashing, p: State, key: nat, key': nat)
    requires Consistent(h, p)
    ensures Unserialize(h, p, key, EmptyStream(key')) == Loaded(Clear(p, key'), 0, 0)
    ensures Passes(h, Clear(p, key')) <==> p.info == map[]
  {
    LoadsEmpty(h, p, key, key');
    R.NotLoose(p.info);
    if p.info == map[] {
      assert TriedIds(map[]) == {};
    } else {
      var x := Pick(p.info.Keys);
      assert !EntryPasses(p.info, p.addr, [], x);
    }
  }

  // A stream that breaks off leaves entries behind. If one was tried, the manager
  // cannot be saved even after it was cleared; if one is new and the buckets did
  // not come, the next load fails an assertion.
  function Cut(h: Hashing, key: nat, nNew: int, nTried: int, r: Record): seq<Token> {
    [Byte(1), Byte(32), Key(key), Int(nNew), Int(nTried), Int(Flip30(h.newBuckets)), Entry(r)]
  }

  lemma CutBody(h: Hashing, p: State, key: nat, key': nat, nNew: int, nTried: int, r: Record)
    requires h.Ok() && SizesOk(h, nNew, nTried)
    ensures Unserialize(h, p, key, Cut(h, key', nNew, nTried, r))
      == BodyRead(h, Clear(p, key').(nNew := nNew, nTried := nTried), [Entry(r)], h.newBuckets, true)
  {
    R.FlipTwice(h.newBuckets);
    assert Cut(h, key', nNew, nTried, r)[6..] == [Entry(r)];
  }

  lemma CutTried(h: Hashing, key: nat, key': nat, r: Record)
    requires h.Ok() && h.triedBuckets * h.bucketSize >= 2
    ensures var l := Unserialize(h, Fresh(key), key, Cut(h, key', 0, 2, r));
      l.Failed? && forall k: nat :: S.Fires(Clear(l.left, k))
  {
    CutBody(h, Fresh(key), key, key', 0, 2, r);
    var t := CutTriedLeaves(h, key', r);
    forall k: nat ensures S.Fires(Clear(t, k)) { S.ClearedFires(t, k); }
  }

  lemma CutTriedLeaves(h: Hashing, key: nat, r: Record) returns (t: State)
    requires h.Ok()
    ensures BodyRead(h, Clear(Fresh(key), key).(nNew := 0, nTried := 2), [Entry(r)], h.newBuckets, true) == Failed(t)
    ensures 0 in t.info && t.info[0].inTried
  {
    var s := Fresh(key).(nTried := 2);
    t := TriedRead(h, s, r);
    assert ReadNew(h, Reading(s, [Entry(r)]), 0, true) == Done(Reading(s, [Entry(r)]));
    assert [Entry(r)][1..] == [];
    assert ReadTried(h, Reading(t, []), 1, 0) == Broken(t);
    assert t != s by { assert |t.random| == 1; }
    assert ReadTried(h, Reading(s, [Entry(r)]), 0, 0) == Broken(t);
  }

  lemma CutNew(h: Hashing, key: nat, key': nat, r: Record)
    requires h.Ok()
    ensures var l := Unserialize(h, Fresh(key), key, Cut(h, key', 1, 1, r));
      l.Failed? && forall k: nat, k': nat :: Unserialize(h, l.left, k, EmptyStream(k')).Aborted?
  {
    assert h.newBuckets * h.bucketSize >= 1 && h.triedBuckets * h.bucketSize >= 1;
    CutBody(h, Fresh(key), key, key', 1, 1, r);
    var left := CutNewLeaves(h, key', r);
    forall k: nat, k': nat ensures Unserialize(h, left, k, EmptyStream(k')).Aborted? {
      LoadsEmpty(h, left, k, k');
    }
  }

  lemma CutNewLeaves(h: Hashing, key: nat, r: Record) returns (left: State)
    requires h.Ok()
    ensures BodyRead(h, Clear(Fresh(key), key).(nNew := 1, nTried := 1), [Entry(r)], h.newBuckets, true)
      == Failed(left)
    ensures 0 in left.info && Loose(left.info[0])
  {
    var s := Fresh(key).(nNew := 1, nTried := 1);
    var t := NewRead(h, s, 0, r, true);
    assert [Entry(r)][1..] == [];
    assert ReadNew(h, Reading(t, []), 1, true) == Done(Reading(t, []));
    assert ReadNew(h, Reading(s, [Entry(r)]), 0, true) == Done(Reading(t, []));
    left := t.(idCount := 1);
    assert ReadTried(h, Reading(left, []), 0, 0) == Broken(left);
  }
}
