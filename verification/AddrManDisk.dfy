/** Saving the address manager to a stream and loading it again. The stream is
    a sequence of typed tokens; byte encodings are not part of this model. */
module AddrManDisk {
  import opened Options
  import opened AddrMan
  import opened AddrManInv

  // The part of an entry that is written to disk.
  datatype Record = Record(
    service: Service, services: set<nat>, time: int, source: Ip, lastSuccess: int, attempts: int)

  datatype Token = Byte(b: nat) | Key(k: nat) | Int(i: int) | Entry(r: Record)

  function Saved(i: Info): Record {
    Record(i.service, i.services, i.time, i.source, i.lastSuccess, i.attempts)
  }

  // An entry just read: memory-only fields have their initial values.
  function Restored(r: Record, pos: int, tried: bool): Info {
    Info(r.service, r.services, r.time, r.source, 0, 0, r.lastSuccess, r.attempts, 0, tried, pos)
  }

  // A record read over an entry that is there already: the fields that are not
  // on disk stay.
  function Reread(i: Info, r: Record, pos: int): Info {
    i.(service := r.service, services := r.services, time := r.time, source := r.source,
       lastSuccess := r.lastSuccess, attempts := r.attempts, randomPos := pos)
  }

  // n XOR 2^30
  function Flip30(n: int): int {
    if (n / 0x4000_0000) % 2 == 0 then n + 0x4000_0000 else n - 0x4000_0000
  }

  // ------------------------------------------------------------- Serialize

  // The ids below n that have references (or are tried), in increasing order,
  // as the iteration over mapInfo meets them.
  function NewList(info: map<int, Info>, n: nat): seq<int> {
    if n == 0 then []
    else NewList(info, n - 1) + (if n - 1 in info && info[n - 1].refCount != 0 then [n - 1] else [])
  }

  function TriedList(info: map<int, Info>, n: nat): seq<int> {
    if n == 0 then []
    else TriedList(info, n - 1) + (if n - 1 in info && info[n - 1].inTried then [n - 1] else [])
  }

  function Records(info: map<int, Info>, ids: seq<int>): seq<Token> {
    seq(|ids|, k requires 0 <= k < |ids| =>
      if ids[k] in info then Entry(Saved(info[ids[k]])) else Int(0))
  }

  // mapUnkIds: how many new entries come before this id.
  function NewIndex(info: map<int, Info>, id: int): nat {
    if id <= 0 then 0 else |NewList(info, id)|
  }

  function BucketTokens(s: State, bucket: nat, pos: nat, size: nat): seq<Token>
    decreases size - pos
  {
    if pos >= size then []
    else
      var rest := BucketTokens(s, bucket, pos + 1, size);
      if Slot(bucket, pos) in s.newTable
      then [Int(NewIndex(s.info, s.newTable[Slot(bucket, pos)]))] + rest else rest
  }

  function Buckets(h: Hashing, s: State, bucket: nat): seq<Token>
    decreases h.newBuckets - bucket
  {
    if bucket >= h.newBuckets then []
    else
      var row := BucketTokens(s, bucket, 0, h.bucketSize);
      [Int(|row|)] + row + Buckets(h, s, bucket + 1)
  }

  function Serialize(h: Hashing, s: State): seq<Token>
    requires s.idCount >= 0
  {
    [Byte(1), Byte(32), Key(s.key), Int(s.nNew), Int(s.nTried), Int(Flip30(h.newBuckets))]
    + Records(s.info, NewList(s.info, s.idCount))
    + Records(s.info, TriedList(s.info, s.idCount))
    + Buckets(h, s, 0)
  }

  // ----------------------------------------------------------- Unserialize

  // A state under construction and the tokens not read yet.
  datatype Reading = Reading(s: State, rest: seq<Token>)

  // What a reading loop leaves: the state it has built when the stream breaks
  // off, or its result.
  datatype Progress<T> = Broken(s: State) | Done(value: T)

  // One new entry. Without the tables of the stream, the slot of its own source
  // is used if it is free.
  function NewRead(h: Hashing, s: State, n: nat, r: Record, useTable: bool): State
    requires h.Ok()
  {
    var i := if n in s.info then Reread(s.info[n], r, |s.random|) else Restored(r, |s.random|, false);
    var slot := h.NewSlot(s.key, i.service, i.source);
    var place := !useTable && slot !in s.newTable;
    s.(info := s.info[n := if place then i.(refCount := i.refCount + 1) else i], addr := s.addr[i.service.ip := n],
       random := s.random + [n], newTable := if place then s.newTable[slot := n] else s.newTable)
  }

  function ReadNew(h: Hashing, r: Reading, n: nat, useTable: bool): Progress<Reading>
    requires h.Ok()
    decreases r.s.nNew - n
  {
    if n >= r.s.nNew then Done(r)
    else if r.rest == [] || !r.rest[0].Entry? then Broken(r.s)
    else
      ReadNew(h, Reading(NewRead(h, r.s, n, r.rest[0].r, useTable), r.rest[1..]), n + 1, useTable)
  }

  // A slot of a table is written; -1 is the mark of an empty slot. A stream with
  // a negative number of new entries gives that id to a tried one.
  function Stored(table: map<Slot, int>, slot: Slot, id: int): map<Slot, int> {
    if id == -1 then table - {slot} else table[slot := id]
  }

  // One tried entry. It is lost if its slot is taken.
  function TriedRead(h: Hashing, s: State, r: Record): State
    requires h.Ok()
  {
    var i := Restored(r, |s.random|, true);
    var slot := h.TriedSlot(s.key, i.service);
    if slot in s.triedTable then s
    else s.(info := s.info[s.idCount := i], addr := s.addr[i.service.ip := s.idCount], random := s.random + [s.idCount],
            triedTable := Stored(s.triedTable, slot, s.idCount), idCount := s.idCount + 1)
  }

  function ReadTried(h: Hashing, r: Reading, n: nat, lost: nat): Progress<(Reading, nat)>
    requires h.Ok()
    decreases r.s.nTried - n
  {
    if n >= r.s.nTried then Done((r, lost))
    else if r.rest == [] || !r.rest[0].Entry? then Broken(r.s)
    else
      var s := TriedRead(h, r.s, r.rest[0].r);
      ReadTried(h, Reading(s, r.rest[1..]), n + 1, if s == r.s then lost + 1 else lost)
  }

  // One index of a bucket.
  function Attach(h: Hashing, s: State, bucket: nat, index: int, useTable: bool): State
    requires h.Ok()
  {
    if 0 <= index < s.nNew && index in s.info then
      var i := s.info[index];
      var slot := Slot(bucket, h.Position(s.key, true, bucket, i.service));
      if useTable && slot !in s.newTable && i.refCount < NEW_BUCKETS_PER_ADDRESS then
        s.(info := s.info[index := i.(refCount := i.refCount + 1)], newTable := s.newTable[slot := index])
      else s
    else s
  }

  function ReadRow(h: Hashing, r: Reading, bucket: nat, size: int, useTable: bool): Progress<Reading>
    requires h.Ok()
    decreases size
  {
    if size <= 0 then Done(r)
    else if r.rest == [] || !r.rest[0].Int? then Broken(r.s)
    else ReadRow(h, Reading(Attach(h, r.s, bucket, r.rest[0].i, useTable), r.rest[1..]), bucket, size - 1, useTable)
  }

  function ReadBuckets(h: Hashing, r: Reading, bucket: nat, count: int, useTable: bool): Progress<Reading>
    requires h.Ok()
    decreases count - bucket
  {
    if bucket >= count then Done(r)
    else if r.rest == [] || !r.rest[0].Int? then Broken(r.s)
    else
      var row := ReadRow(h, Reading(r.s, r.rest[1..]), bucket, r.rest[0].i, useTable);
      if row.Broken? then row else ReadBuckets(h, row.value, bucket + 1, count, useTable)
  }

  // An entry without a place in a table.
  predicate Loose(i: Info) { !i.inTried && i.refCount == 0 }

  // Delete the entries that found no place, in increasing order of id; nothing if
  // an assertion of a deletion fails.
  function Prune(s: State, ids: seq<int>, lost: nat): Option<(State, nat)>
    decreases ids
  {
    if ids == [] then Some((s, lost))
    else if ids[0] in s.info && Loose(s.info[ids[0]]) then
      if CanDelete(s, ids[0]) then Prune(Delete(s, ids[0]), ids[1..], lost + 1) else None
    else Prune(s, ids[1..], lost)
  }

  // An exception with what it leaves behind, a failed assertion, or the loaded
  // state with the numbers of tried and new entries lost.
  datatype Load = Failed(left: State) | Aborted | Loaded(s: State, nLost: nat, nLostUnk: nat)

  ghost function Pruned(s: State, nLost: nat): Load {
    var pruned := Prune(s, Sorted(s.info.Keys), 0);
    if pruned.None? then Aborted else Loaded(pruned.value.0, nLost, pruned.value.1)
  }

  // What is read after the new entries.
  ghost function TablesRead(h: Hashing, s: State, t: seq<Token>, nUBuckets: int, useTable: bool): Load
    requires h.Ok()
  {
    var r := ReadTried(h, Reading(s, t), 0, 0);
    if r.Broken? then Failed(r.s)
    else
      var s2 := r.value.0.s.(nTried := r.value.0.s.nTried - r.value.1);
      var r3 := ReadBuckets(h, Reading(s2, r.value.0.rest), 0, nUBuckets, useTable);
      if r3.Broken? then Failed(r3.s) else Pruned(r3.value.s, r.value.1)
  }

  ghost function BodyRead(h: Hashing, s: State, t: seq<Token>, nUBuckets: int, useTable: bool): Load
    requires h.Ok()
  {
    var r := ReadNew(h, Reading(s, t), 0, useTable);
    if r.Broken? then Failed(r.s)
    else TablesRead(h, r.value.s.(idCount := r.value.s.nNew), r.value.rest, nUBuckets, useTable)
  }

  predicate HeaderOk(t: seq<Token>) {
    |t| >= 6 && t[0].Byte? && t[1].Byte? && t[2].Key? && t[3].Int? && t[4].Int? && t[5].Int? && t[1].b == 32
  }

  predicate SizesOk(h: Hashing, nNew: int, nTried: int) {
    nNew <= h.newBuckets * h.bucketSize && nTried <= h.triedBuckets * h.bucketSize
  }

  // The fields of a header, as far as it goes.
  function HeaderRead(s: State, t: seq<Token>): State {
    if |t| < 3 || !t[0].Byte? || !t[1].Byte? || t[1].b != 32 || !t[2].Key? then s
    else if |t| < 4 || !t[3].Int? then s.(key := t[2].k)
    else if |t| < 5 || !t[4].Int? then s.(key := t[2].k, nNew := t[3].i)
    else s.(key := t[2].k, nNew := t[3].i, nTried := t[4].i)
  }

  // Reading a stream into a manager, which is cleared first and given some key.
  ghost function Unserialize(h: Hashing, s: State, key: nat, t: seq<Token>): Load
    requires h.Ok()
  {
    var s := HeaderRead(Clear(s, key), t);
    if !HeaderOk(t) || !SizesOk(h, s.nNew, s.nTried) then Failed(s)
    else
      var nUBuckets := if t[0].b != 0 then Flip30(t[5].i) else t[5].i;
      var useTable := t[0].b == 1 && nUBuckets == h.newBuckets;
      BodyRead(h, s, t[6..], nUBuckets, useTable)
  }

  // ------------------------------------------------------------ ids in order

  ghost predicate IsSmallest(ids: set<int>, m: int) { m in ids && forall x :: x in ids ==> m <= x }

  lemma {:induction false} HasSmallest(ids: set<int>)
    requires ids != {}
    ensures exists m :: IsSmallest(ids, m)
    decreases |ids|
  {
    var m := Pick(ids);
    var rest := ids - {m};
    if rest != {} {
      HasSmallest(rest);
      var k :| IsSmallest(rest, k);
      assert forall x :: x in ids ==> x == m || x in rest;
      assert IsSmallest(ids, if k < m then k else m);
    } else {
      assert ids == {m};
      assert IsSmallest(ids, m);
    }
  }

  ghost function Smallest(ids: set<int>): (m: int)
    requires ids != {}
    ensures IsSmallest(ids, m)
  {
    HasSmallest(ids);
    var m :| IsSmallest(ids, m);
    m
  }

  // As the iteration over mapInfo meets them.
  ghost function Sorted(ids: set<int>): seq<int>
    decreases |ids|
  { if ids == {} then [] else [Smallest(ids)] + Sorted(ids - {Smallest(ids)}) }
}
