/** Saving and loading an address manager object, loop by loop. Saving fails an
    assertion exactly when more entries are met than a counter says, and writes
    the stream of AddrManDisk for a consistent manager; loading does what
    AddrManDisk says for any stream and any manager. */
module AddrManStream {
  import opened Options
  import opened AddrMan
  import opened AddrManInv
  import opened AddrManDisk
  import RoundTrip = AddrManRoundTrip
  import opened AddrManObject

  /* Saving */

  // The entries of one table among some ids, in their order: the tried ones, or
  // those with references.
  function Listing(info: map<int, Info>, ids: seq<int>, tried: bool): seq<int> {
    if ids == [] then []
    else
      var id := ids[|ids| - 1];
      Listing(info, ids[..|ids| - 1], tried) + if id in info && Written(info[id], tried) then [id] else []
  }

  predicate Written(i: Info, tried: bool) { if tried then i.inTried else i.refCount != 0 }

  function IdsBelow(info: map<int, Info>, n: int): set<int> { set id | id in info && id < n }

  lemma {:induction false} SortedTop(ids: set<int>, top: int)
    requires forall id :: id in ids ==> id < top
    ensures Sorted(ids + {top}) == Sorted(ids) + [top]
    decreases |ids|
  {
    var all := ids + {top};
    if ids == {} {
      assert all == {top};
      assert Smallest(all) == top && all - {top} == {};
    } else {
      var m := Smallest(ids);
      assert Smallest(all) == m && all - {m} == (ids - {m}) + {top};
      SortedTop(ids - {m}, top);
    }
  }

  lemma ListingNext(info: map<int, Info>, ids: seq<int>, id: int, tried: bool)
    ensures Listing(info, ids + [id], tried)
      == Listing(info, ids, tried) + if id in info && Written(info[id], tried) then [id] else []
  {
    assert (ids + [id])[..|ids|] == ids;
  }

  lemma BelowNext(info: map<int, Info>, n: int, tried: bool)
    ensures Listing(info, Sorted(IdsBelow(info, n + 1)), tried)
      == Listing(info, Sorted(IdsBelow(info, n)), tried) + if n in info && Written(info[n], tried) then [n] else []
  {
    if n in info {
      SortedTop(IdsBelow(info, n), n);
      assert IdsBelow(info, n + 1) == IdsBelow(info, n) + {n};
      ListingNext(info, Sorted(IdsBelow(info, n)), n, tried);
    } else {
      assert IdsBelow(info, n + 1) == IdsBelow(info, n);
    }
  }

  // Where no id is negative, these are the lists of the stream.
  lemma {:induction false} ListingIs(info: map<int, Info>, n: nat)
    requires forall id :: id in info ==> id >= 0
    ensures Listing(info, Sorted(IdsBelow(info, n)), false) == NewList(info, n)
    ensures Listing(info, Sorted(IdsBelow(info, n)), true) == TriedList(info, n)
  {
    if n > 0 {
      ListingIs(info, n - 1);
      BelowNext(info, n - 1, false);
      BelowNext(info, n - 1, true);
    } else {
      assert IdsBelow(info, 0) == {};
    }
  }

  // How many entries have been written before an id.
  ghost function Index(info: map<int, Info>, id: int): nat { |Listing(info, Sorted(IdsBelow(info, id)), false)| }

  lemma RecordsNext(info: map<int, Info>, ids: seq<int>, id: int)
    requires id in info
    ensures Records(info, ids + [id]) == Records(info, ids) + [Entry(Saved(info[id]))]
  {}

  method FindSmallest(ids: set<int>) returns (m: int)
    requires ids != {}
    ensures m == Smallest(ids)
  {
    m := Choose(ids);
    var rest := ids - {m};
    while rest != {}
      invariant m in ids && rest <= ids && forall x :: x in ids && x !in rest ==> m <= x
      decreases |rest|
    {
      var x := Choose(rest);
      rest := rest - {x};
      if x < m {
        m := x;
      }
    }
    assert IsSmallest(ids, m) && IsSmallest(ids, Smallest(ids));
  }

  // The ids still to come are those from some id on.
  ghost predicate Split(info: map<int, Info>, todo: set<int>) {
    todo <= info.Keys && forall id, x :: id in info && id !in todo && x in todo ==> id < x
  }

  // More of the entries are met than the counter says.
  ghost predicate TooMany(info: map<int, Info>, count: int, tried: bool) {
    0 <= count < |Listing(info, Sorted(info.Keys), tried)|
  }

  ghost predicate Numbered(info: map<int, Info>, done: set<int>, numbers: map<int, int>) {
    forall id :: id in info && id in done ==> id in numbers && numbers[id] == Index(info, id)
  }

  lemma SplitNext(info: map<int, Info>, todo: set<int>, n: int, tried: bool)
    requires Split(info, todo) && n in todo && n == Smallest(todo)
    ensures Split(info, todo - {n}) && info.Keys - todo == IdsBelow(info, n)
    ensures Listing(info, Sorted(info.Keys - (todo - {n})), tried)
      == Listing(info, Sorted(info.Keys - todo), tried) + if Written(info[n], tried) then [n] else []
  {
    assert info.Keys - todo == IdsBelow(info, n);
    assert info.Keys - (todo - {n}) == IdsBelow(info, n + 1);
    BelowNext(info, n, tried);
  }

  lemma {:induction false} ListingGrows(info: map<int, Info>, todo: set<int>, tried: bool)
    requires Split(info, todo)
    ensures |Listing(info, Sorted(info.Keys - todo), tried)| <= |Listing(info, Sorted(info.Keys), tried)|
    decreases |todo|
  {
    if todo == {} {
      assert info.Keys - todo == info.Keys;
    } else {
      SplitNext(info, todo, Smallest(todo), tried);
      ListingGrows(info, todo - {Smallest(todo)}, tried);
    }
  }

  // The entries outside of todo have been written.
  ghost predicate WrittenSoFar(info: map<int, Info>, todo: set<int>, tried: bool, nIds: nat, t: seq<Token>) {
    var ids := Listing(info, Sorted(info.Keys - todo), tried);
    Split(info, todo) && nIds == |ids| && t == Records(info, ids)
  }

  lemma WrittenNext(info: map<int, Info>, todo: set<int>, tried: bool, nIds: nat, t: seq<Token>, id: int)
    requires WrittenSoFar(info, todo, tried, nIds, t) && id in todo && id == Smallest(todo)
    ensures if Written(info[id], tried)
      then WrittenSoFar(info, todo - {id}, tried, nIds + 1, t + [Entry(Saved(info[id]))])
      else WrittenSoFar(info, todo - {id}, tried, nIds, t)
  {
    SplitNext(info, todo, id, tried);
    RecordsNext(info, Listing(info, Sorted(info.Keys - todo), tried), id);
  }

  lemma NumberedNext(info: map<int, Info>, todo: set<int>, nIds: nat, t: seq<Token>, numbers: map<int, int>, id: int)
    requires WrittenSoFar(info, todo, false, nIds, t) && id in todo && id == Smallest(todo)
    requires Numbered(info, info.Keys - todo, numbers)
    ensures Numbered(info, info.Keys - (todo - {id}), numbers[id := nIds])
  {
    SplitNext(info, todo, id, false);
  }

  lemma WriteFails(info: map<int, Info>, todo: set<int>, tried: bool, nIds: nat, t: seq<Token>, id: int)
    requires WrittenSoFar(info, todo, tried, nIds, t) && id in todo && id == Smallest(todo)
    requires Written(info[id], tried)
    ensures TooMany(info, nIds, tried)
  {
    SplitNext(info, todo, id, tried);
    ListingGrows(info, todo - {id}, tried);
  }

  // One of the two loops over mapInfo. The first one also numbers the entries.
  method WriteEntries(info: map<int, Info>, count: int, tried: bool)
    returns (fired: bool, t: seq<Token>, numbers: map<int, int>)
    ensures fired <==> TooMany(info, count, tried)
    ensures !fired ==> t == Records(info, Listing(info, Sorted(info.Keys), tried))
    ensures !fired && !tried ==> Numbered(info, info.Keys, numbers)
  {
    t, numbers := [], map[];
    var todo := info.Keys;
    var nIds := 0;
    assert info.Keys - todo == {};
    while todo != {}
      invariant WrittenSoFar(info, todo, tried, nIds, t) && (count >= 0 ==> nIds <= count)
      invariant !tried ==> Numbered(info, info.Keys - todo, numbers)
      decreases |todo|
    {
      var id := FindSmallest(todo);
      WrittenNext(info, todo, tried, nIds, t, id);
      if !tried { NumberedNext(info, todo, nIds, t, numbers, id); }
      numbers := numbers[id := nIds];
      if Written(info[id], tried) {
        if nIds == count {
          WriteFails(info, todo, tried, nIds, t, id);
          return true, t, numbers;
        }
        t := t + [Entry(Saved(info[id]))];
        nIds := nIds + 1;
      }
      todo := todo - {id};
    }
    assert info.Keys - todo == info.Keys;
    return false, t, numbers;
  }

  method CountBucket(newTable: map<Slot, int>, bucket: nat, size: nat, ghost s: State) returns (n: nat)
    requires s.newTable == newTable
    ensures n == |BucketTokens(s, bucket, 0, size)|
  {
    n := 0;
    for i := 0 to size
      invariant n + |BucketTokens(s, bucket, i, size)| == |BucketTokens(s, bucket, 0, size)|
    {
      if Slot(bucket, i) in newTable {
        n := n + 1;
      }
    }
  }

  ghost predicate SlotsNumbered(s: State, numbers: map<int, int>) {
    forall slot :: slot in s.newTable ==>
      s.newTable[slot] in numbers && numbers[s.newTable[slot]] == NewIndex(s.info, s.newTable[slot])
  }

  // A number that is missing reads as zero.
  method WriteBucket(newTable: map<Slot, int>, numbers: map<int, int>, bucket: nat, size: nat, ghost s: State)
    returns (t: seq<Token>)
    requires s.newTable == newTable
    ensures SlotsNumbered(s, numbers) ==> t == BucketTokens(s, bucket, 0, size)
  {
    t := [];
    for i := 0 to size
      invariant SlotsNumbered(s, numbers) ==>
        t + BucketTokens(s, bucket, i, size) == BucketTokens(s, bucket, 0, size)
    {
      if Slot(bucket, i) in newTable {
        var id := newTable[Slot(bucket, i)];
        t := t + [Int(if id in numbers then numbers[id] else 0)];
      }
    }
  }

  method WriteBuckets(m: Manager, numbers: map<int, int>) returns (t: seq<Token>)
    ensures SlotsNumbered(m.View(), numbers) ==> t == Buckets(m.h, m.View(), 0)
  {
    t := [];
    for bucket := 0 to m.h.newBuckets
      invariant SlotsNumbered(m.View(), numbers) ==>
        t + Buckets(m.h, m.View(), bucket) == Buckets(m.h, m.View(), 0)
    {
      var n := CountBucket(m.newTable, bucket, m.h.bucketSize, m.View());
      var row := WriteBucket(m.newTable, numbers, bucket, m.h.bucketSize, m.View());
      if SlotsNumbered(m.View(), numbers) {
        BucketsNext(m.h, m.View(), bucket, t, row);
      }
      t := t + ([Int(n)] + row);
    }
  }

  lemma BucketsNext(h: Hashing, s: State, bucket: nat, t: seq<Token>, row: seq<Token>)
    requires bucket < h.newBuckets && row == BucketTokens(s, bucket, 0, h.bucketSize)
    ensures (t + ([Int(|row|)] + row)) + Buckets(h, s, bucket + 1) == t + Buckets(h, s, bucket)
  {}

  // An assertion of Serialize fails.
  ghost predicate Fires(s: State) {
    TooMany(s.info, s.nNew, false) || TooMany(s.info, s.nTried, true)
  }

  lemma AllListed(s: State)
    requires RoundTrip.Typed(s)
    ensures Listing(s.info, Sorted(s.info.Keys), false) == NewList(s.info, s.idCount)
    ensures Listing(s.info, Sorted(s.info.Keys), true) == TriedList(s.info, s.idCount)
    ensures !Fires(s)
  {
    assert IdsBelow(s.info, s.idCount) == s.info.Keys;
    ListingIs(s.info, s.idCount);
    RoundTrip.CountsMatch(s);
  }

  lemma AllNumbered(h: Hashing, s: State, numbers: map<int, int>)
    requires Consistent(h, s) && Numbered(s.info, s.info.Keys, numbers)
    ensures SlotsNumbered(s, numbers)
  {
    forall slot | slot in s.newTable
      ensures s.newTable[slot] in numbers && numbers[s.newTable[slot]] == NewIndex(s.info, s.newTable[slot])
    {
      var id := s.newTable[slot];
      assert id in s.info && id >= 0;
      ListingIs(s.info, id);
    }
  }

  // Saving fails an assertion exactly if more entries are met than a counter
  // says, and never for a consistent manager, whose stream is then written.
  method Serialize(m: Manager) returns (fired: bool, t: seq<Token>)
    ensures fired <==> Fires(m.View())
    ensures m.Valid() ==> !fired && m.idCount >= 0 && t == AddrManDisk.Serialize(m.h, m.View())
  {
    t := [Byte(1), Byte(32), Key(m.key), Int(m.nNew), Int(m.nTried), Int(Flip30(m.h.newBuckets))];
    if m.Valid() {
      RoundTrip.ConsistentTyped(m.h, m.View());
      AllListed(m.View());
    }
    var records, numbers;
    fired, records, numbers := WriteEntries(m.info, m.nNew, false);
    if fired { return; }
    var tried, unused;
    fired, tried, unused := WriteEntries(m.info, m.nTried, true);
    if fired { return; }
    if m.Valid() {
      AllNumbered(m.h, m.View(), numbers);
    }
    var buckets := WriteBuckets(m, numbers);
    t := t + records + tried + buckets;
  }

  // A manager cannot be saved after it was cleared if it held an entry with a
  // place in a table, and so if it was consistent and held any.
  lemma ClearedFires(s: State, key: nat)
    ensures Fires(Clear(s, key)) <==> exists id :: id in s.info && (s.info[id].refCount != 0 || s.info[id].inTried)
  {
    forall id, tried | id in s.info && Written(s.info[id], tried)
      ensures |Listing(s.info, Sorted(s.info.Keys), tried)| > 0
    {
      SomeListed(s.info, id, tried);
    }
    forall tried | Listing(s.info, Sorted(s.info.Keys), tried) != []
      ensures exists id :: id in s.info && Written(s.info[id], tried)
    {
      ListedWritten(s.info, Sorted(s.info.Keys), tried);
    }
  }

  lemma {:induction false} ListedWritten(info: map<int, Info>, ids: seq<int>, tried: bool)
    requires Listing(info, ids, tried) != []
    ensures exists id :: id in info && Written(info[id], tried)
  {
    var id := ids[|ids| - 1];
    if !(id in info && Written(info[id], tried)) {
      ListedWritten(info, ids[..|ids| - 1], tried);
    }
  }

  lemma UsedFires(h: Hashing, s: State, key: nat)
    requires Consistent(h, s)
    ensures Fires(Clear(s, key)) <==> s.info != map[]
  {
    ClearedFires(s, key);
    forall id | id in s.info ensures s.info[id].refCount != 0 || s.info[id].inTried {
      assert EntryOk(s.info[id], id in {});
    }
    if s.info != map[] {
      var id := Pick(s.info.Keys);
    }
  }

  lemma SomeListed(info: map<int, Info>, id: int, tried: bool)
    requires id in info && Written(info[id], tried)
    ensures |Listing(info, Sorted(info.Keys), tried)| > 0
  {
    var todo := info.Keys - IdsBelow(info, id + 1);
    assert info.Keys - todo == IdsBelow(info, id + 1);
    BelowNext(info, id, tried);
    ListingGrows(info, todo, tried);
  }

  /* Loading */

  method ReadNewEntry(m: Manager, n: nat, r: Record, useTable: bool)
    requires m.h.Ok()
    modifies m
    ensures m.View() == NewRead(m.h, old(m.View()), n, r, useTable)
  {
    var i := if n in m.info then Reread(m.info[n], r, |m.random|) else Restored(r, |m.random|, false);
    m.addr := m.addr[i.service.ip := n];
    m.random := m.random + [n];
    if !useTable {
      var slot := m.h.NewSlot(m.key, i.service, i.source);
      if slot !in m.newTable {
        m.newTable := m.newTable[slot := n];
        i := i.(refCount := i.refCount + 1);
      }
    }
    m.info := m.info[n := i];
  }

  method ReadNewEntries(m: Manager, t: seq<Token>, useTable: bool) returns (ok: bool, rest: seq<Token>)
    requires m.h.Ok()
    modifies m
    ensures var r := ReadNew(m.h, Reading(old(m.View()), t), 0, useTable);
      r == if ok then Done(Reading(m.View(), rest)) else Broken(m.View())
  {
    rest := t;
    var n := 0;
    while n < m.nNew
      invariant 0 <= n && m.nNew == old(m.nNew)
      invariant ReadNew(m.h, Reading(old(m.View()), t), 0, useTable) ==
        ReadNew(m.h, Reading(m.View(), rest), n, useTable)
    {
      if rest == [] || !rest[0].Entry? {
        return false, rest;
      }
      ReadNewEntry(m, n, rest[0].r, useTable);
      rest := rest[1..];
      n := n + 1;
    }
    ok := true;
  }

  method ReadTriedEntry(m: Manager, r: Record) returns (lost: nat)
    requires m.h.Ok()
    modifies m
    ensures m.View() == TriedRead(m.h, old(m.View()), r)
    ensures lost == if m.View() == old(m.View()) then 1 else 0
  {
    var slot := m.h.TriedSlot(m.key, r.service);
    if slot in m.triedTable {
      return 1;
    }
    var id := m.idCount;
    m.info := m.info[id := Restored(r, |m.random|, true)];
    m.random := m.random + [id];
    m.addr := m.addr[r.service.ip := id];
    m.triedTable := Stored(m.triedTable, slot, id);
    m.idCount := id + 1;
    return 0;
  }

  method ReadTriedEntries(m: Manager, t: seq<Token>) returns (ok: bool, rest: seq<Token>, lost: nat)
    requires m.h.Ok()
    modifies m
    ensures var r := ReadTried(m.h, Reading(old(m.View()), t), 0, 0);
      r == if ok then Done((Reading(m.View(), rest), lost)) else Broken(m.View())
  {
    rest, lost := t, 0;
    var n := 0;
    while n < m.nTried
      invariant 0 <= n && m.nTried == old(m.nTried)
      invariant ReadTried(m.h, Reading(old(m.View()), t), 0, 0) == ReadTried(m.h, Reading(m.View(), rest), n, lost)
    {
      if rest == [] || !rest[0].Entry? {
        return false, rest, lost;
      }
      var more := ReadTriedEntry(m, rest[0].r);
      lost := lost + more;
      rest := rest[1..];
      n := n + 1;
    }
    ok := true;
  }

  method AttachIndex(m: Manager, bucket: nat, index: int, useTable: bool)
    requires m.h.Ok()
    modifies m
    ensures m.View() == Attach(m.h, old(m.View()), bucket, index, useTable)
  {
    if 0 <= index < m.nNew && index in m.info {
      var i := m.info[index];
      var slot := Slot(bucket, m.h.Position(m.key, true, bucket, i.service));
      if useTable && slot !in m.newTable && i.refCount < NEW_BUCKETS_PER_ADDRESS {
        m.info := m.info[index := i.(refCount := i.refCount + 1)];
        m.newTable := m.newTable[slot := index];
      }
    }
  }

  method ReadBucket(m: Manager, t: seq<Token>, bucket: nat, size: int, useTable: bool)
    returns (ok: bool, rest: seq<Token>)
    requires m.h.Ok()
    modifies m
    ensures var r := ReadRow(m.h, Reading(old(m.View()), t), bucket, size, useTable);
      r == if ok then Done(Reading(m.View(), rest)) else Broken(m.View())
  {
    rest := t;
    var left := size;
    while left > 0
      invariant ReadRow(m.h, Reading(old(m.View()), t), bucket, size, useTable)
        == ReadRow(m.h, Reading(m.View(), rest), bucket, left, useTable)
    {
      if rest == [] || !rest[0].Int? {
        return false, rest;
      }
      AttachIndex(m, bucket, rest[0].i, useTable);
      rest := rest[1..];
      left := left - 1;
    }
    ok := true;
  }

  method ReadAllBuckets(m: Manager, t: seq<Token>, count: int, useTable: bool) returns (ok: bool, rest: seq<Token>)
    requires m.h.Ok()
    modifies m
    ensures var r := ReadBuckets(m.h, Reading(old(m.View()), t), 0, count, useTable);
      r == if ok then Done(Reading(m.View(), rest)) else Broken(m.View())
  {
    rest := t;
    var bucket := 0;
    while bucket < count
      invariant 0 <= bucket
      invariant ReadBuckets(m.h, Reading(old(m.View()), t), 0, count, useTable)
        == ReadBuckets(m.h, Reading(m.View(), rest), bucket, count, useTable)
    {
      if rest == [] || !rest[0].Int? {
        return false, rest;
      }
      ok, rest := ReadBucket(m, rest[1..], bucket, rest[0].i, useTable);
      if !ok {
        return;
      }
      bucket := bucket + 1;
    }
    ok := true;
  }

  // Deletes the entries that found no place; ok says that no assertion fails.
  method PruneEntries(m: Manager) returns (ok: bool, lost: nat)
    modifies m
    ensures var r := Prune(old(m.View()), Sorted(old(m.info.Keys)), 0);
      if ok then r == Some((m.View(), lost)) else r.None?
  {
    lost := 0;
    var todo := m.info.Keys;
    while todo != {}
      invariant Prune(old(m.View()), Sorted(old(m.info.Keys)), 0) == Prune(m.View(), Sorted(todo), lost)
      decreases |todo|
    {
      var id := FindSmallest(todo);
      assert Sorted(todo)[1..] == Sorted(todo - {id});
      if id in m.info && Loose(m.info[id]) {
        if !CanDelete(m.View(), id) {
          return false, lost;
        }
        m.Delete(id);
        lost := lost + 1;
      }
      todo := todo - {id};
    }
    ok := true;
  }

  datatype Outcome = Exception | Assertion | Success(nLost: nat, nLostUnk: nat)

  // The manager has come out as specified.
  ghost predicate Matches(o: Outcome, s: State, l: Load) {
    match o
    case Exception => l == Failed(s)
    case Assertion => l.Aborted?
    case Success(nLost, nLostUnk) => l == Loaded(s, nLost, nLostUnk)
  }

  method ReadTables(m: Manager, t: seq<Token>, nUBuckets: int, useTable: bool) returns (o: Outcome)
    requires m.h.Ok()
    modifies m
    ensures Matches(o, m.View(), TablesRead(m.h, old(m.View()), t, nUBuckets, useTable))
  {
    var ok, rest, nLost := ReadTriedEntries(m, t);
    if !ok {
      return Exception;
    }
    m.nTried := m.nTried - nLost;
    ok, rest := ReadAllBuckets(m, rest, nUBuckets, useTable);
    if !ok {
      return Exception;
    }
    var lost;
    ok, lost := PruneEntries(m);
    return if ok then Success(nLost, lost) else Assertion;
  }

  method ReadBody(m: Manager, t: seq<Token>, nUBuckets: int, useTable: bool) returns (o: Outcome)
    requires m.h.Ok()
    modifies m
    ensures Matches(o, m.View(), BodyRead(m.h, old(m.View()), t, nUBuckets, useTable))
  {
    var ok, rest := ReadNewEntries(m, t, useTable);
    if !ok {
      return Exception;
    }
    m.idCount := m.nNew;
    o := ReadTables(m, rest, nUBuckets, useTable);
  }

  method ReadHeader(m: Manager, t: seq<Token>) returns (ok: bool)
    modifies m
    ensures m.View() == HeaderRead(old(m.View()), t) && ok == HeaderOk(t)
  {
    if |t| < 3 || !t[0].Byte? || !t[1].Byte? || t[1].b != 32 || !t[2].Key? { return false; }
    m.key := t[2].k;
    if |t| < 4 || !t[3].Int? { return false; }
    m.nNew := t[3].i;
    if |t| < 5 || !t[4].Int? { return false; }
    m.nTried := t[4].i;
    return |t| >= 6 && t[5].Int?;
  }

  // Loading a stream into a manager, whatever it holds; key is the random key
  // of a cleared manager.
  method Unserialize(m: Manager, key: nat, t: seq<Token>) returns (o: Outcome)
    requires m.h.Ok()
    modifies m
    ensures Matches(o, m.View(), AddrManDisk.Unserialize(m.h, old(m.View()), key, t))
  {
    m.Clear(key);
    var ok := ReadHeader(m, t);
    if !ok {
      return Exception;
    }
    var nUBuckets := if t[0].b != 0 then Flip30(t[5].i) else t[5].i;
    if !SizesOk(m.h, m.nNew, m.nTried) {
      return Exception;
    }
    var useTable := t[0].b == 1 && nUBuckets == m.h.newBuckets;
    o := ReadBody(m, t[6..], nUBuckets, useTable);
  }
}
