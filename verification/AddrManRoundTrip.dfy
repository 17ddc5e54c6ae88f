/** Loading what was saved gives back the same address manager, with ids
    renumbered and nothing lost. */
module AddrManRoundTrip {
  import opened Options
  import opened AddrMan
  import opened AddrManInv
  import opened AddrManDisk

  // --------------------------------------------------- the lists that are written

  lemma {:induction false} NewListIn(info: map<int, Info>, n: nat, k: nat)
    requires k < |NewList(info, n)|
    ensures var id := NewList(info, n)[k];
      0 <= id < n && id in info && info[id].refCount != 0 && NewIndex(info, id) == k
  {
    if k < |NewList(info, n - 1)| { NewListIn(info, n - 1, k); }
  }

  lemma {:induction false} NewListAt(info: map<int, Info>, n: nat, id: nat)
    requires id < n && id in info && info[id].refCount != 0
    ensures NewIndex(info, id) < |NewList(info, n)| && NewList(info, n)[NewIndex(info, id)] == id
  {
    if id < n - 1 { NewListAt(info, n - 1, id); }
  }

  lemma {:induction false} TriedListIn(info: map<int, Info>, n: nat, k: nat)
    requires k < |TriedList(info, n)|
    ensures var id := TriedList(info, n)[k]; 0 <= id < n && id in info && info[id].inTried
  {
    if k < |TriedList(info, n - 1)| { TriedListIn(info, n - 1, k); }
  }

  lemma {:induction false} TriedListIncreasing(info: map<int, Info>, n: nat, j: nat, k: nat)
    requires j < k < |TriedList(info, n)|
    ensures TriedList(info, n)[j] < TriedList(info, n)[k]
  {
    if k < |TriedList(info, n - 1)| {
      TriedListIncreasing(info, n - 1, j, k);
    } else {
      TriedListIn(info, n - 1, j);
    }
  }

  lemma {:induction false} TriedListHas(info: map<int, Info>, n: nat, id: nat)
    requires id < n && id in info && info[id].inTried
    ensures id in TriedList(info, n)
  {
    if id < n - 1 { TriedListHas(info, n - 1, id); }
  }

  function Below(info: map<int, Info>, n: nat, tried: bool): set<int> {
    set id | id in info && 0 <= id < n && (if tried then info[id].inTried else info[id].refCount != 0)
  }

  lemma BelowNext(info: map<int, Info>, n: nat, tried: bool)
    ensures Below(info, 0, tried) == {}
    ensures |Below(info, n + 1, tried)| == |Below(info, n, tried)|
      + if n in info && (if tried then info[n].inTried else info[n].refCount != 0) then 1 else 0
  {
    if n in info && (if tried then info[n].inTried else info[n].refCount != 0) {
      assert Below(info, n + 1, tried) == Below(info, n, tried) + {n};
    } else {
      assert Below(info, n + 1, tried) == Below(info, n, tried);
    }
  }

  lemma {:induction false} NewListSize(info: map<int, Info>, n: nat)
    ensures |NewList(info, n)| == |Below(info, n, false)|
  {
    BelowNext(info, if n == 0 then 0 else n - 1, false);
    if n > 0 { NewListSize(info, n - 1); }
  }

  lemma {:induction false} TriedListSize(info: map<int, Info>, n: nat)
    ensures |TriedList(info, n)| == |Below(info, n, true)|
  {
    BelowNext(info, if n == 0 then 0 else n - 1, true);
    if n > 0 { TriedListSize(info, n - 1); }
  }

  // What the lists depend on: an entry has references just if it is not tried.
  ghost predicate Typed(s: State) {
    && s.idCount >= 0 && s.nNew >= 0 && s.nTried >= 0
    && (forall id :: id in s.info ==> 0 <= id < s.idCount)
    && (forall id :: id in s.info ==> (s.info[id].refCount != 0 <==> !s.info[id].inTried))
    && Counted(s.info, s.nTried, s.nNew, 0)
  }

  lemma ConsistentTyped(h: Hashing, s: State)
    requires Consistent(h, s)
    ensures Typed(s)
  {
    forall id | id in s.info ensures s.info[id].refCount != 0 <==> !s.info[id].inTried {
      assert EntryOk(s.info[id], false);
    }
  }

  lemma CountsMatch(s: State)
    requires Typed(s)
    ensures |NewList(s.info, s.idCount)| == s.nNew && |TriedList(s.info, s.idCount)| == s.nTried
  {
    NewListSize(s.info, s.idCount);
    TriedListSize(s.info, s.idCount);
    BelowAll(s);
  }

  lemma BelowAll(s: State)
    requires Typed(s)
    ensures Below(s.info, s.idCount, true) == TriedIds(s.info)
    ensures Below(s.info, s.idCount, false) == s.info.Keys - TriedIds(s.info)
  {
    forall x
      ensures x in Below(s.info, s.idCount, true) <==> x in TriedIds(s.info)
      ensures x in Below(s.info, s.idCount, false) <==> x in s.info.Keys - TriedIds(s.info)
    {}
  }

  // The new numbering: position in this list is the id after loading.
  function Order(s: State): seq<int>
    requires s.idCount >= 0
  {
    NewList(s.info, s.idCount) + TriedList(s.info, s.idCount)
  }

  ghost predicate GoodOrder(s: State, order: seq<int>) {
    && s.nNew >= 0 && s.nTried >= 0 && |order| == s.nNew + s.nTried
    && (forall k :: 0 <= k < |order| ==> order[k] in s.info && (s.info[order[k]].inTried <==> k >= s.nNew))
    && (forall j, k :: 0 <= j < k < |order| ==> order[j] != order[k])
    && (forall id :: id in s.info ==> id in order)
    && (forall id :: id in s.info && !s.info[id].inTried ==>
          NewIndex(s.info, id) < s.nNew && order[NewIndex(s.info, id)] == id)
  }

  lemma OrderMember(s: State, k: nat)
    requires Typed(s) && k < |Order(s)|
    ensures |Order(s)| == s.nNew + s.nTried && Order(s)[k] in s.info
    ensures s.info[Order(s)[k]].inTried <==> k >= s.nNew
    ensures k < s.nNew ==> NewIndex(s.info, Order(s)[k]) == k
  {
    CountsMatch(s);
    if k < s.nNew {
      NewListIn(s.info, s.idCount, k);
    } else {
      TriedListIn(s.info, s.idCount, k - s.nNew);
    }
  }

  lemma OrderDistinct(s: State, j: nat, k: nat)
    requires Typed(s) && j < k < |Order(s)|
    ensures Order(s)[j] != Order(s)[k]
  {
    CountsMatch(s);
    OrderMember(s, j);
    OrderMember(s, k);
    if s.nNew <= j { TriedListIncreasing(s.info, s.idCount, j - s.nNew, k - s.nNew); }
  }

  lemma OrderHas(s: State, id: int)
    requires Typed(s) && id in s.info
    ensures |Order(s)| == s.nNew + s.nTried && id in Order(s)
    ensures !s.info[id].inTried ==> NewIndex(s.info, id) < s.nNew && Order(s)[NewIndex(s.info, id)] == id
  {
    CountsMatch(s);
    if s.info[id].inTried {
      TriedListHas(s.info, s.idCount, id);
    } else {
      NewListAt(s.info, s.idCount, id);
      assert Order(s)[NewIndex(s.info, id)] == id;
    }
  }

  lemma OrderIsGood(s: State)
    requires Typed(s)
    ensures GoodOrder(s, Order(s))
  {
    CountsMatch(s);
    forall k | 0 <= k < |Order(s)|
      ensures Order(s)[k] in s.info && (s.info[Order(s)[k]].inTried <==> k >= s.nNew)
    { OrderMember(s, k); }
    forall j, k | 0 <= j < k < |Order(s)| ensures Order(s)[j] != Order(s)[k] { OrderDistinct(s, j, k); }
    forall id | id in s.info
      ensures id in Order(s)
      ensures !s.info[id].inTried ==> NewIndex(s.info, id) < s.nNew && Order(s)[NewIndex(s.info, id)] == id
    { OrderHas(s, id); }
  }

  // ----------------------------------------------------------- table capacity

  function Row(bucket: nat, size: nat): set<Slot> {
    if size == 0 then {} else Row(bucket, size - 1) + {Slot(bucket, size - 1)}
  }

  function Grid(buckets: nat, size: nat): set<Slot> {
    if buckets == 0 then {} else Grid(buckets - 1, size) + Row(buckets - 1, size)
  }

  lemma {:induction false} RowSlots(bucket: nat, size: nat)
    ensures forall slot :: slot in Row(bucket, size) <==> slot.bucket == bucket && slot.pos < size
  {
    if size > 0 { RowSlots(bucket, size - 1); }
  }

  lemma {:induction false} RowSize(bucket: nat, size: nat)
    ensures |Row(bucket, size)| == size
  {
    if size > 0 {
      RowSize(bucket, size - 1);
      RowSlots(bucket, size - 1);
    }
  }

  lemma {:induction false} InGrid(buckets: nat, size: nat, slot: Slot)
    ensures slot in Grid(buckets, size) <==> slot.bucket < buckets && slot.pos < size
  {
    if buckets > 0 {
      InGrid(buckets - 1, size, slot);
      RowSlots(buckets - 1, size);
    }
  }

  lemma GridSlots(buckets: nat, size: nat)
    ensures forall slot :: slot in Grid(buckets, size) <==> slot.bucket < buckets && slot.pos < size
  {
    forall slot: Slot ensures slot in Grid(buckets, size) <==> slot.bucket < buckets && slot.pos < size {
      InGrid(buckets, size, slot);
    }
  }

  lemma RowApart(buckets: nat, size: nat)
    ensures Grid(buckets, size) !! Row(buckets, size)
  {
    RowSlots(buckets, size);
    GridSlots(buckets, size);
  }

  lemma {:induction false} GridSize(buckets: nat, size: nat)
    ensures |Grid(buckets, size)| == buckets * size
  {
    if buckets > 0 {
      GridSize(buckets - 1, size);
      GridGrows(buckets, size);
      OneRowMore(buckets, size);
    }
  }

  lemma GridGrows(buckets: nat, size: nat)
    requires buckets > 0
    ensures |Grid(buckets, size)| == |Grid(buckets - 1, size)| + size
  {
    RowApart(buckets - 1, size);
    RowSize(buckets - 1, size);
    JoinSize(Grid(buckets - 1, size), Row(buckets - 1, size));
  }

  lemma JoinSize(a: set<Slot>, b: set<Slot>)
    requires a !! b
    ensures |a + b| == |a| + |b|
  {}

  lemma OneRowMore(buckets: nat, size: nat)
    requires buckets > 0
    ensures buckets * size == (buckets - 1) * size + size
  {}

  lemma SubsetSize(a: set<Slot>, b: set<Slot>)
    requires a <= b
    ensures |a| <= |b|
  {
    assert b == a + (b - a);
  }

  // Distinct values need distinct keys.
  lemma {:induction false} ValuesFit(table: map<Slot, int>, ids: set<int>)
    requires ids <= table.Values
    ensures |ids| <= |table.Keys|
    decreases |ids|
  {
    if |ids| > 0 {
      var id := Pick(ids);
      var slot :| slot in table && table[slot] == id;
      var less := table - {slot};
      forall x | x in ids - {id} ensures x in less.Values {
        assert x in table.Values;
        var t :| t in table && table[t] == x;
        assert t in less && less[t] == x;
      }
      ValuesFit(less, ids - {id});
      assert less.Keys == table.Keys - {slot};
    }
  }

  lemma NewFits(h: Hashing, s: State)
    requires h.Ok() && NewTableOk(h, s.key, s.info, s.newTable) && Typed(s)
    ensures s.nNew <= h.newBuckets * h.bucketSize
  {
    GridSize(h.newBuckets, h.bucketSize);
    GridSlots(h.newBuckets, h.bucketSize);
    var ids := s.info.Keys - TriedIds(s.info);
    forall id | id in ids ensures id in s.newTable.Values {
      assert |SlotsOf(s.newTable, id)| > 0;
      var slot :| slot in SlotsOf(s.newTable, id);
    }
    ValuesFit(s.newTable, ids);
    SubsetSize(s.newTable.Keys, Grid(h.newBuckets, h.bucketSize));
  }

  lemma TriedFits(h: Hashing, s: State)
    requires h.Ok() && TriedTableOk(h, s.key, s.info, s.triedTable) && Typed(s)
    ensures s.nTried <= h.triedBuckets * h.bucketSize
  {
    GridSize(h.triedBuckets, h.bucketSize);
    GridSlots(h.triedBuckets, h.bucketSize);
    forall id | id in TriedIds(s.info) ensures id in s.triedTable.Values {
      var slot := h.TriedSlot(s.key, s.info[id].service);
      assert slot in s.triedTable && s.triedTable[slot] == id;
    }
    ValuesFit(s.triedTable, TriedIds(s.info));
    SubsetSize(s.triedTable.Keys, Grid(h.triedBuckets, h.bucketSize));
  }

  // ------------------------------------------------------ reading the entries

  // The first k entries of the new numbering have been read.
  ghost predicate InfoRead(s: State, order: seq<int>, k: nat, info: map<int, Info>)
    requires k <= |order|
  {
    && (forall j :: j in info <==> 0 <= j < k)
    && (forall j :: 0 <= j < k && order[j] in s.info ==>
          info[j] == Restored(Saved(s.info[order[j]]), j, s.info[order[j]].inTried))
  }

  ghost predicate AddrRead(s: State, order: seq<int>, k: nat, addr: map<Ip, int>)
    requires k <= |order|
  {
    && (forall ip :: ip in addr ==>
          && 0 <= addr[ip] < k && order[addr[ip]] in s.info && s.info[order[addr[ip]]].service.ip == ip)
    && (forall j :: 0 <= j < k && order[j] in s.info ==>
          s.info[order[j]].service.ip in addr && addr[s.info[order[j]].service.ip] == j)
  }

  ghost predicate TriedRead(h: Hashing, s: State, order: seq<int>, k: nat, triedTable: map<Slot, int>)
    requires h.Ok() && k <= |order|
  {
    && (forall slot :: slot in triedTable ==>
          && 0 <= triedTable[slot] < k && order[triedTable[slot]] in s.info
          && s.info[order[triedTable[slot]]].inTried
          && slot == h.TriedSlot(s.key, s.info[order[triedTable[slot]]].service))
    && (forall j :: 0 <= j < k && order[j] in s.info && s.info[order[j]].inTried ==>
          var slot := h.TriedSlot(s.key, s.info[order[j]].service); slot in triedTable && triedTable[slot] == j)
  }

  ghost predicate Prefix(h: Hashing, s: State, order: seq<int>, k: nat, st: State) {
    && h.Ok() && k <= |order|
    && InfoRead(s, order, k, st.info)
    && AddrRead(s, order, k, st.addr)
    && TriedRead(h, s, order, k, st.triedTable)
    && |st.random| == k && (forall j :: 0 <= j < k ==> st.random[j] == j)
    && st.key == s.key && st.newTable == map[] && st.lastGood == 1
  }

  // Distinct entries have distinct addresses and distinct slots.
  ghost predicate Apart(h: Hashing, s: State, order: seq<int>)
    requires h.Ok()
  {
    && (forall k :: 0 <= k < |order| ==> order[k] in s.info)
    && (forall j, k :: 0 <= j < k < |order| ==> s.info[order[j]].service.ip != s.info[order[k]].service.ip)
    && (forall j, k :: 0 <= j < k < |order| && s.info[order[j]].inTried && s.info[order[k]].inTried ==>
          h.TriedSlot(s.key, s.info[order[j]].service) != h.TriedSlot(s.key, s.info[order[k]].service))
  }

  lemma ApartAt(h: Hashing, s: State, a: int, b: int)
    requires h.Ok() && Indexed(s) && TriedTableOk(h, s.key, s.info, s.triedTable)
    requires a in s.info && b in s.info && a != b
    ensures s.info[a].service.ip != s.info[b].service.ip
    ensures s.info[a].inTried && s.info[b].inTried ==>
      h.TriedSlot(s.key, s.info[a].service) != h.TriedSlot(s.key, s.info[b].service)
  {
    assert s.addr[s.info[a].service.ip] == a && s.addr[s.info[b].service.ip] == b;
  }

  lemma OrderApart(h: Hashing, s: State, order: seq<int>)
    requires h.Ok() && Indexed(s) && TriedTableOk(h, s.key, s.info, s.triedTable) && GoodOrder(s, order)
    ensures Apart(h, s, order)
  {
    forall j, k | 0 <= j < k < |order|
      ensures s.info[order[j]].service.ip != s.info[order[k]].service.ip
      ensures s.info[order[j]].inTried && s.info[order[k]].inTried ==>
        h.TriedSlot(s.key, s.info[order[j]].service) != h.TriedSlot(s.key, s.info[order[k]].service)
    { ApartAt(h, s, order[j], order[k]); }
  }

  lemma AddrNext(h: Hashing, s: State, order: seq<int>, k: nat, addr: map<Ip, int>)
    requires h.Ok() && Apart(h, s, order) && k < |order| && AddrRead(s, order, k, addr)
    ensures AddrRead(s, order, k + 1, addr[s.info[order[k]].service.ip := k])
  {}

  lemma TriedNext(h: Hashing, s: State, order: seq<int>, k: nat, triedTable: map<Slot, int>)
    requires h.Ok() && Apart(h, s, order) && k < |order|
    requires TriedRead(h, s, order, k, triedTable) && s.info[order[k]].inTried
    ensures var slot := h.TriedSlot(s.key, s.info[order[k]].service);
      slot !in triedTable && TriedRead(h, s, order, k + 1, triedTable[slot := k])
  {}

  lemma TriedSame(h: Hashing, s: State, order: seq<int>, k: nat, triedTable: map<Slot, int>)
    requires h.Ok() && k < |order| && TriedRead(h, s, order, k, triedTable)
    requires order[k] in s.info && !s.info[order[k]].inTried
    ensures TriedRead(h, s, order, k + 1, triedTable)
  {}

  lemma InfoNext(s: State, order: seq<int>, k: nat, info: map<int, Info>)
    requires k < |order| && InfoRead(s, order, k, info) && order[k] in s.info
    ensures InfoRead(s, order, k + 1, info[k := Restored(Saved(s.info[order[k]]), k, s.info[order[k]].inTried)])
  {}

  lemma PrefixNew(h: Hashing, s: State, order: seq<int>, k: nat, st: State, st': State)
    requires Prefix(h, s, order, k, st) && k < |order| && Apart(h, s, order)
    requires var i := Restored(Saved(s.info[order[k]]), k, s.info[order[k]].inTried);
      && st' == st.(info := st.info[k := i], addr := st.addr[i.service.ip := k], random := st.random + [k],
                    triedTable := st'.triedTable, idCount := st'.idCount)
      && st'.triedTable == if i.inTried then st.triedTable[h.TriedSlot(s.key, i.service) := k] else st.triedTable
    ensures Prefix(h, s, order, k + 1, st')
  {
    InfoNext(s, order, k, st.info);
    AddrNext(h, s, order, k, st.addr);
    if s.info[order[k]].inTried { TriedNext(h, s, order, k, st.triedTable); }
    else { TriedSame(h, s, order, k, st.triedTable); }
  }

  lemma RecordsHead(info: map<int, Info>, ids: seq<int>, k: nat, end: nat, tail: seq<Token>)
    requires k < end <= |ids| && ids[k] in info
    ensures var t := Records(info, ids[k..end]) + tail;
      t != [] && t[0] == Entry(Saved(info[ids[k]])) && t[1..] == Records(info, ids[k + 1..end]) + tail
  {
    assert ids[k..end][1..] == ids[k + 1..end];
    assert Records(info, ids[k..end])[1..] == Records(info, ids[k + 1..end]);
  }

  // The first loop reads exactly the new entries.
  lemma {:induction false} ReadNewOk(h: Hashing, s: State, order: seq<int>, k: nat, st: State, tail: seq<Token>)
    returns (r: State)
    requires h.Ok() && Apart(h, s, order) && GoodOrder(s, order)
    requires k <= s.nNew == st.nNew && Prefix(h, s, order, k, st)
    ensures ReadNew(h, Reading(st, Records(s.info, order[k..s.nNew]) + tail), k, true) == Done(Reading(r, tail))
    ensures Prefix(h, s, order, s.nNew, r) && r.nNew == st.nNew && r.nTried == st.nTried
    decreases s.nNew - k
  {
    var t := Records(s.info, order[k..s.nNew]) + tail;
    if k == s.nNew {
      assert t == tail;
      r := st;
    } else {
      RecordsHead(s.info, order, k, s.nNew, tail);
      var i := Restored(t[0].r, k, false);
      var st' := st.(info := st.info[k := i], addr := st.addr[i.service.ip := k], random := st.random + [k]);
      PrefixNew(h, s, order, k, st, st');
      r := ReadNewOk(h, s, order, k + 1, st', tail);
    }
  }

  // What is left to read after n tried entries.
  function TriedLeft(s: State, order: seq<int>, n: nat, st: State, tail: seq<Token>): Reading
    requires s.nNew >= 0 && s.nNew + n <= |order| && forall k :: 0 <= k < |order| ==> order[k] in s.info
  { Reading(st, Records(s.info, order[s.nNew + n..|order|]) + tail) }

  // The state with one more tried entry read.
  function NextTried(h: Hashing, s: State, order: seq<int>, k: nat, st: State): State
    requires h.Ok() && k < |order| && order[k] in s.info
  {
    var i := Restored(Saved(s.info[order[k]]), k, true);
    st.(info := st.info[k := i], addr := st.addr[i.service.ip := k], random := st.random + [k],
        triedTable := st.triedTable[h.TriedSlot(s.key, i.service) := k], idCount := k + 1)
  }

  // Where reading the tried entries has come to after n of them.
  ghost predicate AtTried(h: Hashing, s: State, order: seq<int>, n: nat, st: State) {
    && h.Ok() && Apart(h, s, order) && GoodOrder(s, order)
    && n <= s.nTried == st.nTried && s.nNew == st.nNew && st.idCount == s.nNew + n &&
      Prefix(h, s, order, s.nNew + n, st)
  }

  lemma TriedNextAt(h: Hashing, s: State, order: seq<int>, n: nat, st: State)
    requires AtTried(h, s, order, n, st) && n < s.nTried
    ensures AtTried(h, s, order, n + 1, NextTried(h, s, order, s.nNew + n, st))
  {
    var k := s.nNew + n;
    TriedNext(h, s, order, k, st.triedTable);
    PrefixNew(h, s, order, k, st, NextTried(h, s, order, k, st));
  }

  lemma TriedNextReads(h: Hashing, s: State, order: seq<int>, n: nat, st: State, tail: seq<Token>)
    requires AtTried(h, s, order, n, st) && n < s.nTried
    ensures ReadTried(h, TriedLeft(s, order, n, st, tail), n, 0)
         == ReadTried(h, TriedLeft(s, order, n + 1, NextTried(h, s, order, s.nNew + n, st), tail), n + 1, 0)
  {
    var k := s.nNew + n;
    RecordsHead(s.info, order, k, |order|, tail);
    NextTriedIs(h, s, order, n, st);
    ReadTriedStep(h, TriedLeft(s, order, n, st, tail), n, NextTried(h, s, order, k, st));
  }

  lemma NextTriedIs(h: Hashing, s: State, order: seq<int>, n: nat, st: State)
    requires AtTried(h, s, order, n, st) && n < s.nTried
    ensures var k := s.nNew + n;
      AddrManDisk.TriedRead(h, st, Saved(s.info[order[k]])) == NextTried(h, s, order, k, st) != st
  {
    TriedNext(h, s, order, s.nNew + n, st.triedTable);
    assert |NextTried(h, s, order, s.nNew + n, st).random| == |st.random| + 1;
  }

  lemma ReadTriedStep(h: Hashing, r: Reading, n: nat, s: State)
    requires h.Ok() && n < r.s.nTried && r.rest != [] && r.rest[0].Entry?
    requires AddrManDisk.TriedRead(h, r.s, r.rest[0].r) == s != r.s
    ensures ReadTried(h, r, n, 0) == ReadTried(h, Reading(s, r.rest[1..]), n + 1, 0)
  {}

  lemma ReadTriedEnd(h: Hashing, s: State, order: seq<int>, n: nat, st: State, tail: seq<Token>)
    requires AtTried(h, s, order, n, st) && n == s.nTried
    ensures ReadTried(h, TriedLeft(s, order, n, st, tail), n, 0) == Done((Reading(st, tail), 0))
  {
    assert order[s.nNew + n..|order|] == [];
    assert Records(s.info, []) + tail == tail;
  }

  // The second loop reads exactly the tried entries, and none is lost.
  lemma {:induction false} ReadTriedOk(h: Hashing, s: State, order: seq<int>, n: nat, st: State, tail: seq<Token>)
    returns (r: State)
    requires AtTried(h, s, order, n, st)
    ensures AtTried(h, s, order, s.nTried, r)
    ensures ReadTried(h, TriedLeft(s, order, n, st, tail), n, 0) == Done((Reading(r, tail), 0))
    decreases s.nTried - n
  {
    if n == s.nTried {
      ReadTriedEnd(h, s, order, n, st, tail);
      r := st;
    } else {
      TriedNextAt(h, s, order, n, st);
      TriedNextReads(h, s, order, n, st, tail);
      r := ReadTriedOk(h, s, order, n + 1, NextTried(h, s, order, s.nNew + n, st), tail);
    }
  }

  // ------------------------------------------------------ reading the buckets

  predicate Before(slot: Slot, bucket: nat, pos: nat) {
    slot.bucket < bucket || (slot.bucket == bucket && slot.pos < pos)
  }

  function SlotsBefore(newTable: map<Slot, int>, id: int, bucket: nat, pos: nat): set<Slot> {
    set slot | slot in newTable && newTable[slot] == id && Before(slot, bucket, pos)
  }

  // The slots before (bucket, pos) have been attached.
  ghost predicate Linked(s: State, order: seq<int>, bucket: nat, pos: nat, base: State, st: State) {
    && st == base.(info := st.info, newTable := st.newTable)
    && InfoLinked(s, order, bucket, pos, base.info, st.info)
    && TableLinked(s, bucket, pos, st.newTable)
  }

  ghost predicate InfoLinked(s: State, order: seq<int>, bucket: nat, pos: nat,
                             base: map<int, Info>, info: map<int, Info>) {
    && (forall j :: j in base <==> 0 <= j < |order|)
    && (forall j :: j in info <==> 0 <= j < |order|)
    && (forall j :: 0 <= j < |order| ==>
          info[j] == base[j].(refCount := |SlotsBefore(s.newTable, order[j], bucket, pos)|))
  }

  ghost predicate TableLinked(s: State, bucket: nat, pos: nat, newTable: map<Slot, int>) {
    && (forall slot :: slot in newTable <==> slot in s.newTable && Before(slot, bucket, pos))
    && (forall slot :: slot in newTable ==> newTable[slot] == NewIndex(s.info, s.newTable[slot]))
  }

  lemma BeforeNext(newTable: map<Slot, int>, id: int, bucket: nat, pos: nat)
    ensures var slot := Slot(bucket, pos);
      && |SlotsBefore(newTable, id, bucket, pos + 1)|
         == |SlotsBefore(newTable, id, bucket, pos)| + (if slot in newTable && newTable[slot] == id then 1 else 0)
      && (slot in newTable && newTable[slot] == id ==>
            |SlotsBefore(newTable, id, bucket, pos)| < |SlotsOf(newTable, id)|)
  {
    var slot := Slot(bucket, pos);
    var before := SlotsBefore(newTable, id, bucket, pos);
    if slot in newTable && newTable[slot] == id {
      assert SlotsBefore(newTable, id, bucket, pos + 1) == before + {slot};
      assert before + {slot} <= SlotsOf(newTable, id);
      SubsetSize(before + {slot}, SlotsOf(newTable, id));
    } else {
      assert SlotsBefore(newTable, id, bucket, pos + 1) == before;
    }
  }

  lemma BeforeRowEnd(newTable: map<Slot, int>, id: int, bucket: nat, size: nat)
    requires forall slot :: slot in newTable ==> slot.pos < size
    ensures SlotsBefore(newTable, id, bucket, size) == SlotsBefore(newTable, id, bucket + 1, 0)
  {}

  lemma TableNext(s: State, bucket: nat, pos: nat, newTable: map<Slot, int>)
    requires TableLinked(s, bucket, pos, newTable)
    ensures var slot := Slot(bucket, pos);
      && slot !in newTable
      && TableLinked(s, bucket, pos + 1,
           if slot in s.newTable then newTable[slot := NewIndex(s.info, s.newTable[slot])] else newTable)
  {}

  lemma InfoSkip(s: State, order: seq<int>, bucket: nat, pos: nat, base: map<int, Info>, info: map<int, Info>)
    requires InfoLinked(s, order, bucket, pos, base, info) && Slot(bucket, pos) !in s.newTable
    ensures InfoLinked(s, order, bucket, pos + 1, base, info)
  {
    forall j | 0 <= j < |order|
      ensures info[j] == base[j].(refCount := |SlotsBefore(s.newTable, order[j], bucket, pos + 1)|)
    { BeforeNext(s.newTable, order[j], bucket, pos); }
  }

  lemma InfoNextRef(s: State, order: seq<int>, bucket: nat, pos: nat,
                    base: map<int, Info>, info: map<int, Info>, index: nat)
    requires InfoLinked(s, order, bucket, pos, base, info) && Slot(bucket, pos) in s.newTable
    requires index < |order| && order[index] == s.newTable[Slot(bucket, pos)]
    requires forall j :: 0 <= j < |order| && j != index ==> order[j] != order[index]
    ensures InfoLinked(s, order, bucket, pos + 1, base,
                       info[index := info[index].(refCount := info[index].refCount + 1)])
  {
    var info' := info[index := info[index].(refCount := info[index].refCount + 1)];
    forall j | 0 <= j < |order|
      ensures info'[j] == base[j].(refCount := |SlotsBefore(s.newTable, order[j], bucket, pos + 1)|)
    { BeforeNext(s.newTable, order[j], bucket, pos); }
  }

  // What the loops below need to know about the state that was saved.
  ghost predicate Source(h: Hashing, s: State, order: seq<int>, base: State) {
    && h.Ok() && GoodOrder(s, order) && base.key == s.key && base.nNew == s.nNew
    && NewTableOk(h, s.key, s.info, s.newTable)
    && (forall id :: id in s.info ==> s.info[id].refCount <= NEW_BUCKETS_PER_ADDRESS)
    && (forall j :: 0 <= j < |order| ==> j in base.info && base.info[j].service == s.info[order[j]].service)
  }

  lemma AttachNext(h: Hashing, s: State, order: seq<int>, bucket: nat, pos: nat, base: State, st: State)
    requires Source(h, s, order, base) && Linked(s, order, bucket, pos, base, st) && Slot(bucket, pos) in s.newTable
    ensures Linked(s, order, bucket, pos + 1, base,
                   Attach(h, st, bucket, NewIndex(s.info, s.newTable[Slot(bucket, pos)]), true))
  {
    var slot := Slot(bucket, pos);
    var id := s.newTable[slot];
    var index := NewIndex(s.info, id);
    assert order[index] == id;
    TableNext(s, bucket, pos, st.newTable);
    BeforeNext(s.newTable, id, bucket, pos);
    assert st.info[index].refCount < NEW_BUCKETS_PER_ADDRESS;
    assert st.info[index].service == s.info[id].service;
    InfoNextRef(s, order, bucket, pos, base.info, st.info, index);
  }

  lemma SkipNext(s: State, order: seq<int>, bucket: nat, pos: nat, base: State, st: State)
    requires Linked(s, order, bucket, pos, base, st) && Slot(bucket, pos) !in s.newTable
    ensures Linked(s, order, bucket, pos + 1, base, st)
  {
    TableNext(s, bucket, pos, st.newTable);
    InfoSkip(s, order, bucket, pos, base.info, st.info);
  }

  lemma RowStep(h: Hashing, s: State, bucket: nat, pos: nat, st: State, tail: seq<Token>)
    requires h.Ok() && pos < h.bucketSize && Slot(bucket, pos) in s.newTable
    ensures var row := BucketTokens(s, bucket, pos, h.bucketSize);
      var rest := BucketTokens(s, bucket, pos + 1, h.bucketSize);
      ReadRow(h, Reading(st, row + tail), bucket, |row|, true) ==
      ReadRow(h, Reading(Attach(h, st, bucket, NewIndex(s.info, s.newTable[Slot(bucket, pos)]), true), rest + tail),
              bucket, |rest|, true)
  {
    var row := BucketTokens(s, bucket, pos, h.bucketSize);
    var rest := BucketTokens(s, bucket, pos + 1, h.bucketSize);
    assert (row + tail)[1..] == rest + tail;
  }

  function SlotRead(h: Hashing, s: State, bucket: nat, pos: nat, st: State): State
    requires h.Ok()
  {
    if Slot(bucket, pos) in s.newTable
    then Attach(h, st, bucket, NewIndex(s.info, s.newTable[Slot(bucket, pos)]), true) else st
  }

  // The state after the row of a bucket, from pos on, has been read.
  function RowRead(h: Hashing, s: State, bucket: nat, pos: nat, st: State): State
    requires h.Ok()
    decreases h.bucketSize - pos
  {
    if pos >= h.bucketSize then st else RowRead(h, s, bucket, pos + 1, SlotRead(h, s, bucket, pos, st))
  }

  lemma {:induction false} ReadRowIs(h: Hashing, s: State, bucket: nat, pos: nat, st: State, tail: seq<Token>)
    requires h.Ok() && pos <= h.bucketSize
    ensures var row := BucketTokens(s, bucket, pos, h.bucketSize);
      ReadRow(h, Reading(st, row + tail), bucket, |row|, true) == Done(Reading(RowRead(h, s, bucket, pos, st), tail))
    decreases h.bucketSize - pos
  {
    if pos == h.bucketSize {
      assert BucketTokens(s, bucket, pos, h.bucketSize) + tail == tail;
    } else {
      if Slot(bucket, pos) in s.newTable { RowStep(h, s, bucket, pos, st, tail); }
      ReadRowIs(h, s, bucket, pos + 1, SlotRead(h, s, bucket, pos, st), tail);
    }
  }

  lemma SlotLinked(h: Hashing, s: State, order: seq<int>, bucket: nat, pos: nat, base: State, st: State)
    requires Source(h, s, order, base) && Linked(s, order, bucket, pos, base, st)
    ensures Linked(s, order, bucket, pos + 1, base, SlotRead(h, s, bucket, pos, st))
  {
    if Slot(bucket, pos) in s.newTable { AttachNext(h, s, order, bucket, pos, base, st); }
    else { SkipNext(s, order, bucket, pos, base, st); }
  }

  lemma {:induction false} RowLinked(h: Hashing, s: State, order: seq<int>, bucket: nat, pos: nat,
                                     base: State, st: State)
    requires Source(h, s, order, base) && Linked(s, order, bucket, pos, base, st) && pos <= h.bucketSize
    ensures Linked(s, order, bucket, h.bucketSize, base, RowRead(h, s, bucket, pos, st))
    decreases h.bucketSize - pos
  {
    if pos < h.bucketSize {
      SlotLinked(h, s, order, bucket, pos, base, st);
      RowLinked(h, s, order, bucket, pos + 1, base, SlotRead(h, s, bucket, pos, st));
    }
  }

  lemma RowEnd(h: Hashing, s: State, order: seq<int>, bucket: nat, base: State, st: State)
    requires Linked(s, order, bucket, h.bucketSize, base, st)
    requires forall slot :: slot in s.newTable ==> slot.pos < h.bucketSize
    ensures Linked(s, order, bucket + 1, 0, base, st)
  {
    forall j | 0 <= j < |order|
      ensures st.info[j] == base.info[j].(refCount := |SlotsBefore(s.newTable, order[j], bucket + 1, 0)|)
    { BeforeRowEnd(s.newTable, order[j], bucket, h.bucketSize); }
  }

  // The third loop puts every reference back.
  lemma {:induction false} ReadBucketsOk(h: Hashing, s: State, order: seq<int>, bucket: nat,
                                         base: State, st: State) returns (r: State)
    requires Source(h, s, order, base) && Linked(s, order, bucket, 0, base, st) && bucket <= h.newBuckets
    requires forall slot :: slot in s.newTable ==> slot.pos < h.bucketSize
    ensures ReadBuckets(h, Reading(st, Buckets(h, s, bucket)), bucket, h.newBuckets, true) == Done(Reading(r, []))
    ensures Linked(s, order, h.newBuckets, 0, base, r)
    decreases h.newBuckets - bucket
  {
    if bucket == h.newBuckets {
      r := st;
    } else {
      var row := BucketTokens(s, bucket, 0, h.bucketSize);
      var tail := Buckets(h, s, bucket + 1);
      var t := Buckets(h, s, bucket);
      assert t[0] == Int(|row|) && t[1..] == row + tail;
      var mid := RowRead(h, s, bucket, 0, st);
      ReadRowIs(h, s, bucket, 0, st, tail);
      RowLinked(h, s, order, bucket, 0, base, st);
      RowEnd(h, s, order, bucket, base, mid);
      r := ReadBucketsOk(h, s, order, bucket + 1, base, mid);
    }
  }

  // --------------------------------------------------------- the loaded manager

  // r is s with entry order[j] renamed to j: the same key and counters, the
  // same persistent record, table membership and reference count for every
  // entry, and the same entry in every slot of both tables.
  ghost predicate Renamed(s: State, order: seq<int>, r: State) {
    && r.key == s.key && r.nNew == s.nNew && r.nTried == s.nTried && r.idCount == |order|
    && (forall id :: id in s.info <==> id in order)
    && (forall j :: j in r.info <==> 0 <= j < |order|)
    && (forall j :: 0 <= j < |order| ==>
          && order[j] in s.info
          && r.info[j] == Restored(Saved(s.info[order[j]]), j, s.info[order[j]].inTried)
                            .(refCount := s.info[order[j]].refCount))
    && SameTable(s.newTable, order, r.newTable)
    && SameTable(s.triedTable, order, r.triedTable)
  }

  ghost predicate SameTable(t: map<Slot, int>, order: seq<int>, t': map<Slot, int>) {
    && (forall slot :: slot in t <==> slot in t')
    && (forall slot :: slot in t' ==> 0 <= t'[slot] < |order| && order[t'[slot]] == t[slot])
  }

  ghost predicate Indices(s: State, order: seq<int>, r: State) {
    && AddrRead(s, order, |order|, r.addr)
    && |r.random| == |order| && (forall j :: 0 <= j < |order| ==> r.random[j] == j)
  }

  lemma AllBefore(h: Hashing, s: State, id: int)
    requires forall slot :: slot in s.newTable ==> slot.bucket < h.newBuckets
    ensures SlotsBefore(s.newTable, id, h.newBuckets, 0) == SlotsOf(s.newTable, id)
  {}

  lemma NewTableRenamed(h: Hashing, s: State, order: seq<int>, newTable: map<Slot, int>)
    requires h.Ok() && GoodOrder(s, order) && NewTableOk(h, s.key, s.info, s.newTable)
    requires TableLinked(s, h.newBuckets, 0, newTable)
    ensures SameTable(s.newTable, order, newTable)
  {}

  lemma TriedTableRenamed(h: Hashing, s: State, order: seq<int>, triedTable: map<Slot, int>)
    requires h.Ok() && GoodOrder(s, order) && TriedTableOk(h, s.key, s.info, s.triedTable)
    requires TriedRead(h, s, order, |order|, triedTable)
    ensures SameTable(s.triedTable, order, triedTable)
  {
    forall slot | slot in s.triedTable ensures slot in triedTable {
      var id := s.triedTable[slot];
      assert id in order;
      var j :| 0 <= j < |order| && order[j] == id;
    }
  }

  lemma LoadedRenamed(h: Hashing, s: State, order: seq<int>, base: State, r: State)
    requires Source(h, s, order, base) && TriedTableOk(h, s.key, s.info, s.triedTable)
    requires Prefix(h, s, order, |order|, base) && base.idCount == |order| && base.nTried == s.nTried
    requires Linked(s, order, h.newBuckets, 0, base, r)
    ensures Renamed(s, order, r) && Indices(s, order, r)
  {
    NewTableRenamed(h, s, order, r.newTable);
    TriedTableRenamed(h, s, order, r.triedTable);
    forall j | 0 <= j < |order|
      ensures r.info[j] == Restored(Saved(s.info[order[j]]), j, s.info[order[j]].inTried)
                             .(refCount := s.info[order[j]].refCount)
    {
      AllBefore(h, s, order[j]);
      assert s.info[order[j]].refCount == |SlotsOf(s.newTable, order[j])|;
    }
  }

  // -------------------------------------------------- ... is consistent again

  lemma RenamedIndexed(s: State, order: seq<int>, r: State)
    requires Renamed(s, order, r) && Indices(s, order, r)
    ensures Indexed(r)
  {
    forall ip | ip in r.addr ensures r.addr[ip] in r.info && r.info[r.addr[ip]].service.ip == ip {
      assert 0 <= r.addr[ip] < |order|;
    }
    forall j | j in r.info ensures r.info[j].service.ip in r.addr && r.addr[r.info[j].service.ip] == j {
      assert order[j] in s.info;
    }
  }

  lemma RenamedEntries(s: State, order: seq<int>, r: State)
    requires Renamed(s, order, r) && Entries(s.info, {})
    ensures Entries(r.info, {})
  {
    forall j | j in r.info ensures EntryOk(r.info[j], j in {}) {
      var id := order[j];
      assert id in s.info && EntryOk(s.info[id], id in {});
    }
  }

  lemma RenamedSlots(s: State, order: seq<int>, r: State, j: nat)
    requires SameTable(s.newTable, order, r.newTable) && GoodOrder(s, order) && j < |order|
    ensures SlotsOf(r.newTable, j) == SlotsOf(s.newTable, order[j])
  {
    forall slot ensures slot in SlotsOf(r.newTable, j) <==> slot in SlotsOf(s.newTable, order[j]) {
      if slot in s.newTable && s.newTable[slot] == order[j] {
        var k := r.newTable[slot];
        assert order[k] == order[j];
      }
    }
  }

  lemma RenamedNewTable(h: Hashing, s: State, order: seq<int>, r: State)
    requires h.Ok() && GoodOrder(s, order) && NewTableOk(h, s.key, s.info, s.newTable) && Renamed(s, order, r)
    ensures NewTableOk(h, r.key, r.info, r.newTable)
  {
    forall j | j in r.info ensures r.info[j].refCount == |SlotsOf(r.newTable, j)| {
      RenamedSlots(s, order, r, j);
    }
  }

  lemma RenamedTriedTable(h: Hashing, s: State, order: seq<int>, r: State)
    requires h.Ok() && GoodOrder(s, order) && TriedTableOk(h, s.key, s.info, s.triedTable) && Renamed(s, order, r)
    ensures TriedTableOk(h, r.key, r.info, r.triedTable)
  {
    forall j | j in r.info && r.info[j].inTried
      ensures var slot := h.TriedSlot(r.key, r.info[j].service); slot in r.triedTable && r.triedTable[slot] == j
    {
      var id := order[j];
      assert id in s.info && s.info[id].inTried;
      var slot := h.TriedSlot(s.key, s.info[id].service);
      assert slot in s.triedTable && s.triedTable[slot] == id;
      assert order[r.triedTable[slot]] == order[j];
    }
  }

  function Interval(a: nat, b: nat): set<int>
    decreases b - a
  {
    if a >= b then {} else Interval(a, b - 1) + {b - 1}
  }

  lemma {:induction false} IntervalSize(a: nat, b: nat)
    requires a <= b
    ensures |Interval(a, b)| == b - a
    ensures forall j :: j in Interval(a, b) <==> a <= j < b
  {
    if a < b { IntervalSize(a, b - 1); }
  }

  lemma SplitCounts(info: map<int, Info>, n: nat, m: nat)
    requires n <= m && (forall j :: j in info <==> 0 <= j < m)
    requires forall j :: 0 <= j < m ==> (info[j].inTried <==> j >= n)
    ensures Counted(info, m - n, n, 0)
  {
    IntervalSize(n, m);
    IntervalSize(0, n);
    forall j ensures j in TriedIds(info) <==> j in Interval(n, m) {
      if 0 <= j < m { assert info[j].inTried <==> j >= n; }
    }
    assert TriedIds(info) == Interval(n, m);
    forall j ensures j in info.Keys - TriedIds(info) <==> j in Interval(0, n) {
      assert j in info.Keys <==> 0 <= j < m;
    }
    assert info.Keys - TriedIds(info) == Interval(0, n);
  }

  lemma RenamedCounted(s: State, order: seq<int>, r: State)
    requires GoodOrder(s, order) && Renamed(s, order, r)
    ensures Counted(r.info, r.nTried, r.nNew, 0)
  {
    SplitCounts(r.info, s.nNew, |order|);
  }

  lemma RenamedConsistent(h: Hashing, s: State, order: seq<int>, r: State)
    requires Consistent(h, s) && GoodOrder(s, order) && Renamed(s, order, r) && Indices(s, order, r)
    ensures Consistent(h, r)
  {
    RenamedIndexed(s, order, r);
    RenamedEntries(s, order, r);
    RenamedNewTable(h, s, order, r);
    RenamedTriedTable(h, s, order, r);
    RenamedCounted(s, order, r);
    RenamedTimely(s, order, r);
  }

  lemma RenamedTimely(s: State, order: seq<int>, r: State)
    requires Renamed(s, order, r) && Timely(s.info)
    ensures Timely(r.info)
  {
    forall j | j in r.info ensures EntryTimely(r.info[j]) {
      var id := order[j];
      assert id in s.info && r.info[j] == Restored(Saved(s.info[id]), j, s.info[id].inTried)
                                            .(refCount := s.info[id].refCount);
      assert EntryTimely(s.info[id]);
    }
  }

  // ------------------------------------------------------------ the round trip

  lemma FlipTwice(n: int)
    ensures Flip30(Flip30(n)) == n
  {}

  lemma {:induction false} NothingPruned(s: State, ids: seq<int>, lost: nat)
    requires forall id :: id in s.info ==> !Loose(s.info[id])
    ensures Prune(s, ids, lost) == Some((s, lost))
  {
    if ids != [] { NothingPruned(s, ids[1..], lost); }
  }

  lemma NotLoose(info: map<int, Info>)
    requires Entries(info, {})
    ensures forall id :: id in info ==> !Loose(info[id])
  {
    forall id | id in info ensures !Loose(info[id]) { assert EntryOk(info[id], id in {}); }
  }

  lemma StartPrefix(h: Hashing, s: State, order: seq<int>)
    requires h.Ok()
    ensures Prefix(h, s, order, 0, Fresh(s.key).(nNew := s.nNew, nTried := s.nTried))
  {}

  lemma StartLinked(h: Hashing, s: State, order: seq<int>, base: State)
    requires Prefix(h, s, order, |order|, base) && GoodOrder(s, order)
    ensures Linked(s, order, 0, 0, base, base)
  {
    forall j | 0 <= j < |order| ensures base.info[j] ==
      base.info[j].(refCount := |SlotsBefore(s.newTable, order[j], 0, 0)|) {
      assert SlotsBefore(s.newTable, order[j], 0, 0) == {};
    }
  }

  lemma BaseSource(h: Hashing, s: State, order: seq<int>, base: State)
    requires Consistent(h, s) && GoodOrder(s, order) && Prefix(h, s, order, |order|, base) && base.nNew == s.nNew
    ensures Source(h, s, order, base)
  {
    forall id | id in s.info ensures s.info[id].refCount <= NEW_BUCKETS_PER_ADDRESS {
      assert EntryOk(s.info[id], false);
    }
  }

  // The loops read what they should, one after the other.
  ghost predicate Reads(h: Hashing, start: State, body: seq<Token>, entries: Reading, base: Reading, r: Reading) {
    && h.Ok()
    && ReadNew(h, Reading(start, body), 0, true) == Done(entries)
    && ReadTried(h, Reading(entries.s.(idCount := entries.s.nNew), entries.rest), 0, 0) == Done((base, 0))
    && ReadBuckets(h, base, 0, h.newBuckets, true) == Done(r)
  }

  function Start(s: State): State { Fresh(s.key).(nNew := s.nNew, nTried := s.nTried) }

  // What follows the new entries, and all that follows the header.
  function Tail(h: Hashing, s: State, order: seq<int>): seq<Token>
    requires 0 <= s.nNew <= |order|
  { Records(s.info, order[s.nNew..]) + Buckets(h, s, 0) }

  function Body(h: Hashing, s: State, order: seq<int>): seq<Token>
    requires 0 <= s.nNew <= |order|
  { Records(s.info, order[..s.nNew]) + Tail(h, s, order) }

  lemma NewEntriesRead(h: Hashing, s: State, order: seq<int>) returns (r: State)
    requires Consistent(h, s) && GoodOrder(s, order)
    ensures ReadNew(h, Reading(Start(s), Body(h, s, order)), 0, true) == Done(Reading(r, Tail(h, s, order)))
    ensures r.nNew == s.nNew && AtTried(h, s, order, 0, r.(idCount := s.nNew))
  {
    OrderApart(h, s, order);
    StartPrefix(h, s, order);
    assert order[0..s.nNew] == order[..s.nNew];
    r := ReadNewOk(h, s, order, 0, Start(s), Tail(h, s, order));
  }

  lemma TriedEntriesRead(h: Hashing, s: State, order: seq<int>, st: State) returns (r: State)
    requires AtTried(h, s, order, 0, st)
    ensures ReadTried(h, Reading(st, Tail(h, s, order)), 0, 0) == Done((Reading(r, Buckets(h, s, 0)), 0))
    ensures AtTried(h, s, order, s.nTried, r)
  {
    assert order[s.nNew..|order|] == order[s.nNew..];
    r := ReadTriedOk(h, s, order, 0, st, Buckets(h, s, 0));
  }

  lemma BucketsRead(h: Hashing, s: State, order: seq<int>, base: State) returns (r: State)
    requires Consistent(h, s) && AtTried(h, s, order, s.nTried, base)
    ensures ReadBuckets(h, Reading(base, Buckets(h, s, 0)), 0, h.newBuckets, true) == Done(Reading(r, []))
    ensures Renamed(s, order, r) && Indices(s, order, r)
  {
    assert s.nNew + s.nTried == |order|;
    r := BucketsReadFrom(h, s, order, base);
  }

  lemma BucketsReadFrom(h: Hashing, s: State, order: seq<int>, base: State) returns (r: State)
    requires Consistent(h, s) && GoodOrder(s, order) && Prefix(h, s, order, |order|, base)
    requires base.idCount == |order| && base.nNew == s.nNew && base.nTried == s.nTried
    ensures ReadBuckets(h, Reading(base, Buckets(h, s, 0)), 0, h.newBuckets, true) == Done(Reading(r, []))
    ensures Renamed(s, order, r) && Indices(s, order, r)
  {
    BaseSource(h, s, order, base);
    StartLinked(h, s, order, base);
    r := ReadBucketsOk(h, s, order, 0, base, base);
    LoadedRenamed(h, s, order, base, r);
  }

  lemma ReadAll(h: Hashing, s: State, order: seq<int>) returns (entries: Reading, base: Reading, r: Reading)
    requires Consistent(h, s) && GoodOrder(s, order)
    ensures Reads(h, Start(s), Body(h, s, order), entries, base, r)
    ensures Renamed(s, order, r.s) && Indices(s, order, r.s)
  {
    var e := NewEntriesRead(h, s, order);
    var b := TriedEntriesRead(h, s, order, e.(idCount := s.nNew));
    var l := BucketsRead(h, s, order, b);
    entries, base, r := Reading(e, Tail(h, s, order)), Reading(b, Buckets(h, s, 0)), Reading(l, []);
  }

  lemma SerializedParts(h: Hashing, s: State)
    requires Typed(s)
    ensures var t := Serialize(h, s); var order := Order(s);
      && |order| == s.nNew + s.nTried && |t| >= 6
      && t[..6] == [Byte(1), Byte(32), Key(s.key), Int(s.nNew), Int(s.nTried), Int(Flip30(h.newBuckets))]
      && t[6..] == Body(h, s, order)
  {
    CountsMatch(s);
    var order := Order(s);
    assert order[..s.nNew] == NewList(s.info, s.idCount);
    assert order[s.nNew..] == TriedList(s.info, s.idCount);
  }

  // A stream with a right header and size whose parts are read is loaded.
  lemma LoadsParts(h: Hashing, p: State, key: nat, t: seq<Token>, entries: Reading, base: Reading, r: Reading)
    requires h.Ok() && HeaderOk(t) && t[0].b == 1 && t[5].i == Flip30(h.newBuckets) && SizesOk(h, t[3].i, t[4].i)
    requires Reads(h, HeaderRead(Clear(p, key), t), t[6..], entries, base, r) && Entries(r.s.info, {})
    ensures Unserialize(h, p, key, t) == Loaded(r.s, 0, 0)
  {
    FlipTwice(h.newBuckets);
    assert base.s.(nTried := base.s.nTried - 0) == base.s;
    NotLoose(r.s.info);
    NothingPruned(r.s, Sorted(r.s.info.Keys), 0);
  }

  lemma SerializedHeader(h: Hashing, s: State, p: State, key: nat)
    requires Consistent(h, s)
    ensures var t := Serialize(h, s);
      && HeaderOk(t) && t[0].b == 1 && t[5].i == Flip30(h.newBuckets) && SizesOk(h, t[3].i, t[4].i)
      && HeaderRead(Clear(p, key), t) == Clear(p, s.key).(nNew := s.nNew, nTried := s.nTried)
      && |Order(s)| == s.nNew + s.nTried && 0 <= s.nNew <= |Order(s)| && t[6..] == Body(h, s, Order(s))
  {
    ConsistentTyped(h, s);
    SerializedParts(h, s);
    NewFits(h, s);
    TriedFits(h, s);
    HeaderTokens(Serialize(h, s), s.key, s.nNew, s.nTried, Flip30(h.newBuckets));
    HeaderFields(p, key, Serialize(h, s));
  }

  lemma HeaderTokens(t: seq<Token>, key: nat, nNew: int, nTried: int, nUBuckets: int)
    requires |t| >= 6 && t[..6] == [Byte(1), Byte(32), Key(key), Int(nNew), Int(nTried), Int(nUBuckets)]
    ensures HeaderOk(t) && t[0].b == 1 && t[2].k == key && t[3].i == nNew && t[4].i == nTried && t[5].i == nUBuckets
  {
    forall i | 0 <= i < 6 ensures t[i] == t[..6][i] {}
  }

  lemma HeaderFields(p: State, key: nat, t: seq<Token>)
    requires HeaderOk(t)
    ensures HeaderRead(Clear(p, key), t) == Clear(p, t[2].k).(nNew := t[3].i, nTried := t[4].i)
  {}

  // Loading what was saved into a manager without entries loses nothing: the
  // result is the same manager with its ids renumbered, it passes the
  // consistency check, and both counts of lost entries are zero.
  lemma RoundTrip(h: Hashing, p: State, key: nat, s: State)
    requires Consistent(h, s) && p.info == map[] && p.addr == map[]
    ensures var l := Unserialize(h, p, key, Serialize(h, s));
      && l.Loaded? && l.nLost == 0 && l.nLostUnk == 0
      && Renamed(s, Order(s), l.s) && Indices(s, Order(s), l.s)
      && Consistent(h, l.s)
  {
    ConsistentTyped(h, s);
    OrderIsGood(s);
    SerializedHeader(h, s, p, key);
    var entries, base, r := ReadAll(h, s, Order(s));
    RenamedConsistent(h, s, Order(s), r.s);
    LoadsParts(h, p, key, Serialize(h, s), entries, base, r);
  }
}
