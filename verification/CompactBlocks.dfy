/** Compact blocks (BIP 152): a block is announced by short ids of its
    transactions, with a few transactions prefilled. The receiver finds the
    others in its pool by their short ids and asks for those it misses. */
module CompactBlocks {
  import opened Options

  datatype Tx = Tx(hash: nat)

  const MAX_INDEX := 0xffff_ffff

  // Unsigned 32-bit numbers.
  type Index = n: nat | n <= 0xffff_ffff

  function Low32(n: int): (r: Index) { n % 0x1_0000_0000 }

  // The index counts from the prefilled transaction before. A null transaction
  // is None.
  datatype Prefilled = Prefilled(index: Index, tx: Option<Tx>)

  datatype Compact = Compact(isNull: bool, shortIds: seq<nat>, prefilled: seq<Prefilled>)

  // The last stands for a write outside the block, which the source does not
  // guard against.
  datatype Status = Ok | Invalid | Failed | CheckFailed | OutOfBounds

  function ShortIds(txs: seq<Tx>, short: nat -> nat): (r: seq<nat>)
    ensures |r| == |txs| && forall i :: 0 <= i < |txs| ==> r[i] == short(txs[i].hash)
  { if txs == [] then [] else [short(txs[0].hash)] + ShortIds(txs[1..], short) }

  // How the sender announces a block: the first transaction prefilled, the
  // others by the short ids of their hashes.
  function Announce(block: seq<Tx>, short: nat -> nat): Compact
    requires block != []
  { Compact(false, ShortIds(block[1..], short), [Prefilled(0, Some(block[0]))]) }

  /* Where prefilled transactions go */

  // The position in the block of the k-th prefilled transaction. One is added
  // to the index in 32 bits, so the largest index does not advance.
  function Position(pre: seq<Prefilled>, k: nat): (p: int)
    requires k < |pre|
    ensures p >= -1
  { (if k == 0 then -1 else Position(pre, k - 1)) + Low32(pre[k].index + 1) }

  predicate Placeable(c: Compact, k: nat)
    requires k < |c.prefilled|
  {
    && c.prefilled[k].tx.Some?
    && Position(c.prefilled, k) <= MAX_INDEX
    && Low32(Position(c.prefilled, k)) <= |c.shortIds| + k
  }

  // Passes the tests, but the position -1 is outside the block.
  predicate Strays(c: Compact) {
    c.prefilled != [] && Placeable(c, 0) && Position(c.prefilled, 0) == -1
  }

  // That takes at least 2^32 - 1 short ids.
  lemma StraysWhen(c: Compact)
    ensures Strays(c) <==>
      && c.prefilled != [] && c.prefilled[0].index == MAX_INDEX && c.prefilled[0].tx.Some?
      && |c.shortIds| >= MAX_INDEX
  {}

  predicate Wraps(pre: seq<Prefilled>, k: nat)
    requires k < |pre|
  { pre[k].index == MAX_INDEX }

  lemma {:induction false} PositionsIncrease(pre: seq<Prefilled>, j: nat, k: nat)
    requires j < k < |pre|
    ensures Position(pre, j) <= Position(pre, k)
    ensures Position(pre, j) == Position(pre, k) <==> forall i :: j < i <= k ==> Wraps(pre, i)
  {
    if j + 1 < k {
      PositionsIncrease(pre, j, k - 1);
    }
    assert Position(pre, k - 1) == Position(pre, k) <==> Wraps(pre, k);
  }

  type Slots = seq<Option<Tx>>

  ghost predicate AllPlaceable(c: Compact, n: nat)
    requires n <= |c.prefilled|
  { !Strays(c) && forall k :: 0 <= k < n ==> Placeable(c, k) }

  lemma InBlock(c: Compact, n: nat, k: nat)
    requires k < n <= |c.prefilled| && AllPlaceable(c, n)
    ensures 0 <= Position(c.prefilled, k) <= |c.shortIds| + k
  {
    assert Placeable(c, 0) && Placeable(c, k);
    if k > 0 {
      PositionsIncrease(c.prefilled, 0, k);
    }
  }

  lemma FirstStrays(c: Compact, i: nat)
    requires i < |c.prefilled| && Position(c.prefilled, i) < 0 && forall k :: 0 <= k <= i ==> Placeable(c, k)
    ensures Strays(c)
  {
    if i > 0 {
      PositionsIncrease(c.prefilled, 0, i);
    }
  }

  // The first n prefilled transactions in place.
  ghost function Filled(c: Compact, n: nat): (a: Slots)
    requires n <= |c.prefilled| && AllPlaceable(c, n)
    ensures |a| == |c.shortIds| + |c.prefilled|
  {
    if n == 0 then seq(|c.shortIds| + |c.prefilled|, _ => None)
    else
      InBlock(c, n, n - 1);
      Filled(c, n - 1)[Position(c.prefilled, n - 1) := c.prefilled[n - 1].tx]
  }

  // Nothing is placed from the next position on.
  lemma {:induction false} FilledAbove(c: Compact, n: nat, p: nat)
    requires n <= |c.prefilled| && AllPlaceable(c, n) && p < |c.shortIds| + |c.prefilled|
    requires n == 0 || Position(c.prefilled, n - 1) < p
    ensures Filled(c, n)[p].None?
  {
    if n > 0 {
      if n > 1 {
        PositionsIncrease(c.prefilled, n - 2, n - 1);
      }
      FilledAbove(c, n - 1, p);
    }
  }

  // A transaction stays where it is put, unless all that follow go there too.
  lemma {:induction false} FilledAt(c: Compact, n: nat, k: nat)
    requires k < n <= |c.prefilled| && AllPlaceable(c, n)
    ensures 0 <= Position(c.prefilled, k) < |Filled(c, n)| && Filled(c, n)[Position(c.prefilled, k)].Some?
    ensures k + 1 == n || !Wraps(c.prefilled, k + 1) ==>
      Filled(c, n)[Position(c.prefilled, k)] == c.prefilled[k].tx
  {
    InBlock(c, n, k);
    assert Placeable(c, n - 1);
    if k < n - 1 {
      FilledAt(c, n - 1, k);
      PositionsIncrease(c.prefilled, k, n - 1);
    }
  }

  /* The empty positions */

  // The positions from p on that hold nothing, in order.
  function Empties(a: Slots, p: nat): seq<nat>
    requires p <= |a|
    decreases |a| - p
  {
    if p == |a| then []
    else if a[p].None? then [p] + Empties(a, p + 1)
    else Empties(a, p + 1)
  }

  lemma {:induction false} EmptiesAre(a: Slots, p: nat)
    requires p <= |a|
    ensures var r := Empties(a, p);
      && (forall j :: p <= j < |a| && a[j].None? ==> j in r)
      && (forall i :: 0 <= i < |r| ==> p <= r[i] < |a| && a[r[i]].None?)
      && (forall i, j :: 0 <= i < j < |r| ==> r[i] < r[j])
    decreases |a| - p
  {
    if p < |a| {
      EmptiesAre(a, p + 1);
      var r, rest := Empties(a, p), Empties(a, p + 1);
      assert r == if a[p].None? then [p] + rest else rest;
      forall j | p <= j < |a| && a[j].None? ensures j in r {
        assert j == p || j in rest;
      }
      forall i | 0 <= i < |r| ensures p <= r[i] < |a| && a[r[i]].None? {
        assert a[p].None? && i > 0 ==> r[i] == rest[i - 1];
      }
    }
  }

  // Filling an empty position leaves one less.
  lemma {:induction false} EmptiesFill(a: Slots, p: nat, q: nat, t: Tx)
    requires p <= |a| && q < |a| && a[q].None?
    ensures |Empties(a[q := Some(t)], p)| == |Empties(a, p)| - if p <= q then 1 else 0
    decreases |a| - p
  {
    if p < |a| {
      EmptiesFill(a, p + 1, q, t);
    }
  }

  // Replacing a transaction leaves the same.
  lemma {:induction false} EmptiesKept(a: Slots, p: nat, q: nat, t: Tx)
    requires p <= |a| && q < |a| && a[q].Some?
    ensures Empties(a[q := Some(t)], p) == Empties(a, p)
    decreases |a| - p
  {
    if p < |a| {
      EmptiesKept(a, p + 1, q, t);
    }
  }

  // The positions after the first one that is empty.
  lemma EmptiesNext(a: Slots, p: nat)
    requires p < |a| && a[p].None?
    ensures Empties(a, p)[0] == p && Empties(a, p + 1) == Empties(a, p)[1..]
  {}

  /* Receiving */

  class PartiallyDownloadedBlock {
    var isNull: bool
    var txnsAvailable: Slots
    var prefilledCount: nat
    var mempoolCount: nat

    constructor ()
      ensures isNull && txnsAvailable == [] && mempoolCount == 0
    {
      isNull, txnsAvailable, prefilledCount, mempoolCount := true, [], 0, 0;
    }

    // Puts the prefilled transactions in place, or finds that one has no place.
    method Prefill(c: Compact) returns (status: Status)
      modifies `txnsAvailable
      ensures status == OutOfBounds <==> Strays(c)
      ensures status == Ok <==> AllPlaceable(c, |c.prefilled|)
      ensures status in {Ok, Invalid, OutOfBounds}
      ensures status == Ok ==> txnsAvailable == Filled(c, |c.prefilled|)
    {
      txnsAvailable := seq(|c.shortIds| + |c.prefilled|, _ => None);
      var last := -1;
      for i := 0 to |c.prefilled|
        invariant last == if i == 0 then -1 else Position(c.prefilled, i - 1)
        invariant i == 0 ==> txnsAvailable == seq(|c.shortIds| + |c.prefilled|, _ => None)
        invariant i > 0 ==> AllPlaceable(c, i) && txnsAvailable == Filled(c, i)
      {
        var p := c.prefilled[i];
        if p.tx.None? {
          assert !Placeable(c, i);
          return Invalid;
        }
        last := last + Low32(p.index + 1);
        if last > MAX_INDEX || Low32(last) > |c.shortIds| + i {
          assert !Placeable(c, i);
          return Invalid;
        }
        assert Placeable(c, i);
        if last < 0 {
          FirstStrays(c, i);
          return OutOfBounds;
        }
        InBlock(c, i + 1, i);
        txnsAvailable := txnsAvailable[last := p.tx];
      }
      return Ok;
    }

    // Takes in a transaction that has the short id of a position.
    method Take(pos: nat, tx: Tx, same: bool, have: seq<bool>) returns (have': seq<bool>)
      requires pos < |txnsAvailable| == |have| && (txnsAvailable[pos].Some? && have[pos] ==> mempoolCount > 0)
      modifies `txnsAvailable, `mempoolCount
      ensures Progress(txnsAvailable, have', mempoolCount) ==
        Took(Progress(old(txnsAvailable), have, old(mempoolCount)), pos, tx, same)
    {
      have' := have;
      if !have[pos] {
        txnsAvailable := txnsAvailable[pos := Some(tx)];
        have' := have[pos := true];
        mempoolCount := mempoolCount + 1;
      } else if txnsAvailable[pos].Some? && !same {
        txnsAvailable := txnsAvailable[pos := None];
        mempoolCount := mempoolCount - 1;
      }
    }

    // Goes through known transactions until every slot is filled. Those of the
    // pool empty a slot that is filled already; the extra ones only if they are
    // different.
    method Match(ghost start: Slots, ids: seq<nat>, ghost slots: seq<nat>, m: map<nat, nat>, known: seq<(nat, Tx)>,
                 short: nat -> nat,
                 from: nat, to: nat, extra: bool, have: seq<bool>) returns (have': seq<bool>)
      requires from <= to <= |known| && IdsMapped(ids, slots, m)
      requires Matching(start, ids, slots, known, short, Progress(txnsAvailable, have, mempoolCount))
      modifies `txnsAvailable, `mempoolCount
      ensures Matching(start, ids, slots, known, short, Progress(txnsAvailable, have', mempoolCount))
    {
      have' := have;
      for k := from to to
        invariant Matching(start, ids, slots, known, short, Progress(txnsAvailable, have', mempoolCount))
      {
        var id := short(known[k].0);
        if id in m {
          ghost var j := IndexOfId(ids, slots, m, id);
          ghost var p := Progress(txnsAvailable, have', mempoolCount);
          var pos := m[id];
          var same := extra && txnsAvailable[pos].Some? && txnsAvailable[pos].value.hash == known[k].1.hash;
          MatchingNext(start, ids, slots, known, short, p, k, j, same);
          SlotCounts(p, slots, j);
          have' := Take(pos, known[k].1, same, have');
        }
        if mempoolCount == |m| {
          break;
        }
      }
    }

    // Starts a block from its announcement, the pool and some extra
    // transactions. maxCount bounds the number of transactions; crowded says
    // where the hash table of ids becomes too uneven.
    method InitData(c: Compact, maxCount: nat, pool: seq<Tx>, extras: seq<(nat, Tx)>, short: nat -> nat,
                    crowded: nat -> bool)
      returns (status: Status)
      requires isNull && txnsAvailable == [] && mempoolCount == 0
      modifies this
      ensures status == OutOfBounds <==> Sized(c, maxCount) && Strays(c)
      ensures status == Invalid <==> !Sized(c, maxCount) || (!Strays(c) && !Acceptable(c, maxCount))
      ensures Acceptable(c, maxCount) ==>
        (status == Ok <==> NoTwice(c.shortIds) && forall i :: 0 <= i < |c.shortIds| ==> !crowded(i))
      ensures status != CheckFailed
      ensures status == Ok ==> !isNull && Initialized(c, KnownTxs(pool, extras), short, txnsAvailable, mempoolCount)
    {
      if c.isNull || (c.shortIds == [] && c.prefilled == []) {
        return Invalid;
      }
      if |c.shortIds| + |c.prefilled| > maxCount {
        return Invalid;
      }
      isNull := false;
      status := Prefill(c);
      if status != Ok {
        return;
      }
      prefilledCount := |c.prefilled|;
      FilledCount(c, |c.prefilled|);
      ghost var start, slots := txnsAvailable, IdSlots(c);
      IdSlotsAre(c);
      var ok, m := MapShortIds(c.shortIds, txnsAvailable, crowded);
      if !ok {
        return Failed;
      }
      var known := KnownTxs(pool, extras);
      MatchingStart(start, c.shortIds, slots, known, short);
      var have: seq<bool> := seq(|txnsAvailable|, _ => false);
      have := Match(start, c.shortIds, slots, m, known, short, 0, |pool|, false, have);
      have := Match(start, c.shortIds, slots, m, known, short, |pool|, |known|, true, have);
      InitializedBy(c, known, short, Progress(txnsAvailable, have, mempoolCount));
      return Ok;
    }

    // Completes the block with the transactions that were asked for.
    method FillBlock(missing: seq<Tx>, check: seq<Tx> -> bool, corrupt: seq<Tx> -> bool)
      returns (status: Status, block: seq<Tx>)
      requires !isNull
      modifies this
      ensures Restored(old(txnsAvailable), missing).None? <==> status == Invalid
      ensures status != Invalid ==>
        block == Restored(old(txnsAvailable), missing).value && isNull && txnsAvailable == []
      ensures status != Invalid ==>
        status == (if check(block) then Ok else if corrupt(block) then Failed else CheckFailed)
    {
      ghost var a := txnsAvailable;
      block := [];
      var offset := 0;
      assert a[0..] == a && missing[0..] == missing;
      PrependNothing(Restored(a, missing));
      for i := 0 to |txnsAvailable|
        invariant offset <= |missing| && |txnsAvailable| == |a| && txnsAvailable[i..] == a[i..]
        invariant Restored(a, missing) == Prepend(block, Restored(a[i..], missing[offset..]))
      {
        assert txnsAvailable[i] == txnsAvailable[i..][0] == a[i..][0] && a[i..][1..] == a[i + 1..];
        if txnsAvailable[i].None? {
          if |missing| <= offset {
            return Invalid, block;
          }
          assert missing[offset..][1..] == missing[offset + 1..];
          PrependMore(block, missing[offset], Restored(a[i + 1..], missing[offset + 1..]));
          block := block + [missing[offset]];
          offset := offset + 1;
        } else {
          PrependMore(block, a[i].value, Restored(a[i + 1..], missing[offset..]));
          block := block + [txnsAvailable[i].value];
          txnsAvailable := txnsAvailable[i := None];
        }
      }
      assert a[|a|..] == [];
      isNull := true;
      txnsAvailable := [];
      if |missing| != offset {
        return Invalid, block;
      }
      status := if check(block) then Ok else if corrupt(block) then Failed else CheckFailed;
    }
  }

  // The transactions the receiver knows, with the hash that each goes by.
  function KnownTxs(pool: seq<Tx>, extras: seq<(nat, Tx)>): (r: seq<(nat, Tx)>)
    ensures |r| == |pool| + |extras|
    ensures forall i :: 0 <= i < |pool| ==> r[i] == (pool[i].hash, pool[i])
    ensures forall i :: 0 <= i < |extras| ==> r[|pool| + i] == extras[i]
  { if pool == [] then extras else [(pool[0].hash, pool[0])] + KnownTxs(pool[1..], extras) }

  predicate Sized(c: Compact, maxCount: nat) {
    !c.isNull && 0 < |c.shortIds| + |c.prefilled| <= maxCount
  }

  ghost predicate Acceptable(c: Compact, maxCount: nat) {
    Sized(c, maxCount) && AllPlaceable(c, |c.prefilled|)
  }

  // The state after a successful start.
  ghost predicate Initialized(c: Compact, known: seq<(nat, Tx)>, short: nat -> nat, a: Slots, count: nat) {
    && AllPlaceable(c, |c.prefilled|) && |a| == |c.shortIds| + |c.prefilled|
    && (forall k :: 0 <= k < |c.prefilled| && (k + 1 == |c.prefilled| || !Wraps(c.prefilled, k + 1)) ==>
          0 <= Position(c.prefilled, k) < |a| && a[Position(c.prefilled, k)] == c.prefilled[k].tx)
    && AreSlots(Filled(c, |c.prefilled|), c.shortIds, IdSlots(c))
    && (forall i :: 0 <= i < |c.shortIds| ==>
          a[IdSlots(c)[i]].Some? ==> Known(known, short, c.shortIds[i], a[IdSlots(c)[i]].value))
    && count == Count(a, IdSlots(c), |c.shortIds|)
  }

  lemma InitializedBy(c: Compact, known: seq<(nat, Tx)>, short: nat -> nat, p: Progress)
    requires AllPlaceable(c, |c.prefilled|) && p.count >= 0
    requires Matching(Filled(c, |c.prefilled|), c.shortIds, IdSlots(c), known, short, p)
    ensures Initialized(c, known, short, p.a, p.count)
  {
    forall k | 0 <= k < |c.prefilled| && (k + 1 == |c.prefilled| || !Wraps(c.prefilled, k + 1))
      ensures 0 <= Position(c.prefilled, k) < |p.a| && p.a[Position(c.prefilled, k)] == c.prefilled[k].tx
    {
      FilledAt(c, |c.prefilled|, k);
    }
    forall i | 0 <= i < |c.shortIds|
      ensures p.a[IdSlots(c)[i]].Some? ==> Known(known, short, c.shortIds[i], p.a[IdSlots(c)[i]].value)
    {
      assert SlotOk(c.shortIds, IdSlots(c), known, short, p, i);
    }
  }

  function Prepend(s: seq<Tx>, r: Option<seq<Tx>>): Option<seq<Tx>> {
    if r.None? then None else Some(s + r.value)
  }

  lemma PrependNothing(r: Option<seq<Tx>>)
    ensures Prepend([], r) == r
  {
    if r.Some? {
      assert [] + r.value == r.value;
    }
  }

  lemma PrependMore(s: seq<Tx>, x: Tx, r: Option<seq<Tx>>)
    ensures Prepend(s, Prepend([x], r)) == Prepend(s + [x], r)
  {
    if r.Some? {
      assert s + ([x] + r.value) == (s + [x]) + r.value;
    }
  }

  // The block with the missing transactions put in, in order; nothing if there
  // are too few or too many.
  function Restored(a: Slots, missing: seq<Tx>): Option<seq<Tx>> {
    if a == [] then (if missing == [] then Some([]) else None)
    else if a[0].Some? then Prepend([a[0].value], Restored(a[1..], missing))
    else if missing == [] then None
    else Prepend([missing[0]], Restored(a[1..], missing[1..]))
  }

  lemma IndexOfId(ids: seq<nat>, slots: seq<nat>, m: map<nat, nat>, id: nat) returns (j: nat)
    requires IdsMapped(ids, slots, m) && id in m
    ensures j < |ids| && ids[j] == id && m[id] == slots[j]
  {
    InSetOf(ids, id);
    j :| 0 <= j < |ids| && ids[j] == id;
    assert MappedAt(ids, slots, m, j);
  }

  // A filled slot is counted.
  lemma SlotCounts(p: Progress, slots: seq<nat>, j: nat)
    requires j < |slots| && (forall i :: 0 <= i < |slots| ==> slots[i] < |p.a|) && p.count == Count(p.a, slots, |slots|)
    ensures p.a[slots[j]].Some? ==> p.count > 0
  {
    if p.a[slots[j]].Some? {
      CountAtLeast(p.a, slots, |slots|, j);
    }
  }

  lemma {:induction false} CountAtLeast(a: Slots, slots: seq<nat>, n: nat, j: nat)
    requires j < n <= |slots| && (forall i :: 0 <= i < |slots| ==> slots[i] < |a|) && a[slots[j]].Some?
    ensures Count(a, slots, n) > 0
  {
    if j < n - 1 {
      CountAtLeast(a, slots, n - 1, j);
    }
  }

  // The next empty position.
  method NextEmpty(a: Slots, start: nat) returns (p: nat)
    requires start <= |a| && Empties(a, start) != []
    ensures p == Empties(a, start)[0] && start <= p < |a| && Empties(a, p + 1) == Empties(a, start)[1..]
  {
    p := start;
    while a[p].Some?
      invariant start <= p < |a| && Empties(a, p) == Empties(a, start)
      decreases |a| - p
    {
      p := p + 1;
    }
    EmptiesNext(a, p);
  }

  // Gives every short id the next empty position. Uneven hashing of the ids,
  // and two equal ids, make it fail.
  method MapShortIds(ids: seq<nat>, a: Slots, crowded: nat -> bool) returns (ok: bool, m: map<nat, nat>)
    requires |Empties(a, 0)| >= |ids|
    ensures ok <==> NoTwice(ids) && forall i :: 0 <= i < |ids| ==> !crowded(i)
    ensures ok ==> IdsMapped(ids, Empties(a, 0)[..|ids|], m)
  {
    ghost var all := Empties(a, 0);
    ghost var slots := all[..|ids|];
    m := map[];
    var offset: int := 0;
    for i := 0 to |ids|
      invariant 0 <= i + offset <= |a| && Empties(a, i + offset) == all[i..]
      invariant m.Keys == SetOf(ids[..i]) && (NoTwice(ids[..i]) ==> IdsMapped(ids[..i], slots[..i], m))
      invariant forall j :: 0 <= j < i ==> !crowded(j)
    {
      var p := NextEmpty(a, i + offset);
      offset := p - i;
      IdNext(ids, slots, m, i);
      m := m[ids[i] := i + offset];
      if crowded(i) {
        return false, m;
      }
    }
    assert ids[..|ids|] == ids && slots[..|ids|] == slots;
    SetCount(ids);
    return |m| == |ids|, m;
  }

  ghost predicate NoTwice(s: seq<nat>) { forall i, j :: 0 <= i < j < |s| ==> s[i] != s[j] }

  ghost function SetOf(s: seq<nat>): set<nat> { if s == [] then {} else SetOf(s[..|s| - 1]) + {s[|s| - 1]} }

  lemma {:induction false} InSetOf(s: seq<nat>, x: nat)
    ensures x in SetOf(s) <==> x in s
  {
    if s != [] {
      InSetOf(s[..|s| - 1], x);
      assert s == s[..|s| - 1] + [s[|s| - 1]];
    }
  }

  // A sequence has as many elements as its set exactly when none comes twice.
  lemma {:induction false} SetCount(s: seq<nat>)
    ensures |SetOf(s)| <= |s| && (|SetOf(s)| == |s| <==> NoTwice(s))
  {
    if s != [] {
      var rest, x := s[..|s| - 1], s[|s| - 1];
      SetCount(rest);
      InSetOf(rest, x);
      assert s == rest + [x];
      if x in rest {
        var i :| 0 <= i < |rest| && rest[i] == x;
        assert s[i] == s[|s| - 1];
        assert SetOf(s) == SetOf(rest);
      }
    }
  }

  // Every id leads to its own position.
  ghost predicate IdsMapped(ids: seq<nat>, slots: seq<nat>, m: map<nat, nat>) {
    |ids| == |slots| && m.Keys == SetOf(ids) && forall i :: 0 <= i < |ids| ==> MappedAt(ids, slots, m, i)
  }

  ghost predicate MappedAt(ids: seq<nat>, slots: seq<nat>, m: map<nat, nat>, i: nat)
    requires i < |ids| == |slots|
  { ids[i] in m && m[ids[i]] == slots[i] }

  lemma IdNext(ids: seq<nat>, slots: seq<nat>, m: map<nat, nat>, i: nat)
    requires i < |ids| == |slots| && m.Keys == SetOf(ids[..i])
    requires NoTwice(ids[..i]) ==> IdsMapped(ids[..i], slots[..i], m)
    ensures SetOf(ids[..i + 1]) == SetOf(ids[..i]) + {ids[i]}
    ensures NoTwice(ids[..i + 1]) ==> IdsMapped(ids[..i + 1], slots[..i + 1], m[ids[i] := slots[i]])
  {
    var ids', slots', m' := ids[..i + 1], slots[..i + 1], m[ids[i] := slots[i]];
    assert ids'[..i] == ids[..i];
    if NoTwice(ids') {
      assert NoTwice(ids[..i]) by {
        assert forall a :: 0 <= a < i ==> ids[..i][a] == ids'[a];
      }
      forall j | 0 <= j < i + 1
        ensures MappedAt(ids', slots', m', j)
      {
        if j < i {
          assert MappedAt(ids[..i], slots[..i], m, j);
          assert ids'[j] != ids'[i];
        }
      }
    }
  }

  // How many of the first n entries go where the one before went.
  function WrapCount(pre: seq<Prefilled>, n: nat): (r: nat)
    requires n <= |pre|
    ensures r <= n
  { if n <= 1 then 0 else WrapCount(pre, n - 1) + if Wraps(pre, n - 1) then 1 else 0 }

  // Every entry takes an empty position, except those that wrap.
  lemma {:induction false} FilledCount(c: Compact, n: nat)
    requires n <= |c.prefilled| && AllPlaceable(c, n)
    ensures |Empties(Filled(c, n), 0)| == |c.shortIds| + |c.prefilled| - n + WrapCount(c.prefilled, n)
  {
    if n == 0 {
      EmptiesCount(Filled(c, 0), 0);
    } else {
      FilledCount(c, n - 1);
      FilledNext(c, n);
    }
  }

  lemma FilledNext(c: Compact, n: nat)
    requires 0 < n <= |c.prefilled| && AllPlaceable(c, n)
    ensures |Empties(Filled(c, n), 0)|
      == |Empties(Filled(c, n - 1), 0)| - if n > 1 && Wraps(c.prefilled, n - 1) then 0 else 1
  {
    var p := Position(c.prefilled, n - 1);
    InBlock(c, n, n - 1);
    assert Placeable(c, n - 1);
    if n > 1 {
      PositionsIncrease(c.prefilled, n - 2, n - 1);
    }
    if n > 1 && Wraps(c.prefilled, n - 1) {
      FilledAt(c, n - 1, n - 2);
      EmptiesKept(Filled(c, n - 1), 0, p, c.prefilled[n - 1].tx.value);
    } else {
      FilledAbove(c, n - 1, p);
      EmptiesFill(Filled(c, n - 1), 0, p, c.prefilled[n - 1].tx.value);
    }
  }

  // The positions that the short ids get: the first that are empty.
  ghost function IdSlots(c: Compact): (r: seq<nat>)
    requires AllPlaceable(c, |c.prefilled|)
    ensures |r| == |c.shortIds|
  {
    FilledCount(c, |c.prefilled|);
    Empties(Filled(c, |c.prefilled|), 0)[..|c.shortIds|]
  }

  lemma IdSlotsAre(c: Compact)
    requires AllPlaceable(c, |c.prefilled|)
    ensures AreSlots(Filled(c, |c.prefilled|), c.shortIds, IdSlots(c))
  {
    var all := Empties(Filled(c, |c.prefilled|), 0);
    FilledCount(c, |c.prefilled|);
    EmptiesAre(Filled(c, |c.prefilled|), 0);
    assert forall i :: 0 <= i < |c.shortIds| ==> IdSlots(c)[i] == all[i];
  }

  /* Finding transactions by their short ids */

  // What the positions hold, which were ever filled, and how many are filled.
  datatype Progress = Progress(a: Slots, have: seq<bool>, count: int)

  // A transaction known by a hash, and the position of its short id. A second
  // one that is not the same empties the position again.
  function Took(p: Progress, pos: nat, tx: Tx, same: bool): Progress
    requires pos < |p.a| == |p.have|
  {
    if !p.have[pos] then Progress(p.a[pos := Some(tx)], p.have[pos := true], p.count + 1)
    else if p.a[pos].Some? && !same then Progress(p.a[pos := None], p.have, p.count - 1)
    else p
  }

  // How many of the first n slots are filled.
  function Count(a: Slots, slots: seq<nat>, n: nat): nat
    requires n <= |slots| && forall i :: 0 <= i < |slots| ==> slots[i] < |a|
  { if n == 0 then 0 else Count(a, slots, n - 1) + if a[slots[n - 1]].Some? then 1 else 0 }

  lemma {:induction false} CountPut(a: Slots, slots: seq<nat>, n: nat, j: nat, v: Option<Tx>)
    requires n <= |slots| && (forall i :: 0 <= i < |slots| ==> slots[i] < |a|) && j < |slots|
    requires forall i, k :: 0 <= i < k < |slots| ==> slots[i] < slots[k]
    ensures Count(a[slots[j] := v], slots, n) == Count(a, slots, n)
      + if j >= n then 0 else (if v.Some? then 1 else 0) - (if a[slots[j]].Some? then 1 else 0)
  {
    if n > 0 {
      CountPut(a, slots, n - 1, j, v);
    }
  }

  // What a position may be filled with: any of the known transactions whose
  // hash has the short id that belongs there.
  ghost predicate Known(known: seq<(nat, Tx)>, short: nat -> nat, id: nat, tx: Tx) {
    exists k :: 0 <= k < |known| && short(known[k].0) == id && known[k].1 == tx
  }

  // The positions of the short ids, in order.
  ghost predicate AreSlots(start: Slots, ids: seq<nat>, slots: seq<nat>) {
    && |slots| == |ids|
    && (forall i :: 0 <= i < |slots| ==> slots[i] < |start| && start[slots[i]].None?)
    && (forall i, j :: 0 <= i < j < |slots| ==> slots[i] < slots[j])
  }

  // The prefilled positions are as they were, every slot holds nothing or a
  // transaction with its short id, and the count is right.
  ghost predicate Matching(start: Slots, ids: seq<nat>, slots: seq<nat>, known: seq<(nat, Tx)>, short: nat -> nat,
                           p: Progress) {
    && AreSlots(start, ids, slots) && |p.a| == |p.have| == |start|
    && (forall j :: 0 <= j < |start| && start[j].Some? ==> p.a[j] == start[j])
    && (forall i :: 0 <= i < |ids| ==> SlotOk(ids, slots, known, short, p, i))
    && p.count == Count(p.a, slots, |slots|)
  }

  ghost predicate SlotOk(ids: seq<nat>, slots: seq<nat>, known: seq<(nat, Tx)>, short: nat -> nat, p: Progress, i: nat)
    requires i < |ids| == |slots| && slots[i] < |p.a| == |p.have|
  { p.a[slots[i]].Some? ==> p.have[slots[i]] && Known(known, short, ids[i], p.a[slots[i]].value) }

  lemma MatchingStart(start: Slots, ids: seq<nat>, slots: seq<nat>, known: seq<(nat, Tx)>, short: nat -> nat)
    requires AreSlots(start, ids, slots)
    ensures Matching(start, ids, slots, known, short, Progress(start, seq(|start|, _ => false), 0))
  {
    CountNone(start, slots, |slots|);
  }

  lemma {:induction false} CountNone(a: Slots, slots: seq<nat>, n: nat)
    requires n <= |slots| && forall i :: 0 <= i < |slots| ==> slots[i] < |a| && a[slots[i]].None?
    ensures Count(a, slots, n) == 0
  {
    if n > 0 {
      CountNone(a, slots, n - 1);
    }
  }

  lemma MatchingNext(start: Slots, ids: seq<nat>, slots: seq<nat>, known: seq<(nat, Tx)>, short: nat -> nat,
                     p: Progress, k: nat, j: nat, same: bool)
    requires Matching(start, ids, slots, known, short, p)
    requires k < |known| && j < |ids| && short(known[k].0) == ids[j]
    ensures Matching(start, ids, slots, known, short, Took(p, slots[j], known[k].1, same))
  {
    var r := Took(p, slots[j], known[k].1, same);
    assert Known(known, short, ids[j], known[k].1);
    assert SlotOk(ids, slots, known, short, p, j);
    forall i | 0 <= i < |ids|
      ensures SlotOk(ids, slots, known, short, r, i)
    {
      assert SlotOk(ids, slots, known, short, p, i);
    }
    TookCount(p, slots, j, known[k].1, same);
  }

  lemma TookCount(p: Progress, slots: seq<nat>, j: nat, tx: Tx, same: bool)
    requires |p.a| == |p.have| && (forall i :: 0 <= i < |slots| ==> slots[i] < |p.a|) && j < |slots|
    requires forall i, k :: 0 <= i < k < |slots| ==> slots[i] < slots[k]
    requires p.a[slots[j]].Some? ==> p.have[slots[j]]
    requires p.count == Count(p.a, slots, |slots|)
    ensures var r := Took(p, slots[j], tx, same); r.count == Count(r.a, slots, |slots|)
  {
    CountPut(p.a, slots, |slots|, j, Some(tx));
    CountPut(p.a, slots, |slots|, j, None);
  }

  /* What comes out */

  ghost predicate IsPrefilled(c: Compact, n: nat, p: nat)
    requires n <= |c.prefilled|
  { exists k :: 0 <= k < n && Position(c.prefilled, k) == p }

  // Every position of the block has a prefilled transaction or a short id, but
  // not both.
  ghost predicate SharedOut(c: Compact)
    requires AllPlaceable(c, |c.prefilled|)
  {
    forall p: nat :: p < |c.shortIds| + |c.prefilled| ==>
      (IsPrefilled(c, |c.prefilled|, p) <==> p !in IdSlots(c))
  }

  // Prefilled transactions and short ids share out the positions of the block
  // exactly if no entry after the first has the largest index.
  lemma PositionsShared(c: Compact)
    requires AllPlaceable(c, |c.prefilled|)
    ensures SharedOut(c) <==> forall k :: 0 < k < |c.prefilled| ==> !Wraps(c.prefilled, k)
  {
    FilledCount(c, |c.prefilled|);
    NoWraps(c.prefilled, |c.prefilled|);
    var all := Empties(Filled(c, |c.prefilled|), 0);
    if WrapCount(c.prefilled, |c.prefilled|) == 0 {
      assert all[..|c.shortIds|] == all;
      forall p: nat | p < |c.shortIds| + |c.prefilled| ensures IsPrefilled(c, |c.prefilled|, p) <==> p !in IdSlots(c) {
        PrefilledOrEmpty(c, p);
      }
    } else {
      LeftOver(c, all[|c.shortIds|]);
    }
  }

  lemma PrefilledOrEmpty(c: Compact, p: nat)
    requires AllPlaceable(c, |c.prefilled|) && p < |c.shortIds| + |c.prefilled|
    ensures IsPrefilled(c, |c.prefilled|, p) <==> p !in Empties(Filled(c, |c.prefilled|), 0)
  {
    var a := Filled(c, |c.prefilled|);
    EmptiesAre(a, 0);
    FilledFrom(c, |c.prefilled|, p);
  }

  // The empty position after those of the short ids has neither.
  lemma LeftOver(c: Compact, p: nat)
    requires AllPlaceable(c, |c.prefilled|)
    requires var all := Empties(Filled(c, |c.prefilled|), 0); |c.shortIds| < |all| && p == all[|c.shortIds|]
    ensures p < |c.shortIds| + |c.prefilled| && !IsPrefilled(c, |c.prefilled|, p) && p !in IdSlots(c)
  {
    EmptiesAre(Filled(c, |c.prefilled|), 0);
    PrefilledOrEmpty(c, p);
  }

  lemma {:induction false} NoWraps(pre: seq<Prefilled>, n: nat)
    requires n <= |pre|
    ensures WrapCount(pre, n) == 0 <==> forall k :: 0 < k < n ==> !Wraps(pre, k)
  {
    if n > 1 {
      NoWraps(pre, n - 1);
    }
  }

  lemma {:induction false} FilledFrom(c: Compact, n: nat, p: nat)
    requires n <= |c.prefilled| && AllPlaceable(c, n) && p < |c.shortIds| + |c.prefilled|
    ensures Filled(c, n)[p].Some? <==> IsPrefilled(c, n, p)
  {
    if n > 0 {
      FilledFrom(c, n - 1, p);
      assert Placeable(c, n - 1);
      if IsPrefilled(c, n - 1, p) {
        var k :| 0 <= k < n - 1 && Position(c.prefilled, k) == p;
        assert IsPrefilled(c, n, p);
      }
    }
  }

  // Two transactions prefilled at one position: the announcement is accepted,
  // and the second position has neither a transaction nor a short id.
  lemma WrappedIndex(a: Tx, b: Tx, maxCount: nat)
    requires maxCount >= 2
    ensures var c := Compact(false, [], [Prefilled(0, Some(a)), Prefilled(MAX_INDEX, Some(b))]);
      && Acceptable(c, maxCount) && !SharedOut(c)
      && Filled(c, 2) == [Some(b), None] && IdSlots(c) == []
  {
    var c := Compact(false, [], [Prefilled(0, Some(a)), Prefilled(MAX_INDEX, Some(b))]);
    assert Position(c.prefilled, 0) == 0 && Position(c.prefilled, 1) == 0;
    assert Placeable(c, 0) && Placeable(c, 1);
    assert Filled(c, 1) == Filled(c, 0)[0 := Some(a)];
    assert Wraps(c.prefilled, 1);
    PositionsShared(c);
  }

  // The transactions of the block that the receiver lacks, in order.
  function Wanted(a: Slots, block: seq<Tx>): seq<Tx>
    requires |a| == |block|
  {
    if a == [] then []
    else (if a[0].None? then [block[0]] else []) + Wanted(a[1..], block[1..])
  }

  ghost predicate Agrees(a: Slots, block: seq<Tx>) {
    |a| == |block| && forall j :: 0 <= j < |a| && a[j].Some? ==> a[j].value == block[j]
  }

  lemma {:induction false} RestoresBlock(a: Slots, block: seq<Tx>)
    requires Agrees(a, block)
    ensures Restored(a, Wanted(a, block)) == Some(block)
  {
    if a != [] {
      RestoresBlock(a[1..], block[1..]);
      assert block == [block[0]] + block[1..];
      if a[0].None? {
        assert Wanted(a, block)[1..] == Wanted(a[1..], block[1..]);
      } else {
        assert Wanted(a, block) == Wanted(a[1..], block[1..]);
      }
    }
  }

  // No transaction that the receiver knows has the short id of another one in
  // the block.
  ghost predicate NoForeign(block: seq<Tx>, known: seq<(nat, Tx)>, short: nat -> nat) {
    forall i, k :: 0 < i < |block| && 0 <= k < |known| && short(known[k].0) == short(block[i].hash) ==>
      known[k].1 == block[i]
  }

  // The receiver then has only transactions of the block, each in its place.
  lemma AnnouncedAgrees(block: seq<Tx>, short: nat -> nat, known: seq<(nat, Tx)>, a: Slots, count: nat)
    requires block != [] && NoForeign(block, known, short) &&
      Initialized(Announce(block, short), known, short, a, count)
    ensures Agrees(a, block)
  {
    var c := Announce(block, short);
    var start := Filled(c, 1);
    assert start == Filled(c, 0)[0 := Some(block[0])];
    var slots := Empties(start, 0);
    EmptiesAre(start, 0);
    SlotsAfterFirst(start, slots);
    assert IdSlots(c) == slots;
    forall j | 0 <= j < |a| && a[j].Some?
      ensures a[j].value == block[j]
    {
      if j == 0 {
        assert Position(c.prefilled, 0) == 0;
      } else {
        assert slots[j - 1] == j;
        assert Known(known, short, c.shortIds[j - 1], a[slots[j - 1]].value);
      }
    }
  }

  lemma SlotsAfterFirst(start: Slots, slots: seq<nat>)
    requires start != [] && start[0].Some? && (forall j :: 0 < j < |start| ==>
      start[j].None?) && slots == Empties(start, 0)
    ensures |slots| == |start| - 1 && forall i :: 0 <= i < |slots| ==> slots[i] == i + 1
  {
    EmptiesCount(start, 1);
  }

  lemma {:induction false} EmptiesCount(a: Slots, p: nat)
    requires p <= |a| && forall j :: p <= j < |a| ==> a[j].None?
    ensures |Empties(a, p)| == |a| - p && forall i :: 0 <= i < |a| - p ==> Empties(a, p)[i] == p + i
    decreases |a| - p
  {
    if p < |a| {
      EmptiesCount(a, p + 1);
    }
  }

  // With the transactions it then asks for, the receiver has the sender's block.
  lemma Reconstructs(block: seq<Tx>, short: nat -> nat, known: seq<(nat, Tx)>, a: Slots, count: nat)
    requires block != [] && NoForeign(block, known, short) &&
      Initialized(Announce(block, short), known, short, a, count)
    ensures |a| == |block| && Restored(a, Wanted(a, block)) == Some(block)
  {
    AnnouncedAgrees(block, short, known, a, count);
    RestoresBlock(a, block);
  }
}
