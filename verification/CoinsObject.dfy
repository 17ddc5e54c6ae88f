/** The coin cache as objects that change their map, its flags and the running
    memory total in place. Each method is proved to change the stored map as
    the function of the same purpose in Coins says, and to keep the memory total
    equal to the sum over the entries; the running total never goes negative. */
module CoinsObject {
  import opened Options
  import opened Coins
  import opened CoinsMeaning

  ghost predicate Misapplied(parent: Entries, child: Entries, o: OutPoint) {
    o in child && child[o].isDirty && child[o].isFresh && o in parent && !parent[o].coin.IsSpent()
  }

  // Writing one more entry of the child.
  lemma WrittenNext(parent: Entries, child: Entries, o: OutPoint, e: Entry)
    requires o !in child
    ensures var r := Written(WrittenAll(parent, child), o, e);
      && (r.None? <==> Misapplied(parent, child[o := e], o))
      && (r.Some? ==> r.value == WrittenAll(parent, child[o := e]))
  {
    var all := WrittenAll(parent, child);
    assert o in all <==> o in parent;
    assert o in parent ==> all[o] == parent[o];
    MergedNext(parent, child, o, e);
  }

  lemma MergedNext(parent: Entries, child: Entries, o: OutPoint, e: Entry)
    ensures WrittenAll(parent, child[o := e]) ==
      match Merged(parent, child[o := e], o)
      case None => WrittenAll(parent, child) - {o}
      case Some(f) => WrittenAll(parent, child)[o := f]
  {
    assert forall p :: p != o ==> Merged(parent, child[o := e], p) == Merged(parent, child, p);
  }

  // The entries of a child that are no longer waiting.
  function Done(child: Entries, left: set<OutPoint>): Entries { child - left }

  lemma BatchNext(parent: Entries, child: Entries, left: set<OutPoint>, o: OutPoint)
    requires o in left && left <= child.Keys
    ensures var r := Written(WrittenAll(parent, Done(child, left)), o, child[o]);
      && (r.None? <==> Misapplied(parent, child, o))
      && (r.Some? ==> r.value == WrittenAll(parent, Done(child, left - {o})))
  {
    WrittenNext(parent, Done(child, left), o, child[o]);
    assert Done(child, left)[o := child[o]] == Done(child, left - {o});
  }

  // Of the entries still waiting one is misapplied, of the others none.
  ghost predicate StoppedAt(parent: Entries, child: Entries, left: set<OutPoint>) {
    && left <= child.Keys && (exists o :: o in left && Misapplied(parent, child, o))
    && forall o :: o in child && o !in left ==> !Misapplied(parent, child, o)
  }

  lemma BatchEnds(parent: Entries, child: Entries)
    ensures WrittenAll(parent, Done(child, child.Keys)) == parent
    ensures Done(child, {}) == child
  {}

  class CoinsStore {
    var cacheCoins: Entries
    var cachedCoinsUsage: nat
    const memory: Script -> nat

    constructor (memory: Script -> nat)
      requires memory([]) == 0
      ensures this.memory == memory && cacheCoins == map[] && Accounted()
    {
      this.memory := memory;
      cacheCoins, cachedCoinsUsage := map[], 0;
    }

    ghost predicate Accounted()
      reads this
    { memory([]) == 0 && cachedCoinsUsage == TotalUsage(memory, cacheCoins) }

    method MoveOutCoins() returns (coins: Entries)
      requires Accounted()
      modifies this
      ensures coins == old(cacheCoins) && cacheCoins == map[] && Accounted()
    {
      cachedCoinsUsage := 0;
      coins := cacheCoins;
      cacheCoins := map[];
    }

    // Stores what was read from the base. The source asserts that no entry is
    // there yet.
    method Fill(o: OutPoint, coin: Coin)
      requires Accounted() && o !in cacheCoins
      modifies this
      ensures cacheCoins == Filled(old(cacheCoins), o, coin) && Accounted()
    {
      UsageWith(memory, cacheCoins, o, Entry(coin, false, coin.IsSpent()));
      assert cacheCoins - {o} == cacheCoins;
      cacheCoins := cacheCoins[o := Entry(coin, false, false)];
      if coin.IsSpent() {
        cacheCoins := cacheCoins[o := Entry(coin, false, true)];
      }
      cachedCoinsUsage := cachedCoinsUsage + cacheCoins[o].coin.Usage(memory);
    }

    method AddCoin(o: OutPoint, coin: Coin, overwrite: bool) returns (thrown: bool)
      requires Accounted()
      modifies this
      ensures Accounted() && (thrown <==> Added(old(cacheCoins), o, coin, overwrite).None?)
      ensures cacheCoins == if thrown then old(cacheCoins) else Added(old(cacheCoins), o, coin, overwrite).value
    {
      var inserted := o !in cacheCoins;
      var entry := if inserted then Entry(CLEARED, false, false) else cacheCoins[o];
      var unseen := false;
      if !overwrite {
        if !entry.coin.IsSpent() {
          return true;
        }
        unseen := !entry.isDirty;
      }
      var newEntry := Entry(coin, true, entry.isFresh || unseen);
      UsageWith(memory, cacheCoins, o, newEntry);
      if !inserted {
        UsageWithout(memory, cacheCoins, o);
        cachedCoinsUsage := cachedCoinsUsage - entry.coin.Usage(memory);
      } else {
        assert cacheCoins - {o} == cacheCoins;
      }
      cacheCoins := cacheCoins[o := newEntry];
      cachedCoinsUsage := cachedCoinsUsage + newEntry.coin.Usage(memory);
      return false;
    }

    method SpendCoin(o: OutPoint) returns (found: bool)
      requires Accounted()
      modifies this
      ensures cacheCoins == Spent(old(cacheCoins), o) && Accounted()
      ensures found <==> o in old(cacheCoins)
    {
      if o !in cacheCoins {
        return false;
      }
      UsageWithout(memory, cacheCoins, o);
      cachedCoinsUsage := cachedCoinsUsage - cacheCoins[o].coin.Usage(memory);
      if cacheCoins[o].isFresh {
        cacheCoins := cacheCoins - {o};
      } else {
        UsageWith(memory, cacheCoins, o, Entry(CLEARED, true, false));
        cacheCoins := cacheCoins[o := cacheCoins[o].(isDirty := true)];
        cacheCoins := cacheCoins[o := cacheCoins[o].(coin := CLEARED)];
      }
      return true;
    }

    method ReplaceWithCoinWithScript(o: OutPoint, coin: Coin)
      requires Accounted() && o in cacheCoins && !cacheCoins[o].coin.HasScript() && coin.HasScript()
      modifies this
      ensures cacheCoins == old(cacheCoins)[o := old(cacheCoins)[o].(coin := coin)] && Accounted()
    {
      UsageWithout(memory, cacheCoins, o);
      UsageWith(memory, cacheCoins, o, cacheCoins[o].(coin := coin));
      cacheCoins := cacheCoins[o := cacheCoins[o].(coin := coin)];
      cachedCoinsUsage := cachedCoinsUsage + coin.Usage(memory);
    }

    method EraseCoin(o: OutPoint)
      requires Accounted() && o in cacheCoins
      modifies this
      ensures cacheCoins == old(cacheCoins) - {o} && Accounted()
    {
      UsageWithout(memory, cacheCoins, o);
      cachedCoinsUsage := cachedCoinsUsage - cacheCoins[o].coin.Usage(memory);
      cacheCoins := cacheCoins - {o};
    }

    method AddEntry(o: OutPoint, e: Entry)
      requires Accounted() && o !in cacheCoins
      modifies this
      ensures cacheCoins == old(cacheCoins)[o := e.(isDirty := true)] && Accounted()
    {
      UsageWith(memory, cacheCoins, o, e.(isDirty := true));
      assert cacheCoins - {o} == cacheCoins;
      cacheCoins := cacheCoins[o := e];
      cachedCoinsUsage := cachedCoinsUsage + e.coin.Usage(memory);
      cacheCoins := cacheCoins[o := Entry(e.coin, true, e.isFresh)];
    }

    method UpdateEntry(o: OutPoint, e: Entry)
      requires Accounted() && o in cacheCoins
      modifies this
      ensures cacheCoins == old(cacheCoins)[o := Entry(e.coin, true, old(cacheCoins)[o].isFresh)] && Accounted()
    {
      UsageWithout(memory, cacheCoins, o);
      UsageWith(memory, cacheCoins, o, Entry(e.coin, true, cacheCoins[o].isFresh));
      cachedCoinsUsage := cachedCoinsUsage - cacheCoins[o].coin.Usage(memory);
      var isFresh := cacheCoins[o].isFresh;
      cacheCoins := cacheCoins[o := e];
      cachedCoinsUsage := cachedCoinsUsage + e.coin.Usage(memory);
      cacheCoins := cacheCoins[o := Entry(e.coin, true, isFresh)];
    }

    method Uncache(os: seq<OutPoint>)
      requires Accounted()
      modifies this
      ensures cacheCoins == Uncached(old(cacheCoins), os) && Accounted()
    {
      var i := 0;
      assert cacheCoins == Uncached(cacheCoins, os[..0]);
      while i < |os|
        invariant 0 <= i <= |os|
        invariant cacheCoins == Uncached(old(cacheCoins), os[..i]) && Accounted()
      {
        var o := os[i];
        assert os[..i + 1] == os[..i] + [o];
        if o in cacheCoins && !cacheCoins[o].isDirty && !cacheCoins[o].isFresh {
          EraseCoin(o);
        }
        i := i + 1;
      }
      assert os[..i] == os;
    }

    method WriteEntry(o: OutPoint, e: Entry) returns (thrown: bool)
      requires Accounted()
      modifies this
      ensures Accounted() && (thrown <==> Written(old(cacheCoins), o, e).None?)
      ensures cacheCoins == if thrown then old(cacheCoins) else Written(old(cacheCoins), o, e).value
    {
      thrown := false;
      if e.isDirty {
        if o !in cacheCoins {
          if !(e.isFresh && e.coin.IsSpent()) {
            AddEntry(o, e);
          }
        } else if e.isFresh && !cacheCoins[o].coin.IsSpent() {
          thrown := true;
        } else if cacheCoins[o].isFresh && e.coin.IsSpent() {
          EraseCoin(o);
        } else {
          UpdateEntry(o, e);
        }
      }
    }

    // The child's entries are written in any order. The exception is thrown
    // exactly when FRESH was misapplied to some entry; the entries before that
    // one have then been written, and no others.
    method BatchWrite(mapCoins: Entries) returns (thrown: bool)
      requires Accounted()
      modifies this
      ensures Accounted()
      ensures thrown <==> exists o :: Misapplied(old(cacheCoins), mapCoins, o)
      ensures !thrown ==> cacheCoins == WrittenAll(old(cacheCoins), mapCoins)
      ensures thrown ==> exists left: set<OutPoint> ::
        StoppedAt(old(cacheCoins), mapCoins, left) && cacheCoins == WrittenAll(old(cacheCoins), Done(mapCoins, left))
    {
      var left := mapCoins.Keys;
      BatchEnds(cacheCoins, mapCoins);
      while left != {}
        invariant left <= mapCoins.Keys && Accounted()
        invariant cacheCoins == WrittenAll(old(cacheCoins), Done(mapCoins, left))
        invariant forall o :: o in mapCoins && o !in left ==> !Misapplied(old(cacheCoins), mapCoins, o)
        decreases |left|
      {
        var o :| o in left;
        BatchNext(old(cacheCoins), mapCoins, left, o);
        thrown := WriteEntry(o, mapCoins[o]);
        if thrown {
          assert StoppedAt(old(cacheCoins), mapCoins, left);
          return;
        }
        left := left - {o};
      }
      return false;
    }
  }
}
