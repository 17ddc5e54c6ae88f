/** A cache layer over any view, and its flush into the layer below. The layer
    refines a plain map: looking up never changes the map it stands for, adding
    and spending are point updates, and the layer answers as a view of that map,
    so that layers may be stacked. */
module CoinsView {
  import opened Options
  import opened Coins
  import opened CoinsMeaning
  import opened CoinsObject

  // The map with the first n outputs of a transaction put in.
  function WithOutputs(view: Utxos, txid: nat, outs: seq<Coin>, unspendable: Coin -> bool, n: nat): Utxos
    requires n <= |outs| && forall c :: c in outs ==> !c.IsSpent()
  {
    if n == 0 then view
    else
      var r := WithOutputs(view, txid, outs, unspendable, n - 1);
      if unspendable(outs[n - 1]) then r else r[OutPoint(txid, n - 1) := outs[n - 1].Full()]
  }

  // Exactly the spendable outputs are new, and nothing else changes.
  lemma {:induction false} WithOutputsAt(view: Utxos, txid: nat, outs: seq<Coin>, unspendable: Coin -> bool, n: nat,
                                         o: OutPoint)
    requires n <= |outs| && forall c :: c in outs ==> !c.IsSpent()
    ensures var r := WithOutputs(view, txid, outs, unspendable, n);
      if o.txid == txid && o.n < n && !unspendable(outs[o.n]) then o in r && r[o] == outs[o.n].Full()
      else (o in r <==> o in view) && (o in view ==> r[o] == view[o])
  {
    if n > 0 {
      WithOutputsAt(view, txid, outs, unspendable, n - 1, o);
    }
  }

  // The map has none of the first n outputs, except unspendable ones.
  predicate NoneYet(view: Utxos, txid: nat, outs: seq<Coin>, unspendable: Coin -> bool, n: nat)
    requires n <= |outs|
  { forall i :: 0 <= i < n && !unspendable(outs[i]) ==> OutPoint(txid, i) !in view }

  // The i-th output is the first that the map has.
  predicate IsFirst(view: Utxos, txid: nat, outs: seq<Coin>, unspendable: Coin -> bool, i: nat)
    requires i < |outs|
  { NoneYet(view, txid, outs, unspendable, i) && !unspendable(outs[i]) && OutPoint(txid, i) in view }

  // The first n outputs have been added; if not in any case, none was there.
  ghost predicate AddedUpTo(start: Utxos, view: Utxos, txid: nat, outs: seq<Coin>, unspendable: Coin -> bool, n: nat,
                            always: bool)
    requires n <= |outs| && forall c :: c in outs ==> !c.IsSpent()
  {
    view == WithOutputs(start, txid, outs, unspendable, n) && (always || NoneYet(start, txid, outs, unspendable, n))
  }

  lemma AddedNext(start: Utxos, view: Utxos, txid: nat, outs: seq<Coin>, unspendable: Coin -> bool, i: nat,
                  always: bool, thrown: bool)
    requires i < |outs| && (forall c :: c in outs ==> !c.IsSpent())
    requires AddedUpTo(start, view, txid, outs, unspendable, i, always)
    requires thrown <==> !unspendable(outs[i]) && !always && OutPoint(txid, i) in view
    ensures var next := if unspendable(outs[i]) then view else view[OutPoint(txid, i) := outs[i].Full()];
      !thrown ==> AddedUpTo(start, next, txid, outs, unspendable, i + 1, always)
    ensures thrown ==> IsFirst(start, txid, outs, unspendable, i) && !NoneYet(start, txid, outs, unspendable, |outs|)
  {
    WithOutputsAt(start, txid, outs, unspendable, i, OutPoint(txid, i));
  }

  class CoinsViewCache {
    const mCache: CoinsStore

    constructor (memory: Script -> nat)
      requires memory([]) == 0
      ensures fresh(mCache) && mCache.cacheCoins == map[] && forall base :: Valid(base) && View(base) == base
    {
      mCache := new CoinsStore(memory);
    }

    ghost predicate Valid(base: Utxos)
      reads mCache
    { mCache.Accounted() && FlagsOk(base, mCache.cacheCoins) }

    ghost function View(base: Utxos): Utxos
      reads mCache
    { Effective(base, mCache.cacheCoins) }

    method GetCoin(o: OutPoint, withScript: bool, ask: (OutPoint, bool) -> Option<Coin>, ghost base: Utxos)
      returns (r: Option<Coin>)
      requires Valid(base) && Backs(ask, base)
      modifies mCache
      ensures Valid(base) && View(base) == old(View(base))
      ensures Replies(View(base), o, withScript, r)
      ensures mCache.cacheCoins.Keys == old(mCache.cacheCoins.Keys) + if r.Some? then {o} else {}
      ensures r.Some? <==> o in old(mCache.cacheCoins) || ask(o, withScript).Some?
    {
      var coinFromCache := Fetch(mCache.cacheCoins, o);
      if coinFromCache.Some? {
        if coinFromCache.value.IsSpent() || coinFromCache.value.HasScript() {
          return coinFromCache;
        } else if !withScript {
          return Some(coinFromCache.value.Bare());
        }
      }
      var coinFromView := ask(o, withScript);
      if coinFromView.Some? && coinFromCache.None? {
        var c := if coinFromView.value.owner then coinFromView.value.Bare() else coinFromView.value.MakeNonOwning();
        FilledMeans(base, mCache.cacheCoins, o, c);
        mCache.Fill(o, c);
      }
      return coinFromView;
    }

    method HaveCoin(o: OutPoint, ask: (OutPoint, bool) -> Option<Coin>, ghost base: Utxos) returns (r: bool)
      requires Valid(base) && Backs(ask, base)
      modifies mCache
      ensures Valid(base) && View(base) == old(View(base))
      ensures r <==> o in View(base)
      ensures o in base ==> o in mCache.cacheCoins
      ensures mCache.cacheCoins.Keys >= old(mCache.cacheCoins.Keys)
    {
      var coin := GetCoin(o, false, ask, base);
      return coin.Some? && !coin.value.IsSpent();
    }

    // The caller must have looked the output up before, unless it allows an
    // overwrite or the view below does not have the output.
    method AddCoin(o: OutPoint, coin: Coin, overwrite: bool, unspendable: bool, ghost base: Utxos)
      returns (thrown: bool)
      requires Valid(base) && !coin.IsSpent() && coin.HasScript()
      requires overwrite || o in mCache.cacheCoins || o !in base
      modifies mCache
      ensures Valid(base)
      ensures thrown <==> !unspendable && !overwrite && o in old(View(base))
      ensures View(base) == if unspendable || thrown then old(View(base)) else old(View(base))[o := coin.Full()]
      ensures mCache.cacheCoins.Keys >= old(mCache.cacheCoins.Keys)
    {
      if unspendable {
        return false;
      }
      AddedMeans(base, mCache.cacheCoins, o, coin, overwrite);
      thrown := mCache.AddCoin(o, coin, overwrite);
    }

    method SpendCoin(o: OutPoint, moveOut: bool, ask: (OutPoint, bool) -> Option<Coin>, ghost base: Utxos)
      returns (found: bool, moved: Option<Coin>)
      requires Valid(base) && Backs(ask, base)
      modifies mCache
      ensures Valid(base) && View(base) == old(View(base)) - {o}
      ensures found <==> o in old(mCache.cacheCoins) || ask(o, moveOut).Some?
      ensures found && moveOut ==> moved.Some? && moved.value.owner && Replies(old(View(base)), o, true, moved)
    {
      moved := None;
      var coin := GetCoin(o, moveOut, ask, base);
      if coin.None? {
        return false, None;
      }
      if moveOut {
        moved := Some(coin.value.MakeOwning());
      }
      SpentMeans(base, mCache.cacheCoins, o);
      found := mCache.SpendCoin(o);
    }

    // One output of a transaction. With check, an existing coin is overwritten.
    method AddOutput(o: OutPoint, coin: Coin, coinBase: bool, check: bool, unspendable: bool,
                     ask: (OutPoint, bool) -> Option<Coin>, ghost base: Utxos)
      returns (thrown: bool)
      requires Valid(base) && Backs(ask, base) && !coin.IsSpent() && coin.HasScript()
      requires check || coinBase || o in mCache.cacheCoins || o !in base
      modifies mCache
      ensures Valid(base) && mCache.cacheCoins.Keys >= old(mCache.cacheCoins.Keys)
      ensures thrown <==> !unspendable && !check && !coinBase && o in old(View(base))
      ensures View(base) == if unspendable || thrown then old(View(base)) else old(View(base))[o := coin.Full()]
    {
      var overwrite := coinBase;
      if check {
        overwrite := HaveCoin(o, ask, base);
      }
      thrown := AddCoin(o, coin, overwrite, unspendable, base);
    }

    method AddCoins(txid: nat, outs: seq<Coin>, coinBase: bool, check: bool, unspendable: Coin -> bool,
                    ask: (OutPoint, bool) -> Option<Coin>, ghost base: Utxos)
      returns (thrown: bool)
      requires Valid(base) && Backs(ask, base)
      requires forall c :: c in outs ==> !c.IsSpent() && c.HasScript()
      requires check || coinBase || forall o: OutPoint :: o in base && o.txid == txid ==> o in mCache.cacheCoins
      modifies mCache
      ensures Valid(base)
      ensures thrown ==> !check && !coinBase
      ensures !check && !coinBase ==> (thrown <==> !NoneYet(old(View(base)), txid, outs, unspendable, |outs|))
      ensures !thrown ==> View(base) == WithOutputs(old(View(base)), txid, outs, unspendable, |outs|)
      ensures thrown ==> exists i ::
        && 0 <= i < |outs| && IsFirst(old(View(base)), txid, outs, unspendable, i)
        && View(base) == WithOutputs(old(View(base)), txid, outs, unspendable, i)
    {
      ghost var n;
      thrown, n := AddInOrder(txid, outs, coinBase, check, unspendable, ask, base);
    }

    // The outputs one after the other, until one is refused.
    method AddInOrder(txid: nat, outs: seq<Coin>, coinBase: bool, check: bool, unspendable: Coin -> bool,
                      ask: (OutPoint, bool) -> Option<Coin>, ghost base: Utxos)
      returns (thrown: bool, ghost n: nat)
      requires Valid(base) && Backs(ask, base)
      requires forall c :: c in outs ==> !c.IsSpent() && c.HasScript()
      requires check || coinBase || forall o: OutPoint :: o in base && o.txid == txid ==> o in mCache.cacheCoins
      modifies mCache
      ensures Valid(base) && n <= |outs|
      ensures AddedUpTo(old(View(base)), View(base), txid, outs, unspendable, n, check || coinBase)
      ensures !thrown ==> n == |outs|
      ensures thrown ==>
        && !check && !coinBase && n < |outs| && IsFirst(old(View(base)), txid, outs, unspendable, n)
        && !NoneYet(old(View(base)), txid, outs, unspendable, |outs|)
    {
      n, thrown := 0, false;
      for i := 0 to |outs|
        invariant n == i && Valid(base) && mCache.cacheCoins.Keys >= old(mCache.cacheCoins.Keys)
        invariant AddedUpTo(old(View(base)), View(base), txid, outs, unspendable, i, check || coinBase)
      {
        assert outs[i] in outs;
        ghost var view := View(base);
        thrown := AddOutput(OutPoint(txid, i), outs[i], coinBase, check, unspendable(outs[i]), ask, base);
        AddedNext(old(View(base)), view, txid, outs, unspendable, i, check || coinBase, thrown);
        if thrown {
          return;
        }
        n := n + 1;
      }
      thrown := false;
    }

    // The layer is emptied into the layer below. The exception is never thrown
    // and the layer below then stands for what this layer stood for.
    method Flush(below: CoinsStore, ghost base: Utxos) returns (thrown: bool)
      requires below != mCache && below.Accounted() && FlagsOk(base, below.cacheCoins)
      requires Valid(Effective(base, below.cacheCoins))
      modifies mCache, below
      ensures !thrown && below.Accounted() && FlagsOk(base, below.cacheCoins)
      ensures Effective(base, below.cacheCoins) == old(View(Effective(base, below.cacheCoins)))
      ensures mCache.cacheCoins == map[] && Valid(Effective(base, below.cacheCoins))
    {
      ghost var child := mCache.cacheCoins;
      forall o | o in child
        ensures !Misapplied(below.cacheCoins, child, o)
      {
        NeverMisapplied(base, below.cacheCoins, child, o);
      }
      FlushMeans(base, below.cacheCoins, child);
      var coins := mCache.MoveOutCoins();
      thrown := below.BatchWrite(coins);
    }
  }
}
