/** What a layer of the coin cache stands for. Over a base, which is a plain map
    of unspent outputs, the entries of a layer stand for another plain map, and
    the two flags must say the truth about the base. Every operation is shown to
    be a point update of the map the layer stands for, or to leave it alone. */
module CoinsMeaning {
  import opened Options
  import opened Coins

  type Utxos = map<OutPoint, Utxo>

  function Seen(base: Utxos, coins: Entries, o: OutPoint): Option<Utxo> {
    if o in coins && coins[o].coin.IsSpent() then None
    else if o in coins && coins[o].coin.HasScript() then Some(coins[o].coin.Full())
    else if o in base then Some(base[o])
    else None
  }

  // The map that a layer stands for.
  function Effective(base: Utxos, coins: Entries): Utxos {
    map o | o in base.Keys + coins.Keys && Seen(base, coins, o).Some? :: Seen(base, coins, o).value
  }

  // A coin carries all that is known of an output, except perhaps its script.
  predicate Describes(c: Coin, u: Utxo) {
    && c.amount == u.amount && c.height == u.height && c.coinBase == u.coinBase
    && c.scriptSize == |u.script|
    && (c.HasScript() ==> c.script == u.script)
  }

  predicate EntryOk(base: Utxos, o: OutPoint, e: Entry) {
    && (e.isFresh ==> o !in base)
    && (e.coin.IsSpent() ==> e.coin.scriptSize == |e.coin.script| == 0)
    && (e.coin.IsSpent() && !e.isDirty ==> o !in base)
    && (!e.coin.IsSpent() && !e.isDirty ==> o in base && Describes(e.coin, base[o]))
    && (!e.coin.IsSpent() && e.isDirty ==> e.coin.HasScript())
  }

  // The flags mean what they say.
  ghost predicate FlagsOk(base: Utxos, coins: Entries) {
    forall o :: o in coins ==> EntryOk(base, o, coins[o])
  }

  // What a view that stands for base may answer when it is asked for o.
  predicate Replies(base: Utxos, o: OutPoint, withScript: bool, reply: Option<Coin>) {
    match reply
    case None => o !in base
    case Some(c) =>
      && (c.IsSpent() <==> o !in base)
      && (c.IsSpent() ==> c.scriptSize == |c.script| == 0)
      && (withScript ==> c.HasScript())
      && (o in base ==> Describes(c, base[o]))
  }

  // A view that stands for base, whatever it keeps loaded.
  ghost predicate Backs(ask: (OutPoint, bool) -> Option<Coin>, base: Utxos) {
    forall o, withScript :: Replies(base, o, withScript, ask(o, withScript))
  }

  /* Filling */

  // Reading a coin into a layer changes nothing that the layer stands for.
  lemma FilledMeans(base: Utxos, coins: Entries, o: OutPoint, c: Coin)
    requires FlagsOk(base, coins) && o !in coins && Replies(base, o, false, Some(c))
    ensures FlagsOk(base, Filled(coins, o, c))
    ensures Effective(base, Filled(coins, o, c)) == Effective(base, coins)
  {
    hide FlagsOk, Effective;
    PutFlags(base, coins, o, Filled(coins, o, c)[o]);
    FilledSame(base, coins, o, c);
  }

  lemma FilledSame(base: Utxos, coins: Entries, o: OutPoint, c: Coin)
    requires o !in coins && Replies(base, o, false, Some(c))
    ensures Effective(base, Filled(coins, o, c)) == Effective(base, coins)
  {}

  // Loading a missing script changes nothing either.
  lemma LoadedMeans(base: Utxos, coins: Entries, o: OutPoint, c: Coin)
    requires FlagsOk(base, coins) && o in coins && !coins[o].coin.HasScript()
    requires Replies(base, o, true, Some(c))
    ensures FlagsOk(base, coins[o := coins[o].(coin := c)])
    ensures Effective(base, coins[o := coins[o].(coin := c)]) == Effective(base, coins)
  {}

  lemma UncachedMeans(base: Utxos, coins: Entries, os: seq<OutPoint>)
    requires FlagsOk(base, coins)
    ensures FlagsOk(base, Uncached(coins, os))
    ensures Effective(base, Uncached(coins, os)) == Effective(base, coins)
  {}

  /* Point updates */

  // Adding is refused exactly when it would silently replace a coin the layer
  // knows to be unspent. Otherwise it is a point update, and the flags stay
  // truthful exactly when the caller allowed an overwrite, or had looked the
  // output up before, or the base does not have it.
  lemma AddedMeans(base: Utxos, coins: Entries, o: OutPoint, c: Coin, overwrite: bool)
    requires FlagsOk(base, coins) && !c.IsSpent() && c.HasScript()
    ensures Added(coins, o, c, overwrite).None?
      <==> !overwrite && o in coins && o in Effective(base, coins)
    ensures Added(coins, o, c, overwrite).Some? ==>
      var r := Added(coins, o, c, overwrite).value;
      && Effective(base, r) == Effective(base, coins)[o := c.Full()]
      && (FlagsOk(base, r) <==> overwrite || o in coins || o !in base)
  {
    if Added(coins, o, c, overwrite).Some? {
      var r := Added(coins, o, c, overwrite).value;
      assert r == coins[o := r[o]];
      PutFlags(base, coins, o, r[o]);
      PutMeans(base, coins, o, r[o]);
    }
  }

  lemma SpentMeans(base: Utxos, coins: Entries, o: OutPoint)
    requires FlagsOk(base, coins) && o in coins
    ensures FlagsOk(base, Spent(coins, o))
    ensures Effective(base, Spent(coins, o)) == Effective(base, coins) - {o}
  {
    if coins[o].isFresh {
      DroppedMeans(base, coins, o);
    } else {
      PutFlags(base, coins, o, Entry(CLEARED, true, false));
      PutMeans(base, coins, o, Entry(CLEARED, true, false));
    }
  }

  lemma PutFlags(base: Utxos, coins: Entries, o: OutPoint, e: Entry)
    requires FlagsOk(base, coins)
    ensures FlagsOk(base, coins[o := e]) <==> EntryOk(base, o, e)
  {
    assert coins[o := e][o] == e;
  }

  lemma PutMeans(base: Utxos, coins: Entries, o: OutPoint, e: Entry)
    requires e.coin.HasScript()
    ensures Effective(base, coins[o := e]) ==
      if e.coin.IsSpent() then Effective(base, coins) - {o} else Effective(base, coins)[o := e.coin.Full()]
  {}

  lemma DroppedMeans(base: Utxos, coins: Entries, o: OutPoint)
    requires o !in base
    ensures Effective(base, coins - {o}) == Effective(base, coins) - {o}
  {}

  /* Flushing */

  // A dirty child entry never meets the branch that throws.
  lemma NeverMisapplied(base: Utxos, parent: Entries, child: Entries, o: OutPoint)
    requires FlagsOk(base, parent) && FlagsOk(Effective(base, parent), child) && o in child
    ensures !(child[o].isFresh && o in parent && !parent[o].coin.IsSpent())
  {
    assert EntryOk(Effective(base, parent), o, child[o]);
  }

  lemma MergedOk(base: Utxos, parent: Entries, child: Entries, o: OutPoint)
    requires FlagsOk(base, parent) && FlagsOk(Effective(base, parent), child)
    ensures Merged(parent, child, o).Some? ==> EntryOk(base, o, Merged(parent, child, o).value)
  {
    if o in child {
      assert EntryOk(Effective(base, parent), o, child[o]);
    }
  }

  lemma MergedSeen(base: Utxos, parent: Entries, child: Entries, o: OutPoint)
    requires FlagsOk(base, parent) && FlagsOk(Effective(base, parent), child)
    ensures Seen(base, WrittenAll(parent, child), o) == Seen(Effective(base, parent), child, o)
  {
    if o in child {
      assert EntryOk(Effective(base, parent), o, child[o]);
    }
  }

  // Writing a child into its parent makes the parent stand for what the child
  // stood for, with truthful flags over the parent's own base.
  lemma FlushMeans(base: Utxos, parent: Entries, child: Entries)
    requires FlagsOk(base, parent) && FlagsOk(Effective(base, parent), child)
    ensures FlagsOk(base, WrittenAll(parent, child))
    ensures Effective(base, WrittenAll(parent, child)) == Effective(Effective(base, parent), child)
  {
    forall o | o in WrittenAll(parent, child)
      ensures EntryOk(base, o, WrittenAll(parent, child)[o])
    {
      MergedOk(base, parent, child, o);
    }
    forall o ensures Seen(base, WrittenAll(parent, child), o) == Seen(Effective(base, parent), child, o) {
      MergedSeen(base, parent, child, o);
    }
    SameView(base, WrittenAll(parent, child), Effective(base, parent), child);
  }

  lemma SameView(base: Utxos, coins: Entries, base': Utxos, coins': Entries)
    requires forall o :: Seen(base, coins, o) == Seen(base', coins', o)
    ensures Effective(base, coins) == Effective(base', coins')
  {}

  // Storing the dirty entries makes the database equal to what the layer stood
  // for; a dirty unspent entry always has its script.
  lemma StoredMeans(db: Utxos, coins: Entries)
    requires FlagsOk(db, coins)
    ensures Stored(db, coins) == Effective(db, coins)
    ensures forall o :: o in coins && coins[o].isDirty && !coins[o].coin.IsSpent() ==> coins[o].coin.HasScript()
  {}

  /* Accounting */

  lemma {:induction false} UsageWithout(memory: Script -> nat, coins: Entries, o: OutPoint)
    requires o in coins
    ensures TotalUsage(memory, coins) == coins[o].coin.Usage(memory) + TotalUsage(memory, coins - {o})
    decreases |coins|
  {
    var p := Any(coins);
    if p != o {
      UsageWithout(memory, coins - {p}, o);
      assert coins - {p} - {o} == coins - {o} - {p};
      UsageWithout(memory, coins - {o}, p);
    }
  }

  lemma UsageWith(memory: Script -> nat, coins: Entries, o: OutPoint, e: Entry)
    ensures TotalUsage(memory, coins[o := e]) == TotalUsage(memory, coins - {o}) + e.coin.Usage(memory)
  {
    UsageWithout(memory, coins[o := e], o);
    assert coins[o := e] - {o} == coins - {o};
  }
}
