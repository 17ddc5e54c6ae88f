/** The layered cache of unspent transaction outputs. A layer holds entries with
    two flags over a base view: DIRTY entries may differ from the base, FRESH
    entries are for outputs that the base does not have. This module holds what
    one layer stores and how each operation of the source changes the stored
    map; module CoinsMeaning says what a layer stands for. */
module Coins {
  import opened Options

  datatype OutPoint = OutPoint(txid: nat, n: nat)

  type Script = seq<nat>

  const SPENT := -1

  datatype Output = Output(amount: int, script: Script, height: nat, coinBase: bool)

  // An unspent output as the plain map of outputs holds it.
  type Utxo = u: Output | u.amount != SPENT witness Output(0, [], 0, false)

  // A coin in a layer. The script may be absent although its size is known; a
  // coin that is not the owner points into the storage of another layer.
  datatype Coin = Coin(amount: int, script: Script, scriptSize: nat, height: nat, coinBase: bool, owner: bool)
  {
    predicate IsSpent() { amount == SPENT }

    predicate HasScript() { scriptSize == |script| }

    function Full(): Utxo
      requires !IsSpent()
    { Output(amount, script, height, coinBase) }

    // A copy of the coin that leaves the script out.
    function Bare(): Coin { Coin(amount, [], scriptSize, height, coinBase, true) }

    function MakeNonOwning(): Coin { this.(owner := false) }

    function MakeOwning(): Coin { this.(owner := true) }

    function Usage(memory: Script -> nat): nat {
      if HasScript() && owner then memory(script) else 0
    }
  }

  const CLEARED := Coin(SPENT, [], 0, 0, false, true)

  datatype Entry = Entry(coin: Coin, isDirty: bool, isFresh: bool)

  type Entries = map<OutPoint, Entry>

  function Fetch(coins: Entries, o: OutPoint): Option<Coin> {
    if o !in coins then None
    else if coins[o].coin.HasScript() then Some(coins[o].coin.MakeNonOwning())
    else Some(coins[o].coin.MakeOwning())
  }

  // A coin that was read from the base is stored with no flags, or as FRESH
  // when the base only knows that it is spent.
  function Filled(coins: Entries, o: OutPoint, coin: Coin): Entries {
    coins[o := Entry(coin, false, coin.IsSpent())]
  }

  // Nothing is returned where the source throws: a coin must not replace an
  // unspent one unless the caller allows it.
  function Added(coins: Entries, o: OutPoint, coin: Coin, overwrite: bool): Option<Entries> {
    var was := if o in coins then coins[o] else Entry(CLEARED, false, false);
    if !overwrite && !was.coin.IsSpent() then None
    else Some(coins[o := Entry(coin, true, was.isFresh || (!overwrite && !was.isDirty))])
  }

  function Spent(coins: Entries, o: OutPoint): Entries {
    if o !in coins then coins
    else if coins[o].isFresh then coins - {o}
    else coins[o := Entry(CLEARED, true, false)]
  }

  function Uncached(coins: Entries, os: seq<OutPoint>): Entries {
    coins - (set o | o in os && o in coins && !coins[o].isDirty && !coins[o].isFresh)
  }

  // One entry of a child layer written into its parent. Nothing is returned
  // where the source throws because FRESH was misapplied.
  function Written(coins: Entries, o: OutPoint, e: Entry): Option<Entries> {
    if !e.isDirty then Some(coins)
    else if o !in coins then
      if e.isFresh && e.coin.IsSpent() then Some(coins)
      else Some(coins[o := e])
    else if e.isFresh && !coins[o].coin.IsSpent() then None
    else if coins[o].isFresh && e.coin.IsSpent() then Some(coins - {o})
    else Some(coins[o := Entry(e.coin, true, coins[o].isFresh)])
  }

  // The parent's entry for o after the child has been written.
  function Merged(parent: Entries, child: Entries, o: OutPoint): Option<Entry> {
    if o in child && child[o].isDirty then
      if o !in parent then
        if child[o].isFresh && child[o].coin.IsSpent() then None else Some(child[o])
      else if parent[o].isFresh && child[o].coin.IsSpent() then None
      else Some(Entry(child[o].coin, true, parent[o].isFresh))
    else if o in parent then Some(parent[o])
    else None
  }

  // The parent after every entry of the child has been written.
  function WrittenAll(parent: Entries, child: Entries): Entries {
    map o | o in parent.Keys + child.Keys && Merged(parent, child, o).Some? :: Merged(parent, child, o).value
  }

  // The database after the dirty entries of the layer above it were stored.
  function Stored(db: map<OutPoint, Utxo>, coins: Entries): map<OutPoint, Utxo> {
    map o | o in db.Keys + coins.Keys
            && (if o in coins && coins[o].isDirty then !coins[o].coin.IsSpent() else o in db)
      :: if o in coins && coins[o].isDirty then coins[o].coin.Full() else db[o]
  }

  // The memory held by the scripts of all entries.
  ghost function TotalUsage(memory: Script -> nat, coins: Entries): nat {
    if coins == map[] then 0
    else
      var o := Any(coins);
      coins[o].coin.Usage(memory) + TotalUsage(memory, coins - {o})
  }

  ghost function Any(coins: Entries): (o: OutPoint)
    requires coins != map[]
    ensures o in coins
  { var o :| o in coins; o }
}
