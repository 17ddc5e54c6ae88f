/** The coin database layer, read by many threads at once. A reader that misses
    the cache announces the outpoint, reads the database without holding the
    mutex, and then stores what it found; other readers of the same outpoint
    wait for it. Each critical section is one step, and steps of different
    threads interleave in any way. A writer needs every reader gone. */
module CoinsFetch {
  import opened Options
  import opened Coins
  import opened CoinsMeaning

  datatype Phase =
    | Asking(o: OutPoint, max: nat)
    | Loading(o: OutPoint, max: nat, limit: nat, cached: Option<Coin>)
    | Answered(o: OutPoint, max: nat, reply: Option<Coin>)

  datatype State = State(db: Utxos, coins: Entries, fetching: set<OutPoint>, readers: map<nat, Phase>)

  datatype Step =
    | Ask(t: nat, o: OutPoint, max: nat)
    // extra: the room left in the cache raises the size of script to load
    | Probe(t: nat, extra: nat)
    // compact: the database holds the script in a form that is always loaded
    | Store(t: nat, compact: bool, hasSpace: bool)
    | Leave(t: nat)
    | Write(child: Entries)
    | Uncache(os: seq<OutPoint>)
    | Flush

  function Init(db: Utxos): State { State(db, map[], {}, map[]) }

  // The database reads the script only up to a limit, but always its size.
  function Read(db: Utxos, o: OutPoint, limit: nat, compact: bool): Option<Coin> {
    if o !in db then None
    else
      var u := db[o];
      var script := if compact || |u.script| <= limit then u.script else [];
      Some(Coin(u.amount, script, |u.script|, u.height, u.coinBase, true))
  }

  function Probed(s: State, t: nat, o: OutPoint, max: nat, extra: nat): State {
    var cached := Fetch(s.coins, o);
    if cached.Some? && cached.value.IsSpent() then
      s.(readers := s.readers[t := Answered(o, max, None)])
    else if cached.Some? && cached.value.HasScript() then
      s.(readers := s.readers[t := Answered(o, max, cached)])
    else if cached.Some? && max < cached.value.scriptSize then
      s.(readers := s.readers[t := Answered(o, max, Some(cached.value.Bare()))])
    else if o !in s.fetching then
      s.(fetching := s.fetching + {o},
         readers := s.readers[t := Loading(o, max, if max < extra then extra else max, cached)])
    else s
  }

  function StoredRead(s: State, t: nat, p: Phase, c: Coin, hasSpace: bool): State
    requires p.Loading? && (p.cached.Some? ==> p.o in s.coins)
  {
    var coins :=
      if p.cached.Some? then
        if hasSpace then s.coins[p.o := s.coins[p.o].(coin := c)] else s.coins
      else Filled(s.coins, p.o, if hasSpace then c else c.Bare());
    s.(coins := coins, fetching := s.fetching - {p.o},
       readers := s.readers[t := Answered(p.o, p.max, Some(if hasSpace then c.MakeNonOwning() else c))])
  }

  predicate Enabled(s: State, step: Step) {
    match step
    case Ask(t, _, _) => t !in s.readers
    case Probe(t, _) => t in s.readers && s.readers[t].Asking?
    case Store(t, _, _) => t in s.readers && s.readers[t].Loading?
    case Leave(t) => t in s.readers && s.readers[t].Answered?
    case Write(_) => s.readers == map[]
    case Uncache(_) => s.readers == map[]
    case Flush => s.readers == map[]
  }

  // What a writer must bring: entries whose flags are true over this layer.
  ghost predicate Welcome(s: State, step: Step) {
    step.Write? ==> FlagsOk(Effective(s.db, s.coins), step.child)
  }

  // The assertions that the source makes in the critical section of a step.
  predicate AssertsHold(s: State, step: Step)
    requires Enabled(s, step)
  {
    match step
    case Store(t, compact, hasSpace) =>
      var p := s.readers[t];
      var c := Read(s.db, p.o, p.limit, compact);
      && (c.Some? && p.cached.Some? ==>
            c.value.HasScript() && p.o in s.coins && !s.coins[p.o].coin.HasScript())
      && (c.Some? && p.cached.None? ==> p.o !in s.coins)
    case Write(child) =>
      forall o :: o in child && child[o].isDirty && child[o].isFresh && o in s.coins ==> s.coins[o].coin.IsSpent()
    case Flush =>
      forall o :: o in s.coins && s.coins[o].isDirty && !s.coins[o].coin.IsSpent() ==> s.coins[o].coin.HasScript()
    case _ => true
  }

  function Apply(s: State, step: Step): State
    requires Enabled(s, step) && AssertsHold(s, step)
  {
    match step
    case Ask(t, o, max) => s.(readers := s.readers[t := Asking(o, max)])
    case Probe(t, extra) => Probed(s, t, s.readers[t].o, s.readers[t].max, extra)
    case Store(t, compact, hasSpace) =>
      var p := s.readers[t];
      var c := Read(s.db, p.o, p.limit, compact);
      if c.None? then
        s.(fetching := s.fetching - {p.o}, readers := s.readers[t := Answered(p.o, p.max, None)])
      else StoredRead(s, t, p, c.value, hasSpace)
    case Leave(t) => s.(readers := s.readers - {t})
    case Write(child) => s.(coins := WrittenAll(s.coins, child))
    case Uncache(os) => s.(coins := Uncached(s.coins, os))
    case Flush => s.(db := Stored(s.db, s.coins), coins := map[])
  }

  /* The invariant */

  function View(s: State): Utxos { Effective(s.db, s.coins) }

  // The answer describes the output, with its script if that is small enough.
  predicate AnswerOk(view: Utxos, o: OutPoint, max: nat, reply: Option<Coin>) {
    match reply
    case None => o !in view
    case Some(c) => o in view && !c.IsSpent() && Describes(c, view[o]) && (c.scriptSize <= max ==> c.HasScript())
  }

  predicate LoadOk(coins: Entries, p: Phase)
    requires p.Loading?
  {
    && p.max <= p.limit
    && (p.cached.None? <==> p.o !in coins)
    && (p.cached.Some? ==>
          && !coins[p.o].coin.IsSpent() && !coins[p.o].coin.HasScript()
          && coins[p.o].coin.scriptSize <= p.max)
  }

  ghost predicate ReadersOk(s: State) {
    && (forall t :: t in s.readers && s.readers[t].Loading? ==>
          s.readers[t].o in s.fetching && LoadOk(s.coins, s.readers[t]))
    && (forall t :: t in s.readers && s.readers[t].Answered? ==>
          AnswerOk(View(s), s.readers[t].o, s.readers[t].max, s.readers[t].reply))
  }

  predicate LoadsOf(readers: map<nat, Phase>, t: nat, o: OutPoint) {
    t in readers && readers[t].Loading? && readers[t].o == o
  }

  // Every announced outpoint has exactly one thread loading it.
  ghost predicate OneLoader(s: State) {
    && (forall o :: o in s.fetching ==> exists t :: LoadsOf(s.readers, t, o))
    && (forall t, u, o :: LoadsOf(s.readers, t, o) && LoadsOf(s.readers, u, o) ==> t == u)
  }

  ghost predicate Inv(s: State) {
    FlagsOk(s.db, s.coins) && ReadersOk(s) && OneLoader(s)
  }

  lemma AssertsNeverFire(s: State, step: Step)
    requires Inv(s) && Enabled(s, step) && Welcome(s, step)
    ensures AssertsHold(s, step)
  {
    match step
    case Store(t, compact, hasSpace) =>
      var p := s.readers[t];
      assert LoadOk(s.coins, p);
      if p.cached.Some? {
        assert EntryOk(s.db, p.o, s.coins[p.o]);
      }
    case Write(child) =>
      forall o | o in child && child[o].isDirty && child[o].isFresh && o in s.coins
        ensures s.coins[o].coin.IsSpent()
      {
        NeverMisapplied(s.db, s.coins, child, o);
      }
    case _ =>
  }

  // The map that the layer stands for changes only when a writer brings one.
  function Expected(s: State, step: Step): Utxos {
    if step.Write? then Effective(View(s), step.child) else View(s)
  }

  lemma ProbeKeeps(s: State, t: nat, extra: nat)
    requires Inv(s) && t in s.readers && s.readers[t].Asking?
    ensures var p := s.readers[t]; var r := Probed(s, t, p.o, p.max, extra);
      ReadersOk(r) && OneLoader(r)
  {
    var p := s.readers[t];
    var r := Probed(s, t, p.o, p.max, extra);
    ProbedReaders(s, t, extra);
    ProbedLoaders(s, r, t);
  }

  lemma ProbedReaders(s: State, t: nat, extra: nat)
    requires FlagsOk(s.db, s.coins) && ReadersOk(s) && t in s.readers && s.readers[t].Asking?
    ensures var p := s.readers[t]; ReadersOk(Probed(s, t, p.o, p.max, extra))
  {
    var p := s.readers[t];
    if p.o in s.coins {
      assert EntryOk(s.db, p.o, s.coins[p.o]);
    }
  }

  // At most the reader itself has begun to load, and what nobody loads.
  lemma ProbedLoaders(s: State, r: State, t: nat)
    requires OneLoader(s) && t in s.readers && s.readers[t].Asking? && t in r.readers
    requires r.readers == s.readers[t := r.readers[t]]
    requires if r.readers[t].Loading?
      then r.readers[t].o !in s.fetching && r.fetching == s.fetching + {r.readers[t].o} else r.fetching == s.fetching
    requires forall u :: u in s.readers && s.readers[u].Loading? ==> s.readers[u].o in s.fetching
    ensures OneLoader(r)
  {
    assert forall u :: u != t ==>
      (u in r.readers <==> u in s.readers) && (u in s.readers ==> r.readers[u] == s.readers[u]);
    if r.readers[t].Loading? {
      assert LoadsOf(r.readers, t, r.readers[t].o);
    }
    forall o | o in s.fetching
      ensures exists u :: LoadsOf(r.readers, u, o)
    {
      var u :| LoadsOf(s.readers, u, o);
      assert LoadsOf(r.readers, u, o);
    }
    forall u, v, o | LoadsOf(r.readers, u, o) && LoadsOf(r.readers, v, o)
      ensures u == v
    {
      if u != t && v != t {
        assert LoadsOf(s.readers, u, o) && LoadsOf(s.readers, v, o);
      }
    }
  }

  // A loader that is done leaves one announced outpoint less.
  lemma LoaderDone(s: State, r: State, t: nat, o: OutPoint)
    requires OneLoader(s) && LoadsOf(s.readers, t, o)
    requires r.fetching == s.fetching - {o} && t in r.readers && r.readers[t].Answered?
    requires r.readers == s.readers[t := r.readers[t]]
    ensures OneLoader(r)
  {
    forall p | p in r.fetching
      ensures exists u :: LoadsOf(r.readers, u, p)
    {
      var u :| LoadsOf(s.readers, u, p);
      assert LoadsOf(r.readers, u, p);
    }
    assert forall u, p :: LoadsOf(r.readers, u, p) ==> LoadsOf(s.readers, u, p);
  }

  // Filling in what the database holds keeps the meaning of the layer.
  lemma StoredReadMeans(s: State, t: nat, c: Coin, compact: bool, hasSpace: bool)
    requires Inv(s) && t in s.readers && s.readers[t].Loading?
    requires Read(s.db, s.readers[t].o, s.readers[t].limit, compact) == Some(c)
    ensures s.readers[t].cached.Some? ==> s.readers[t].o in s.coins
    ensures var r := StoredRead(s, t, s.readers[t], c, hasSpace);
      FlagsOk(r.db, r.coins) && View(r) == View(s) && s.readers[t].o in View(s) && Describes(c, View(s)[s.readers[t].o])
  {
    var p := s.readers[t];
    assert LoadOk(s.coins, p);
    if p.cached.Some? {
      assert EntryOk(s.db, p.o, s.coins[p.o]);
      assert Replies(s.db, p.o, true, Some(c));
      LoadedMeans(s.db, s.coins, p.o, c);
    } else {
      FilledMeans(s.db, s.coins, p.o, if hasSpace then c else c.Bare());
    }
  }

  ghost predicate OnlyAt(a: Entries, b: Entries, o: OutPoint) {
    forall x :: x != o ==> (x in a <==> x in b) && (x in a && x in b ==> b[x] == a[x])
  }

  // What a store may change.
  lemma StoreChanges(s: State, t: nat, compact: bool, hasSpace: bool)
    requires Enabled(s, Store(t, compact, hasSpace)) && AssertsHold(s, Store(t, compact, hasSpace))
    ensures var r, o := Apply(s, Store(t, compact, hasSpace)), s.readers[t].o;
      && t in r.readers && r.readers == s.readers[t := r.readers[t]] && r.readers[t].Answered?
      && r.fetching == s.fetching - {o} && OnlyAt(s.coins, r.coins, o) && r.db == s.db
  {}

  // What is stored changes nothing that the layer stands for, and answers right.
  lemma StoreMeans(s: State, t: nat, compact: bool, hasSpace: bool)
    requires Inv(s) && Enabled(s, Store(t, compact, hasSpace)) && AssertsHold(s, Store(t, compact, hasSpace))
    ensures var r := Apply(s, Store(t, compact, hasSpace));
      && FlagsOk(r.db, r.coins) && View(r) == View(s) && t in r.readers && r.readers[t].Answered?
      && AnswerOk(View(r), r.readers[t].o, r.readers[t].max, r.readers[t].reply)
  {
    var p := s.readers[t];
    var c := Read(s.db, p.o, p.limit, compact);
    assert LoadOk(s.coins, p);
    if c.Some? {
      StoredReadMeans(s, t, c.value, compact, hasSpace);
    }
  }

  lemma StoreKeeps(s: State, t: nat, compact: bool, hasSpace: bool)
    requires Inv(s) && Enabled(s, Store(t, compact, hasSpace)) && AssertsHold(s, Store(t, compact, hasSpace))
    ensures Inv(Apply(s, Store(t, compact, hasSpace)))
    ensures View(Apply(s, Store(t, compact, hasSpace))) == View(s)
  {
    var r, o := Apply(s, Store(t, compact, hasSpace)), s.readers[t].o;
    assert LoadsOf(s.readers, t, o);
    StoreChanges(s, t, compact, hasSpace);
    StoreMeans(s, t, compact, hasSpace);
    LoaderDone(s, r, t, o);
    ReadersKept(s, r, t, o);
  }

  // The other readers load other coins.
  lemma ReadersKept(s: State, r: State, t: nat, o: OutPoint)
    requires ReadersOk(s) && OneLoader(s) && LoadsOf(s.readers, t, o) && View(r) == View(s)
    requires t in r.readers && r.readers == s.readers[t := r.readers[t]] && r.readers[t].Answered?
    requires r.fetching == s.fetching - {o} && OnlyAt(s.coins, r.coins, o)
    requires AnswerOk(View(r), r.readers[t].o, r.readers[t].max, r.readers[t].reply)
    ensures ReadersOk(r)
  {
    forall u | u in r.readers && r.readers[u].Loading?
      ensures r.readers[u].o in r.fetching && LoadOk(r.coins, r.readers[u])
    {
      var x := r.readers[u].o;
      assert LoadsOf(s.readers, u, x);
      assert x != o;
    }
  }

  lemma ReaderKeeps(s: State, step: Step)
    requires Inv(s) && Enabled(s, step) && (step.Ask? || step.Leave?)
    ensures Inv(Apply(s, step))
  {
    ReaderMoved(s, Apply(s, step), step.t);
  }

  lemma WriterKeeps(s: State, step: Step)
    requires Inv(s) && Enabled(s, step) && Welcome(s, step) && (step.Write? || step.Uncache? || step.Flush?)
    ensures AssertsHold(s, step) && Inv(Apply(s, step)) && View(Apply(s, step)) == Expected(s, step)
  {
    AssertsNeverFire(s, step);
    match step
    case Write(child) => FlushMeans(s.db, s.coins, child);
    case Uncache(os) => UncachedMeans(s.db, s.coins, os);
    case Flush => StoredMeans(s.db, s.coins);
  }

  lemma StepKeeps(s: State, step: Step)
    requires Inv(s) && Enabled(s, step) && Welcome(s, step)
    ensures AssertsHold(s, step) && Inv(Apply(s, step)) && View(Apply(s, step)) == Expected(s, step)
  {
    AssertsNeverFire(s, step);
    match step
    case Ask(_, _, _) => ReaderKeeps(s, step);
    case Probe(t, extra) => ProbeKeeps(s, t, extra);
    case Store(t, compact, hasSpace) => StoreKeeps(s, t, compact, hasSpace);
    case Leave(_) => ReaderKeeps(s, step);
    case _ => WriterKeeps(s, step);
  }

  lemma ReaderMoved(s: State, r: State, t: nat)
    requires OneLoader(s) && r.fetching == s.fetching
    requires forall u :: u != t ==>
      (u in r.readers <==> u in s.readers) && (u in s.readers ==> r.readers[u] == s.readers[u])
    requires t in s.readers ==> !s.readers[t].Loading?
    requires t in r.readers ==> !r.readers[t].Loading?
    ensures OneLoader(r)
  {
    assert forall u, o :: LoadsOf(r.readers, u, o) ==> LoadsOf(s.readers, u, o);
    forall o | o in r.fetching
      ensures exists u :: LoadsOf(r.readers, u, o)
    {
      var u :| LoadsOf(s.readers, u, o);
      assert LoadsOf(r.readers, u, o);
    }
  }

  /* Whole runs */

  // Steps that the locks allow, with writers that bring truthful flags.
  ghost predicate Legal(s: State, steps: seq<Step>)
    decreases |steps|
  {
    steps != [] ==>
      && Enabled(s, steps[0]) && Welcome(s, steps[0])
      && (AssertsHold(s, steps[0]) ==> Legal(Apply(s, steps[0]), steps[1..]))
  }

  // The state at the end of a run, or nothing if an assertion fired.
  ghost function RunOf(s: State, steps: seq<Step>): Option<State>
    requires Legal(s, steps)
    decreases |steps|
  {
    if steps == [] then Some(s)
    else if !AssertsHold(s, steps[0]) then None
    else RunOf(Apply(s, steps[0]), steps[1..])
  }

  // The map after the writes of a run, as a plain map would have it.
  ghost function AfterWrites(view: Utxos, steps: seq<Step>): Utxos
    decreases |steps|
  {
    if steps == [] then view
    else AfterWrites(if steps[0].Write? then Effective(view, steps[0].child) else view, steps[1..])
  }

  // On every run no assertion fires, the layer stands for the database as the
  // writers changed it, and every thread that has its answer got the truth.
  lemma {:induction false} RunSound(s: State, steps: seq<Step>)
    requires Inv(s) && Legal(s, steps)
    ensures RunOf(s, steps).Some? && Inv(RunOf(s, steps).value)
    ensures var r := RunOf(s, steps).value;
      && View(r) == AfterWrites(View(s), steps)
      && forall t :: t in r.readers && r.readers[t].Answered? ==>
           AnswerOk(AfterWrites(View(s), steps), r.readers[t].o, r.readers[t].max, r.readers[t].reply)
    decreases |steps|
  {
    if steps != [] {
      StepKeeps(s, steps[0]);
      RunSound(Apply(s, steps[0]), steps[1..]);
    }
  }

  lemma InitInv(db: Utxos)
    ensures Inv(Init(db)) && View(Init(db)) == db
  {}

  // A reader that must wait waits for another reader, who can finish; when that
  // one has finished, the waiting reader can go on.
  lemma WaiterGetsTurn(s: State, t: nat, extra: nat) returns (u: nat)
    requires Inv(s) && Enabled(s, Probe(t, extra)) && Apply(s, Probe(t, extra)) == s
    ensures u != t && Enabled(s, Store(u, false, false)) && s.readers[u].o == s.readers[t].o
    ensures AssertsHold(s, Store(u, false, false))
    ensures var r := Apply(s, Store(u, false, false));
      Enabled(r, Probe(t, extra)) && !Apply(r, Probe(t, extra)).readers[t].Asking?
  {
    var o := s.readers[t].o;
    assert s.readers[t].Asking?;
    assert o in s.fetching;
    u :| LoadsOf(s.readers, u, o);
    AssertsNeverFire(s, Store(u, false, false));
  }

  // An answer with a large enough size limit is a full answer.
  lemma AnswerReplies(view: Utxos, o: OutPoint, max: nat, withScript: bool, reply: Option<Coin>)
    requires AnswerOk(view, o, max, reply)
    requires withScript && o in view ==> |view[o].script| <= max
    ensures Replies(view, o, withScript, reply)
  {}
}
