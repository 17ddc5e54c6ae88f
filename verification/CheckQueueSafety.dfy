/** What every reachable state of the check queue satisfies, and what the
    answer of Wait means, under every interleaving of master and workers. */
module CheckQueueSafety {
  import opened Options
  import opened CheckQueue

  // ------------------------------------------------------------- invariant

  predicate PhaseOk(p: Phase, isMaster: bool, hasToken: bool) {
    && (p.Batch? ==> && p.checks != [] && p.next <= |p.checks| && hasToken
                     && (p.running ==> p.next < |p.checks| && p.ok == Value(true)))
    && (p.Returning? ==> isMaster)
  }

  ghost predicate PhasesOk(threads: seq<Phase>, hasToken: bool) {
    forall t :: 0 <= t < |threads| ==> PhaseOk(threads[t], t == MASTER, hasToken)
  }

  // The counters mean what their comments say.
  ghost predicate CountersExact(q: Queue) {
    && q.nIdle == Total(q.threads, Idle)
    && q.nTotal == Total(q.threads, Inside)
    && q.nTodo == |q.queue| + Total(q.threads, Load)
  }

  function Names(n: nat): multiset<nat> {
    if n == 0 then multiset{} else Names(n - 1) + multiset{n - 1}
  }

  function RunNames(history: seq<Run>): multiset<nat> {
    if history == [] then multiset{}
    else RunNames(history[..|history| - 1]) + multiset{history[|history| - 1].id}
  }

  // Every check of the session is in exactly one place.
  ghost predicate Conserved(q: Queue) {
    multiset(q.queue) + Union(q.threads, Held) + (q.retired + q.drained) == Names(q.added)
  }

  // Only checks whose turn came have been run, and no check twice.
  ghost predicate RunsCovered(q: Queue) {
    RunNames(q.history) <= Union(q.threads, Started) + q.retired
  }

  // A verdict found in a batch or in allOk has a cause in the history.
  ghost predicate Caused(history: seq<Run>, canceled: bool, v: Verdict) {
    && (v == Value(false) ==> exists r :: r in history && r.verdict == Value(false))
    && (v == Empty ==> canceled || exists r :: r in history && r.verdict == Empty)
  }

  ghost predicate AllPassed(history: seq<Run>, checks: seq<nat>) {
    forall k :: 0 <= k < |checks| ==> Run(checks[k], Value(true)) in history
  }

  ghost predicate BatchCaused(history: seq<Run>, canceled: bool, p: Phase) {
    p.Batch? ==>
      && Caused(history, canceled, p.ok)
      && (p.ok == Value(true) && p.next <= |p.checks| ==> AllPassed(history, p.checks[..p.next]))
  }

  ghost predicate BatchesCaused(history: seq<Run>, canceled: bool, threads: seq<Phase>) {
    forall t :: 0 <= t < |threads| ==> BatchCaused(history, canceled, threads[t])
  }

  ghost predicate RetiredPassed(history: seq<Run>, retired: multiset<nat>) {
    forall id :: id in retired ==> Run(id, Value(true)) in history
  }

  ghost predicate TotalCaused(q: Queue) {
    && Caused(q.history, q.canceled, q.allOk)
    && (q.allOk == Value(true) && !q.canceled ==> RetiredPassed(q.history, q.retired))
    && (q.drained != multiset{} ==> q.canceled)
  }

  // What a verdict returned by Wait promises about the whole session.
  ghost predicate Justified(history: seq<Run>, canceled: bool, added: nat, v: Verdict) {
    && Caused(history, canceled, v)
    && (v == Value(true) ==> RunNames(history) == Names(added) && RetiredPassed(history, Names(added)))
  }

  ghost predicate Lifecycle(q: Queue)
    requires |q.threads| > 0
  {
    var m := q.threads[MASTER];
    && (!m.Outside? ==> q.waitCalled && q.hasToken)
    && (!q.waitCalled ==> q.hasToken)
    && (m.Outside? && q.waitCalled ==> q.nTodo == 0)
    && (m.Returning? ==> q.nTodo == 0 && Justified(q.history, q.canceled, q.added, m.result))
    && (m.Waiting? ==> q.queue == [] && (q.nTodo == 0 ==> q.notified))
    && (q.answer.Some? ==> && q.nTodo == 0 && q.waitCalled
                           && Justified(q.history, q.canceled, q.added, q.answer.value))
  }

  ghost predicate Accounted(q: Queue) {
    && CountersExact(q)
    && Conserved(q)
    && RunsCovered(q)
  }

  ghost predicate Inv(q: Queue) {
    && |q.threads| > 0
    && PhasesOk(q.threads, q.hasToken)
    && Accounted(q)
    && BatchesCaused(q.history, q.canceled, q.threads)
    && TotalCaused(q)
    && Lifecycle(q)
  }

  // -------------------------------------------------- one changed thread

  lemma PhasesUpdate(threads: seq<Phase>, hasToken: bool, t: nat, p: Phase)
    requires t < |threads| && PhasesOk(threads, hasToken) && PhaseOk(p, t == MASTER, hasToken)
    ensures PhasesOk(threads[t := p], hasToken)
  {}

  lemma BatchesUpdate(history: seq<Run>, canceled: bool, threads: seq<Phase>, t: nat, p: Phase)
    requires t < |threads| && BatchesCaused(history, canceled, threads) && BatchCaused(history, canceled, p)
    ensures BatchesCaused(history, canceled, threads[t := p])
  {}

  lemma UpdateCounts(threads: seq<Phase>, t: nat, p: Phase)
    requires t < |threads|
    ensures var ts := threads[t := p];
      && Total(ts, Idle) == Total(threads, Idle) - Idle(threads[t]) + Idle(p)
      && Total(ts, Inside) == Total(threads, Inside) - Inside(threads[t]) + Inside(p)
      && Total(ts, Load) == Total(threads, Load) - Load(threads[t]) + Load(p)
  {
    TotalUpdate(threads, Idle, t, p);
    TotalUpdate(threads, Inside, t, p);
    TotalUpdate(threads, Load, t, p);
  }

  lemma UpdateUnions(threads: seq<Phase>, t: nat, p: Phase)
    requires t < |threads|
    ensures var ts := threads[t := p];
      && Held(threads[t]) <= Union(threads, Held)
      && Union(ts, Held) == Union(threads, Held) - Held(threads[t]) + Held(p)
      && Started(threads[t]) <= Union(threads, Started)
      && Union(ts, Started) == Union(threads, Started) - Started(threads[t]) + Started(p)
  {
    UnionUpdate(threads, Held, t, p);
    UnionUpdate(threads, Started, t, p);
  }

  // Multiset algebra behind the two lemmas below.
  lemma Balance(a: multiset<nat>, h: multiset<nat>, d: multiset<nat>, u: multiset<nat>, n: multiset<nat>,
                a': multiset<nat>, h': multiset<nat>, d': multiset<nat>, u': multiset<nat>, n': multiset<nat>,
                x: multiset<nat>)
    requires h <= u && u' == u - h + h' && a + u + d == n && n' == n + x
    requires a' + h' + d' == a + h + d + x
    ensures a' + u' + d' == n'
  {
    forall id ensures (a' + u' + d')[id] == n'[id] {
      assert (a' + h' + d')[id] == (a + h + d + x)[id];
      assert (a + u + d)[id] == n[id];
    }
  }

  lemma Cover(runs: multiset<nat>, s: multiset<nat>, d: multiset<nat>, u: multiset<nat>,
              runs': multiset<nat>, s': multiset<nat>, d': multiset<nat>, u': multiset<nat>, x: multiset<nat>)
    requires s <= u && u' == u - s + s' && runs <= u + d && runs' == runs + x
    requires s + d + x <= s' + d'
    ensures runs' <= u' + d'
  {
    forall id ensures runs'[id] <= (u' + d')[id] {
      assert runs[id] <= (u + d)[id];
      assert (s + d + x)[id] <= (s' + d')[id];
    }
  }

  // A step that changes one thread keeps every check in exactly one place if
  // the checks that leave one place turn up in another.
  lemma ConservedBy(q: Queue, r: Queue, t: nat, x: multiset<nat>)
    requires t < |q.threads| && |r.threads| == |q.threads| && r.threads == q.threads[t := r.threads[t]]
    requires Conserved(q) && Names(r.added) == Names(q.added) + x
    requires multiset(r.queue) + Held(r.threads[t]) + (r.retired + r.drained)
          == multiset(q.queue) + Held(q.threads[t]) + (q.retired + q.drained) + x
    ensures Conserved(r)
  {
    UpdateUnions(q.threads, t, r.threads[t]);
    Balance(multiset(q.queue), Held(q.threads[t]), q.retired + q.drained, Union(q.threads, Held), Names(q.added),
            multiset(r.queue), Held(r.threads[t]), r.retired + r.drained, Union(r.threads, Held), Names(r.added), x);
  }

  lemma CoveredBy(q: Queue, r: Queue, t: nat, x: multiset<nat>)
    requires t < |q.threads| && |r.threads| == |q.threads| && r.threads == q.threads[t := r.threads[t]]
    requires RunsCovered(q) && RunNames(r.history) == RunNames(q.history) + x
    requires Started(q.threads[t]) + q.retired + x <= Started(r.threads[t]) + r.retired
    ensures RunsCovered(r)
  {
    UpdateUnions(q.threads, t, r.threads[t]);
    Cover(RunNames(q.history), Started(q.threads[t]), q.retired, Union(q.threads, Started),
          RunNames(r.history), Started(r.threads[t]), r.retired, Union(r.threads, Started), x);
  }

  // A step in which nothing but an empty-handed thread changes.
  lemma NothingMoves(q: Queue, r: Queue, t: nat)
    requires t < |q.threads| && |r.threads| == |q.threads| && r.threads == q.threads[t := r.threads[t]]
    requires !q.threads[t].Batch? && !r.threads[t].Batch?
    requires Conserved(q) && RunsCovered(q)
    requires r.queue == q.queue && r.retired == q.retired && r.drained == q.drained
    requires r.added == q.added && r.history == q.history
    ensures Conserved(r) && RunsCovered(r)
  {
    ConservedBy(q, r, t, multiset{});
    CoveredBy(q, r, t, multiset{});
  }

  lemma LoadNonNegative(threads: seq<Phase>)
    ensures Total(threads, Load) >= 0
    ensures forall t :: 0 <= t < |threads| ==> Load(threads[t]) <= Total(threads, Load)
    ensures Total(threads, Load) > 0 ==> exists t :: 0 <= t < |threads| && Load(threads[t]) > 0
  {
    TotalNonNegative(threads, Load);
  }

  // ------------------------------- the step of a thread without a batch

  // A thread that is about to settle holds nothing but is already counted in nTotal.
  ghost predicate ReadyCounts(q: Queue, t: nat)
    requires t < |q.threads|
  {
    && q.threads[t].Outside?
    && q.nIdle == Total(q.threads, Idle)
    && q.nTotal == Total(q.threads, Inside) + 1
    && q.nTodo == |q.queue| + Total(q.threads, Load)
    && Conserved(q)
    && RunsCovered(q)
  }

  ghost predicate ReadyLife(q: Queue, t: nat)
    requires t < |q.threads|
  {
    var m := q.threads[MASTER];
    && (q.queue != [] ==> q.hasToken)
    && (t == MASTER || !m.Outside? ==> q.waitCalled && q.hasToken)
    && (!q.waitCalled ==> q.hasToken)
    && (t != MASTER && m.Outside? && q.waitCalled ==> q.nTodo == 0)
    && (m.Returning? ==> q.nTodo == 0 && Justified(q.history, q.canceled, q.added, m.result))
    && (m.Waiting? ==> q.queue == [] && (q.nTodo == 0 ==> q.notified))
    && (q.answer.Some? ==> && q.nTodo == 0 && q.waitCalled
                           && Justified(q.history, q.canceled, q.added, q.answer.value))
  }

  ghost predicate Ready(q: Queue, t: nat) {
    && t < |q.threads|
    && PhasesOk(q.threads, q.hasToken)
    && ReadyCounts(q, t)
    && BatchesCaused(q.history, q.canceled, q.threads)
    && TotalCaused(q)
    && ReadyLife(q, t)
  }

  lemma SettleWaits(q: Queue, t: nat)
    requires Ready(q, t) && q.queue == [] && !(t == MASTER && q.nTodo == 0)
    ensures Inv(Settle(q, t))
  {
    UpdateCounts(q.threads, t, Waiting);
    NothingMoves(q, Settle(q, t), t);
    PhasesUpdate(q.threads, q.hasToken, t, Waiting);
    BatchesUpdate(q.history, q.canceled, q.threads, t, Waiting);
  }

  lemma SettleReturns(q: Queue)
    requires Ready(q, MASTER) && q.queue == [] && q.nTodo == 0
    ensures Inv(Settle(q, MASTER))
  {
    var p := Returning(if q.canceled then Empty else q.allOk);
    UpdateCounts(q.threads, MASTER, p);
    NothingMoves(q, Settle(q, MASTER), MASTER);
    PhasesUpdate(q.threads, q.hasToken, MASTER, p);
    BatchesUpdate(q.history, q.canceled, q.threads, MASTER, p);
    NothingLeft(q);
  }

  lemma SplitChecks(checks: seq<nat>, n: nat, h: multiset<nat>, d: multiset<nat>)
    requires n <= |checks| && h == multiset{}
    ensures multiset(checks[n..]) + multiset(checks[..n]) + d == multiset(checks) + h + d + multiset{}
  {
    assert checks == checks[..n] + checks[n..];
  }

  lemma SettleTakesConserved(q: Queue, t: nat)
    requires t < |q.threads| && q.threads[t].Outside? && Conserved(q) && RunsCovered(q) && q.queue != []
    ensures Conserved(Settle(q, t)) && RunsCovered(Settle(q, t))
  {
    var r := Settle(q, t);
    SplitChecks(q.queue, BatchLength(q), Held(q.threads[t]), q.retired + q.drained);
    ConservedBy(q, r, t, multiset{});
    assert r.threads[t].checks[..0] == [];
    CoveredBy(q, r, t, multiset{});
  }

  lemma SettleTakes(q: Queue, t: nat)
    requires Ready(q, t) && q.queue != []
    ensures Inv(Settle(q, t))
  {
    var p := Batch(q.queue[..BatchLength(q)], 0, q.allOk, false);
    UpdateCounts(q.threads, t, p);
    SettleTakesConserved(q, t);
    PhasesUpdate(q.threads, q.hasToken, t, p);
    BatchesUpdate(q.history, q.canceled, q.threads, t, p);
    LoadNonNegative(q.threads);
  }

  lemma SettleKeeps(q: Queue, t: nat)
    requires Ready(q, t)
    ensures Inv(Settle(q, t))
  {
    if q.queue != [] {
      SettleTakes(q, t);
    } else if t == MASTER && q.nTodo == 0 {
      SettleReturns(q);
    } else {
      SettleWaits(q, t);
    }
  }

  // ----------------------------------------------------- when all is done

  lemma {:induction false} NamesCount(n: nat, id: nat)
    ensures Names(n)[id] == if id < n then 1 else 0
  {
    if n > 0 { NamesCount(n - 1, id); }
  }

  lemma {:induction false} RunCounted(history: seq<Run>, k: nat)
    requires k < |history|
    ensures RunNames(history)[history[k].id] >= 1
  {
    if k < |history| - 1 { RunCounted(history[..|history| - 1], k); }
  }

  // If every name was run and none more often than it occurs, the runs are the names.
  lemma RunsAreNames(history: seq<Run>, added: nat)
    requires RunNames(history) <= Names(added) && RetiredPassed(history, Names(added))
    ensures RunNames(history) == Names(added)
  {
    forall id: nat ensures RunNames(history)[id] == Names(added)[id] {
      NamesCount(added, id);
      if id < added {
        assert Run(id, Value(true)) in history;
        var k :| 0 <= k < |history| && history[k] == Run(id, Value(true));
        RunCounted(history, k);
      }
    }
  }

  // With nothing left to do, every check of an uncancelled session was retired.
  lemma NothingLeft(q: Queue)
    requires PhasesOk(q.threads, q.hasToken) && TotalCaused(q) && Conserved(q) && RunsCovered(q)
    requires q.nTodo == |q.queue| + Total(q.threads, Load) && q.nTodo == 0
    ensures q.queue == [] && forall t :: 0 <= t < |q.threads| ==> !q.threads[t].Batch?
    ensures !q.canceled ==> Justified(q.history, q.canceled, q.added, q.allOk)
  {
    LoadNonNegative(q.threads);
    forall t | 0 <= t < |q.threads| ensures !q.threads[t].Batch? {
      assert PhaseOk(q.threads[t], t == MASTER, q.hasToken);
      assert Load(q.threads[t]) <= 0;
    }
    UnionEmpty(q.threads, Held);
    UnionEmpty(q.threads, Started);
    if !q.canceled && q.allOk == Value(true) {
      assert q.retired == Names(q.added);
      RunsAreNames(q.history, q.added);
    }
  }

  // ------------------------------------------------------------ each step

  lemma InitInv(batchSize: nat, workers: nat)
    ensures Inv(Init(batchSize, workers))
  {
    var ts := Init(batchSize, workers).threads;
    AllOutside(ts);
  }

  lemma {:induction false} AllOutside(threads: seq<Phase>)
    requires forall t :: 0 <= t < |threads| ==> threads[t].Outside?
    ensures Total(threads, Idle) == Total(threads, Inside) == Total(threads, Load) == 0
    ensures Union(threads, Held) == Union(threads, Started) == multiset{}
  {
    if threads != [] { AllOutside(threads[1..]); }
  }

  lemma EnteredReady(q: Queue, t: nat)
    requires Inv(q) && t < |q.threads| && q.threads[t].Outside? && (t == MASTER ==> q.hasToken)
    ensures Ready(Entered(q, t), t)
  {
    LoadNonNegative(q.threads);
  }

  lemma CallWaitKeeps(q: Queue)
    requires Inv(q) && Enabled(q, CallWait)
    ensures Inv(Apply(q, CallWait))
  {
    EnteredReady(q, MASTER);
    SettleKeeps(Entered(q, MASTER), MASTER);
  }

  lemma EnterKeeps(q: Queue, t: nat)
    requires Inv(q) && Enabled(q, Enter(t))
    ensures Inv(Apply(q, Enter(t)))
  {
    EnteredReady(q, t);
    SettleKeeps(Entered(q, t), t);
  }

  lemma WokenReady(q: Queue, t: nat)
    requires Inv(q) && Enabled(q, Wake(t))
    ensures Ready(Woken(q, t), t)
  {
    UpdateCounts(q.threads, t, Outside);
    NothingMoves(q, Woken(q, t), t);
    PhasesUpdate(q.threads, q.hasToken, t, Outside);
    BatchesUpdate(q.history, q.canceled, q.threads, t, Outside);
    LoadNonNegative(q.threads);
  }

  lemma WakeKeeps(q: Queue, t: nat)
    requires Inv(q) && Enabled(q, Wake(t))
    ensures Inv(Apply(q, Wake(t)))
  {
    WokenReady(q, t);
    SettleKeeps(Woken(q, t), t);
  }

  lemma BeginConserves(q: Queue, t: nat)
    requires Enabled(q, Begin(t)) && Conserved(q) && RunsCovered(q)
    ensures Conserved(Apply(q, Begin(t))) && RunsCovered(Apply(q, Begin(t)))
  {
    var r := Apply(q, Begin(t));
    ConservedBy(q, r, t, multiset{});
    CoveredBy(q, r, t, multiset{});
  }

  lemma BeginKeeps(q: Queue, t: nat)
    requires Inv(q) && Enabled(q, Begin(t))
    ensures Inv(Apply(q, Begin(t)))
  {
    var p := q.threads[t].(running := true);
    UpdateCounts(q.threads, t, p);
    BeginConserves(q, t);
    assert PhaseOk(q.threads[t], t == MASTER, q.hasToken);
    PhasesUpdate(q.threads, q.hasToken, t, p);
    assert BatchCaused(q.history, q.canceled, q.threads[t]);
    BatchesUpdate(q.history, q.canceled, q.threads, t, p);
  }

  // A batch in hand means that the session is not over.
  lemma InFlight(q: Queue, t: nat)
    requires Inv(q) && t < |q.threads| && q.threads[t].Batch?
    ensures q.nTodo >= |q.queue| + |q.threads[t].checks| > 0
    ensures q.answer.None? && !q.threads[MASTER].Returning?
    ensures q.threads[MASTER].Outside? ==> !q.waitCalled
  {
    LoadNonNegative(q.threads);
    assert PhaseOk(q.threads[t], t == MASTER, q.hasToken);
  }

  lemma HistoryGrows(history: seq<Run>, run: Run, canceled: bool, threads: seq<Phase>)
    requires BatchesCaused(history, canceled, threads)
    ensures BatchesCaused(history + [run], canceled, threads)
  {
    forall t | 0 <= t < |threads| ensures BatchCaused(history + [run], canceled, threads[t]) {
      assert BatchCaused(history, canceled, threads[t]);
      CausedGrows(history, run, canceled, threads[t]);
    }
  }

  lemma CausedGrows(history: seq<Run>, run: Run, canceled: bool, p: Phase)
    requires BatchCaused(history, canceled, p)
    ensures BatchCaused(history + [run], canceled, p)
  {}

  lemma OneMore(checks: seq<nat>, next: nat, d: multiset<nat>)
    requires next < |checks|
    ensures multiset(checks[..next]) + d + multiset{checks[next]} <= multiset(checks[..next + 1]) + d
  {
    assert checks[..next + 1] == checks[..next] + [checks[next]];
  }

  lemma EndConserves(q: Queue, t: nat, verdict: Verdict)
    requires Enabled(q, End(t, verdict)) && Conserved(q)
    ensures Conserved(Apply(q, End(t, verdict)))
  {
    ConservedBy(q, Apply(q, End(t, verdict)), t, multiset{});
  }

  lemma EndCovers(q: Queue, t: nat, verdict: Verdict)
    requires Enabled(q, End(t, verdict)) && RunsCovered(q)
    ensures RunsCovered(Apply(q, End(t, verdict)))
  {
    EndIs(q, t, verdict);
    EndNames(q, t, verdict);
    EndStarts(q.threads[t], Apply(q, End(t, verdict)).threads[t], q.retired);
    CoveredBy(q, Apply(q, End(t, verdict)), t, multiset{q.threads[t].checks[q.threads[t].next]});
  }

  lemma EndIs(q: Queue, t: nat, verdict: Verdict)
    requires Enabled(q, End(t, verdict))
    ensures var r, b := Apply(q, End(t, verdict)), q.threads[t];
      && r.retired == q.retired && |r.threads| == |q.threads| && r.threads == q.threads[t := r.threads[t]]
      && r.threads[t].Batch? && r.threads[t].checks == b.checks && r.threads[t].next == b.next + 1
  {}

  lemma EndNames(q: Queue, t: nat, verdict: Verdict)
    requires Enabled(q, End(t, verdict))
    ensures RunNames(Apply(q, End(t, verdict)).history)
      == RunNames(q.history) + multiset{q.threads[t].checks[q.threads[t].next]}
  {
    RunNamesAppend(q.history, Run(q.threads[t].checks[q.threads[t].next], verdict));
  }

  lemma EndStarts(b: Phase, b': Phase, retired: multiset<nat>)
    requires b.Batch? && b'.Batch? && b.next < |b.checks| && b'.checks == b.checks && b'.next == b.next + 1
    ensures Started(b) + retired + multiset{b.checks[b.next]} <= Started(b') + retired
  {
    OneMore(b.checks, b.next, retired);
  }

  lemma RunNamesAppend(history: seq<Run>, run: Run)
    ensures RunNames(history + [run]) == RunNames(history) + multiset{run.id}
  {
    assert (history + [run])[..|history|] == history;
  }

  lemma EndCauses(q: Queue, t: nat, verdict: Verdict)
    requires Enabled(q, End(t, verdict)) && BatchesCaused(q.history, q.canceled, q.threads)
    requires q.threads[t].ok == Value(true)
    ensures var r := Apply(q, End(t, verdict)); BatchesCaused(r.history, r.canceled, r.threads)
  {
    var b := q.threads[t];
    assert BatchCaused(q.history, q.canceled, b);
    var p := b.(running := false, next := b.next + 1, ok := verdict);
    var run := Run(b.checks[b.next], verdict);
    HistoryGrows(q.history, run, q.canceled, q.threads);
    assert p.checks[..p.next] == b.checks[..b.next] + [b.checks[b.next]];
    assert BatchCaused(q.history + [run], q.canceled, p) by {
      assert run in q.history + [run];
    }
    BatchesUpdate(q.history + [run], q.canceled, q.threads, t, p);
  }

  lemma TotalCausedGrows(q: Queue, t: nat, verdict: Verdict)
    requires Enabled(q, End(t, verdict)) && TotalCaused(q)
    ensures TotalCaused(Apply(q, End(t, verdict)))
  {}

  lemma EndCounts(q: Queue, t: nat, verdict: Verdict)
    requires Enabled(q, End(t, verdict)) && CountersExact(q)
    ensures CountersExact(Apply(q, End(t, verdict)))
  {
    var b := q.threads[t];
    UpdateCounts(q.threads, t, b.(running := false, next := b.next + 1, ok := verdict));
  }

  lemma EndAccounts(q: Queue, t: nat, verdict: Verdict)
    requires Enabled(q, End(t, verdict)) && Accounted(q)
    ensures Accounted(Apply(q, End(t, verdict)))
  {
    EndCounts(q, t, verdict);
    EndConserves(q, t, verdict);
    EndCovers(q, t, verdict);
  }

  lemma EndLife(q: Queue, t: nat, verdict: Verdict)
    requires Inv(q) && Enabled(q, End(t, verdict))
    ensures Lifecycle(Apply(q, End(t, verdict)))
  {
    InFlight(q, t);
  }

  lemma EndKeeps(q: Queue, t: nat, verdict: Verdict)
    requires Inv(q) && Enabled(q, End(t, verdict))
    ensures Inv(Apply(q, End(t, verdict)))
  {
    var b := q.threads[t];
    assert PhaseOk(b, t == MASTER, q.hasToken);
    EndAccounts(q, t, verdict);
    PhasesUpdate(q.threads, q.hasToken, t, b.(running := false, next := b.next + 1, ok := verdict));
    EndCauses(q, t, verdict);
    TotalCausedGrows(q, t, verdict);
    EndLife(q, t, verdict);
  }

  lemma CancelKeeps(q: Queue)
    requires Inv(q) && Enabled(q, Cancel)
    ensures Inv(Apply(q, Cancel))
  {
    forall t | 0 <= t < |q.threads| ensures BatchCaused(q.history, true, q.threads[t]) {
      assert BatchCaused(q.history, q.canceled, q.threads[t]);
    }
  }

  lemma ExitKeeps(q: Queue)
    requires Inv(q) && Enabled(q, Exit)
    ensures Inv(Apply(q, Exit))
  {
    UpdateCounts(q.threads, MASTER, Outside);
    NothingMoves(q, Apply(q, Exit), MASTER);
    PhasesUpdate(q.threads, q.hasToken, MASTER, Outside);
    BatchesUpdate(q.history, q.canceled, q.threads, MASTER, Outside);
  }

  lemma StartSessionKeeps(q: Queue)
    requires Inv(q) && Enabled(q, StartSession)
    ensures Inv(Apply(q, StartSession))
  {
    NothingLeft(q);
    UnionEmpty(q.threads, Held);
    UnionEmpty(q.threads, Started);
  }

  lemma NamesAppend(k: nat, n: nat)
    ensures Names(k + n) == Names(k) + multiset(seq(n, i => k + i))
  {
    var s := seq(n, i => k + i);
    forall x: nat ensures Names(k + n)[x] == Names(k)[x] + multiset(s)[x] {
      NamesCount(k + n, x);
      NamesCount(k, x);
      FollowingCount(k, s, x);
    }
  }

  lemma {:induction false} FollowingCount(k: nat, s: seq<nat>, x: nat)
    requires forall i :: 0 <= i < |s| ==> s[i] == k + i
    ensures multiset(s)[x] == if k <= x < k + |s| then 1 else 0
  {
    if s != [] {
      FollowingCount(k, s[..|s| - 1], x);
      assert s == s[..|s| - 1] + [k + |s| - 1];
    }
  }

  lemma AddConserves(q: Queue, n: nat)
    requires Enabled(q, Add(n)) && Conserved(q)
    ensures Conserved(Apply(q, Add(n)))
  {
    hide Names, Conserved;
    var r := Apply(q, Add(n));
    var more := seq(n, i => q.added + i);
    NamesAppend(q.added, n);
    assert multiset(r.queue) == multiset(q.queue) + multiset(more);
    Appended(multiset(q.queue), multiset(more), Held(q.threads[MASTER]), q.retired + q.drained);
    ConservedBy(q, r, MASTER, multiset(more));
  }

  lemma Appended(a: multiset<nat>, x: multiset<nat>, h: multiset<nat>, d: multiset<nat>)
    ensures (a + x) + h + d == a + h + d + x
  {}

  lemma AddKeeps(q: Queue, n: nat)
    requires Inv(q) && Enabled(q, Add(n))
    ensures Inv(Apply(q, Add(n)))
  {
    AddConserves(q, n);
  }

  // ------------------------------------------------------ finishing a batch

  lemma Retire(a: multiset<nat>, h: multiset<nat>, r: multiset<nat>, d: multiset<nat>)
    ensures a + multiset{} + ((r + h) + d) == a + h + (r + d) + multiset{}
  {}

  lemma AccountConserves(q: Queue, t: nat)
    requires Enabled(q, Finish(t)) && q.threads[t].next <= |q.threads[t].checks| && Conserved(q) && RunsCovered(q)
    ensures Conserved(Account(q, t)) && RunsCovered(Account(q, t))
  {
    var b := q.threads[t];
    var r := Account(q, t);
    Retire(multiset(q.queue), multiset(b.checks), q.retired, q.drained);
    ConservedBy(q, r, t, multiset{});
    RetireRuns(b.checks, b.next, q.retired);
    CoveredBy(q, r, t, multiset{});
  }

  lemma DrainConserves(q: Queue, t: nat)
    requires Conserved(q) && t < |q.threads|
    ensures Conserved(Drain(q, t))
  {
    Drained(multiset(q.queue), Union(q.threads, Held), q.retired, q.drained);
  }

  lemma Drained(a: multiset<nat>, u: multiset<nat>, r: multiset<nat>, d: multiset<nat>)
    ensures multiset([]) + u + (r + (d + a)) == a + u + (r + d)
  {}

  lemma CleanUpCounts(q: Queue, t: nat)
    requires CountersExact(q) && t < |q.threads| && q.threads[t].Batch?
    ensures var r := CleanUp(q, t);
      && r.nIdle == Total(r.threads, Idle)
      && r.nTotal == Total(r.threads, Inside) + 1
      && r.nTodo == |r.queue| + Total(r.threads, Load)
  {
    UpdateCounts(q.threads, t, Outside);
  }

  lemma CleanUpReady(q: Queue, t: nat)
    requires Accounted(q) && Enabled(q, Finish(t)) && q.threads[t].next <= |q.threads[t].checks|
    ensures ReadyCounts(CleanUp(q, t), t)
  {
    CleanUpCounts(q, t);
    AccountConserves(q, t);
    DrainConserves(Account(q, t), t);
  }

  lemma RetireRuns(checks: seq<nat>, next: nat, d: multiset<nat>)
    requires next <= |checks|
    ensures multiset(checks[..next]) + d + multiset{} <= multiset{} + (d + multiset(checks))
  {
    assert checks == checks[..next] + checks[next..];
  }

  lemma AllRetired(history: seq<Run>, retired: multiset<nat>, checks: seq<nat>)
    requires RetiredPassed(history, retired) && AllPassed(history, checks)
    ensures RetiredPassed(history, retired + multiset(checks))
  {}

  lemma CleanUpCauses(q: Queue, t: nat)
    requires Enabled(q, Finish(t)) && q.threads[t].next <= |q.threads[t].checks|
    requires TotalCaused(q) && BatchCaused(q.history, q.canceled, q.threads[t])
    ensures TotalCaused(CleanUp(q, t))
  {
    var b := q.threads[t];
    if Merge(q.allOk, b.ok) == Value(true) && !q.canceled {
      assert b.checks[..b.next] == b.checks;
      AllRetired(q.history, q.retired, b.checks);
    }
  }

  lemma CleanUpLife(q: Queue, t: nat)
    requires Inv(q) && Enabled(q, Finish(t))
    ensures ReadyLife(CleanUp(q, t), t)
  {
    assert PhaseOk(q.threads[t], t == MASTER, q.hasToken);
    InFlight(q, t);
  }

  lemma FinishKeeps(q: Queue, t: nat)
    requires Inv(q) && Enabled(q, Finish(t))
    ensures Inv(Apply(q, Finish(t)))
  {
    assert PhaseOk(q.threads[t], t == MASTER, q.hasToken);
    assert BatchCaused(q.history, q.canceled, q.threads[t]);
    CleanUpReady(q, t);
    CleanUpCauses(q, t);
    CleanUpLife(q, t);
    PhasesUpdate(q.threads, q.hasToken, t, Outside);
    BatchesUpdate(q.history, q.canceled, q.threads, t, Outside);
    SettleKeeps(CleanUp(q, t), t);
  }

  lemma StepKeeps(q: Queue, step: Step)
    requires Inv(q) && Enabled(q, step)
    ensures Inv(Apply(q, step))
  {
    match step
    case StartSession => StartSessionKeeps(q);
    case Add(n) => AddKeeps(q, n);
    case CallWait => CallWaitKeeps(q);
    case Enter(t) => EnterKeeps(q, t);
    case Wake(t) => WakeKeeps(q, t);
    case Begin(t) => BeginKeeps(q, t);
    case End(t, v) => EndKeeps(q, t, v);
    case Finish(t) => FinishKeeps(q, t);
    case Exit => ExitKeeps(q);
    case Cancel => CancelKeeps(q);
  }
}
