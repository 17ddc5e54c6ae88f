/** Theorems about whole executions of the check queue: what Wait's answer
    means, that the queue is idle once Wait has returned, and that Wait
    returns. */
module CheckQueueRuns {
  import opened Options
  import opened CheckQueue
  import opened CheckQueueSafety

  // A finite execution from the freshly built queue.
  ghost predicate Execution(batchSize: nat, workers: nat, states: seq<Queue>, steps: seq<Step>) {
    && |states| == |steps| + 1
    && states[0] == Init(batchSize, workers)
    && forall i :: 0 <= i < |steps| ==> Enabled(states[i], steps[i]) && states[i + 1] == Apply(states[i], steps[i])
  }

  lemma {:induction false} ReachableInv(batchSize: nat, workers: nat, states: seq<Queue>, steps: seq<Step>, i: nat)
    requires Execution(batchSize, workers, states, steps) && i < |states|
    ensures Inv(states[i])
  {
    if i == 0 {
      InitInv(batchSize, workers);
    } else {
      ReachableInv(batchSize, workers, states, steps, i - 1);
      StepKeeps(states[i - 1], steps[i - 1]);
    }
  }

  // ------------------------------------------------------- the answer

  ghost predicate RanOnce(history: seq<Run>, id: nat, verdict: Verdict) {
    exists k :: 0 <= k < |history| && history[k] == Run(id, verdict) &&
      forall j :: 0 <= j < |history| && j != k ==> history[j].id != id
  }

  lemma {:induction false} RunTwice(history: seq<Run>, j: nat, k: nat)
    requires j < k < |history| && history[j].id == history[k].id
    ensures RunNames(history)[history[k].id] >= 2
  {
    if k == |history| - 1 {
      RunCounted(history[..k], j);
    } else {
      RunTwice(history[..|history| - 1], j, k);
    }
  }

  lemma PassedOnce(history: seq<Run>, added: nat, id: nat)
    requires RunNames(history) == Names(added) && RetiredPassed(history, Names(added)) && id < added
    ensures RanOnce(history, id, Value(true))
  {
    NamesCount(added, id);
    assert id in Names(added);
    var k :| 0 <= k < |history| && history[k] == Run(id, Value(true));
    forall j | 0 <= j < |history| && j != k ensures history[j].id != id {
      if history[j].id == id {
        if j < k { RunTwice(history, j, k); } else { RunTwice(history, k, j); }
      }
    }
  }

  // What Wait answers, in every execution: true only if every check added in
  // the session ran exactly once and passed (and nothing else ran); false only
  // if some check failed; empty only if the session was canceled or some check
  // returned an empty verdict.
  lemma AnswerSound(batchSize: nat, workers: nat, states: seq<Queue>, steps: seq<Step>, i: nat)
    requires Execution(batchSize, workers, states, steps) && i < |states|
    requires states[i].answer.Some?
    ensures var q := states[i];
      match q.answer.value
      case Value(true) =>
        && (forall id: nat :: id < q.added ==> RanOnce(q.history, id, Value(true)))
        && (forall k :: 0 <= k < |q.history| ==> q.history[k].id < q.added && q.history[k].verdict == Value(true))
      case Value(false) => exists r :: r in q.history && r.verdict == Value(false)
      case Empty => q.canceled || exists r :: r in q.history && r.verdict == Empty
  {
    ReachableInv(batchSize, workers, states, steps, i);
    var q := states[i];
    if q.answer.value == Value(true) {
      forall id: nat | id < q.added ensures RanOnce(q.history, id, Value(true)) {
        PassedOnce(q.history, q.added, id);
      }
      forall k | 0 <= k < |q.history| ensures q.history[k].id < q.added && q.history[k].verdict == Value(true) {
        RunCounted(q.history, k);
        NamesCount(q.added, q.history[k].id);
        PassedOnce(q.history, q.added, q.history[k].id);
      }
    }
  }

  // ------------------------------------------------------ counters and idleness

  // In every reachable state nTodo counts the checks that are queued or in
  // some thread's batch, and nTotal - nIdle the threads that hold a batch,
  // with the master while it is returning. The division that sizes a batch
  // never divides by zero and no counter is ever negative.
  lemma CountersMeanWork(batchSize: nat, workers: nat, states: seq<Queue>, steps: seq<Step>, i: nat)
    requires Execution(batchSize, workers, states, steps) && i < |states|
    ensures var q := states[i];
      && q.nTodo == |q.queue| + Total(q.threads, Load)
      && q.nTotal - q.nIdle == Total(q.threads, Holding)
      && 0 <= q.nIdle <= q.nTotal && 0 <= q.nTodo
  {
    ReachableInv(batchSize, workers, states, steps, i);
    InsideIsIdleOrHolding(states[i].threads);
    TotalNonNegative(states[i].threads, Idle);
    TotalNonNegative(states[i].threads, Holding);
    TotalNonNegative(states[i].threads, Load);
  }

  lemma {:induction false} NoneHolding(threads: seq<Phase>)
    requires forall t :: 0 <= t < |threads| ==> Holding(threads[t]) == 0
    ensures Total(threads, Holding) == 0
  {
    if threads != [] { NoneHolding(threads[1..]); }
  }

  lemma QuietWhenDone(q: Queue)
    requires Inv(q) && q.threads[MASTER].Outside? && q.waitCalled
    ensures IsIdle(q) && Enabled(q, StartSession)
  {
    NothingLeft(q);
    forall t | 0 <= t < |q.threads| ensures Holding(q.threads[t]) == 0 {
      assert PhaseOk(q.threads[t], t == MASTER, q.hasToken);
    }
    NoneHolding(q.threads);
    InsideIsIdleOrHolding(q.threads);
  }

  // Once Wait has returned the queue is idle, whatever the workers do next,
  // and a new session starts without an exception.
  lemma IdleAfterWait(batchSize: nat, workers: nat, states: seq<Queue>, steps: seq<Step>, i: nat)
    requires Execution(batchSize, workers, states, steps) && i < |states|
    requires |states[i].threads| > 0 && states[i].threads[MASTER].Outside? && states[i].waitCalled
    ensures IsIdle(states[i]) && TryStartSession(states[i]).Done?
  {
    ReachableInv(batchSize, workers, states, steps, i);
    QuietWhenDone(states[i]);
  }

  // ------------------------------------------------------------- Wait returns

  // A wake-up that finds nothing to do and waits again.
  predicate Spurious(q: Queue, step: Step) {
    step.Wake? && q.queue == [] && !(step.t == MASTER && q.nTodo == 0)
  }

  predicate IsThreadStep(step: Step) {
    step.Enter? || step.Wake? || step.Begin? || step.End? || step.Finish? || step.Exit?
  }

  predicate InWait(q: Queue) { |q.threads| > 0 && !q.threads[MASTER].Outside? }

  // The master never waits for a notification nobody will send: while it is
  // inside Wait some thread can take a step that is not a spurious wake-up.
  lemma NeverStuck(q: Queue) returns (step: Step)
    requires Inv(q) && InWait(q)
    ensures IsThreadStep(step) && Enabled(q, step) && !Spurious(q, step)
  {
    var m := q.threads[MASTER];
    if m.Returning? {
      step := Exit;
    } else if m.Batch? {
      step := NextInBatch(q, MASTER);
    } else if q.nTodo == 0 {
      step := Wake(MASTER);
    } else {
      LoadNonNegative(q.threads);
      var t :| 0 <= t < |q.threads| && Load(q.threads[t]) > 0;
      step := NextInBatch(q, t);
    }
  }

  // ... and when it waits unnotified, some worker holds a batch.
  lemma WorkerInFlight(q: Queue)
    requires Inv(q) && q.threads[MASTER].Waiting? && !q.notified
    ensures exists t :: 0 < t < |q.threads| && q.threads[t].Batch? && q.threads[t].checks != []
  {
    LoadNonNegative(q.threads);
    var t :| 0 <= t < |q.threads| && Load(q.threads[t]) > 0;
    assert PhaseOk(q.threads[t], t == MASTER, q.hasToken);
  }

  lemma NextInBatch(q: Queue, t: nat) returns (step: Step)
    requires Inv(q) && t < |q.threads| && q.threads[t].Batch?
    ensures IsThreadStep(step) && Enabled(q, step) && !Spurious(q, step)
  {
    var b := q.threads[t];
    assert PhaseOk(b, t == MASTER, q.hasToken);
    if b.running { step := End(t, Empty); }
    else if BatchOver(q, b) { step := Finish(t); }
    else { step := Begin(t); }
  }

  function Effort(p: Phase): int {
    match p
    case Outside => 1
    case Waiting => 0
    case Batch(checks, next, _, running) =>
      if next <= |checks| then 3 + 2 * (|checks| - next) - (if running then 1 else 0) else 0
    case Returning(_) => 0
  }

  function MasterEffort(p: Phase): int {
    match p
    case Outside => -1
    case Waiting => 2
    case Batch(_, _, _, _) => 0
    case Returning(_) => 1
  }

  function Rank(q: Queue): int
    requires |q.threads| > 0
  {
    6 * |q.queue| + Total(q.threads, Effort) + MasterEffort(q.threads[MASTER])
  }

  lemma EffortAfter(q: Queue, t: nat, p: Phase)
    requires t < |q.threads|
    ensures Total(q.threads[t := p], Effort) == Total(q.threads, Effort) - Effort(q.threads[t]) + Effort(p)
  {
    TotalUpdate(q.threads, Effort, t, p);
  }

  // Settling costs nothing if the thread waits, and pays for a batch from the queue.
  lemma SettleRank(q: Queue, t: nat)
    requires t < |q.threads| && q.threads[t].Outside? && (t == MASTER ==> q.threads[MASTER].Outside?)
    ensures var r := Settle(q, t);
      && |r.threads| == |q.threads|
      && (q.queue != [] ==> Rank(r) <= Rank(q) - (if t == MASTER then 1 else 2))
      && (q.queue == [] && t == MASTER && q.nTodo == 0 ==> Rank(r) == Rank(q) + 1)
      && (q.queue == [] && !(t == MASTER && q.nTodo == 0) ==> Rank(r) == Rank(q) + (if t == MASTER then 2 else -1))
  {
    EffortAfter(q, t, Settle(q, t).threads[t]);
  }

  lemma EffortNonNegative(q: Queue)
    requires Inv(q)
    ensures InWait(q) ==> Rank(q) >= 0
  {
    forall p ensures Effort(p) >= 0 {}
    TotalNonNegative(q.threads, Effort);
  }

  lemma WakeRank(q: Queue, t: nat)
    requires Inv(q) && Enabled(q, Wake(t))
    ensures var r := Apply(q, Wake(t));
      && |r.threads| > 0
      && if Spurious(q, Wake(t)) then Rank(r) == Rank(q) else Rank(r) < Rank(q)
  {
    EffortAfter(q, t, Outside);
    SettleRank(Woken(q, t), t);
  }

  lemma FinishRank(q: Queue, t: nat)
    requires Inv(q) && Enabled(q, Finish(t))
    ensures |Apply(q, Finish(t)).threads| > 0 && Rank(Apply(q, Finish(t))) < Rank(q)
  {
    assert PhaseOk(q.threads[t], t == MASTER, q.hasToken);
    EffortAfter(q, t, Outside);
    SettleRank(CleanUp(q, t), t);
  }

  lemma EnterRank(q: Queue, t: nat)
    requires Inv(q) && Enabled(q, Enter(t))
    ensures |Apply(q, Enter(t)).threads| > 0
    ensures if Spurious(q, Enter(t)) then Rank(Apply(q, Enter(t))) == Rank(q) else Rank(Apply(q, Enter(t))) < Rank(q)
  {
    SettleRank(Entered(q, t), t);
  }

  lemma CheckRank(q: Queue, step: Step)
    requires Enabled(q, step) && (step.Begin? || step.End?)
    ensures |Apply(q, step).threads| > 0 && Rank(Apply(q, step)) < Rank(q)
  {
    EffortAfter(q, step.t, Apply(q, step).threads[step.t]);
  }

  // Every step of a thread other than a spurious wake-up brings Wait nearer
  // its end; a spurious one and a cancellation change nothing.
  lemma RankDecreases(q: Queue, step: Step)
    requires Inv(q) && Enabled(q, step) && (IsThreadStep(step) || step.Cancel?)
    ensures |Apply(q, step).threads| > 0
    ensures IsThreadStep(step) && !Spurious(q, step) ==> Rank(Apply(q, step)) < Rank(q)
    ensures Spurious(q, step) || step.Cancel? ==> Rank(Apply(q, step)) == Rank(q)
  {
    match step
    case Enter(t) => EnterRank(q, t);
    case Wake(t) => WakeRank(q, t);
    case Begin(_) => CheckRank(q, step);
    case End(_, _) => CheckRank(q, step);
    case Finish(t) => FinishRank(q, t);
    case Exit => EffortAfter(q, MASTER, Outside);
    case Cancel =>
  }

  // The number of useful steps in a run.
  function Useful(states: seq<Queue>, steps: seq<Step>): nat
    requires |states| == |steps| + 1
  {
    if steps == [] then 0
    else (if IsThreadStep(steps[0]) && !Spurious(states[0], steps[0]) then 1 else 0)
         + Useful(states[1..], steps[1..])
  }

  // A run that starts in a reachable state and stays inside Wait.
  ghost predicate WaitRun(states: seq<Queue>, steps: seq<Step>) {
    && |states| == |steps| + 1
    && (forall i :: 0 <= i < |steps| ==> IsThreadStep(steps[i]) || steps[i].Cancel?)
    && (forall i :: 0 <= i < |steps| ==> Enabled(states[i], steps[i]) && states[i + 1] == Apply(states[i], steps[i]))
    && (forall i :: 0 <= i < |states| ==> InWait(states[i]))
  }

  lemma WaitRunTail(states: seq<Queue>, steps: seq<Step>)
    requires WaitRun(states, steps) && steps != []
    ensures WaitRun(states[1..], steps[1..])
  {
    forall i | 0 <= i < |steps[1..]|
      ensures Enabled(states[1..][i], steps[1..][i]) && states[1..][i + 1] == Apply(states[1..][i], steps[1..][i])
    {
      assert states[i + 1 + 1] == Apply(states[i + 1], steps[i + 1]);
    }
  }

  // From any reachable state inside Wait, no continuation that stays inside
  // Wait has more than Rank useful steps. With NeverStuck: Wait returns as
  // soon as threads keep taking steps.
  lemma {:induction false} WaitReturns(states: seq<Queue>, steps: seq<Step>)
    requires WaitRun(states, steps) && Inv(states[0])
    ensures Useful(states, steps) <= Rank(states[0])
  {
    if steps == [] {
      EffortNonNegative(states[0]);
    } else {
      RankDecreases(states[0], steps[0]);
      StepKeeps(states[0], steps[0]);
      WaitRunTail(states, steps);
      WaitReturns(states[1..], steps[1..]);
    }
  }

  // ----------------------------------------------- Wait returns, if threads run

  // A thread that only needs to be given time: it holds a batch, or is about to
  // leave Wait, or has been notified that the work is done.
  predicate CanAct(q: Queue, t: nat) {
    t < |q.threads| &&
    match q.threads[t]
    case Batch(_, _, _, _) => true
    case Returning(_) => true
    case Waiting => t == MASTER && q.notified && q.nTodo == 0
    case Outside => false
  }

  predicate IsStepOf(step: Step, t: nat) {
    match step
    case Exit => t == MASTER
    case Enter(u) => t == u
    case Wake(u) => t == u
    case Begin(u) => t == u
    case End(u, _) => t == u
    case Finish(u) => t == u
    case _ => false
  }

  predicate IsUseful(q: Queue, step: Step) { IsThreadStep(step) && !Spurious(q, step) }

  predicate Taken(states: nat -> Queue, steps: nat -> Step, i: nat) {
    Enabled(states(i), steps(i)) && states(i + 1) == Apply(states(i), steps(i))
  }

  ghost predicate Forever(states: nat -> Queue, steps: nat -> Step) { forall i: nat :: Taken(states, steps, i) }

  // A thread that can act from some time on takes a step.
  ghost predicate Fair(states: nat -> Queue, steps: nat -> Step) {
    forall t: nat, i: nat :: AbleFrom(states, t, i) ==> exists j: nat :: j >= i && IsStepOf(steps(j), t)
  }

  ghost predicate AbleFrom(states: nat -> Queue, t: nat, i: nat) {
    forall j: nat :: j >= i ==> CanAct(states(j), t)
  }

  // Inside Wait some thread can act, and no wake-up is lost.
  lemma Actor(q: Queue) returns (t: nat)
    requires Inv(q) && InWait(q)
    ensures CanAct(q, t)
  {
    t := MASTER;
    if q.threads[MASTER].Waiting? && !(q.notified && q.nTodo == 0) {
      LoadNonNegative(q.threads);
      t :| 0 <= t < |q.threads| && Load(q.threads[t]) > 0;
    }
  }

  lemma ActsUsefully(q: Queue, step: Step, t: nat)
    requires Inv(q) && CanAct(q, t) && Enabled(q, step) && IsStepOf(step, t)
    ensures IsUseful(q, step)
  {}

  lemma StaysAble(q: Queue, step: Step, t: nat)
    requires InWait(q) && CanAct(q, t) && Enabled(q, step) && !IsUseful(q, step)
    ensures CanAct(Apply(q, step), t)
  {}

  lemma {:induction false} InvForever(states: nat -> Queue, steps: nat -> Step, i: nat)
    requires Forever(states, steps) && Inv(states(0))
    ensures Inv(states(i))
  {
    if i > 0 {
      InvForever(states, steps, i - 1);
      assert Taken(states, steps, i - 1);
      StepKeeps(states(i - 1), steps(i - 1));
    }
  }

  lemma {:induction false} StaysAbleUntil(states: nat -> Queue, steps: nat -> Step, t: nat, i: nat, j: nat)
    requires Forever(states, steps) && i <= j && CanAct(states(i), t)
    requires forall n: nat :: i <= n < j ==> InWait(states(n)) && !IsUseful(states(n), steps(n))
    ensures CanAct(states(j), t)
  {
    if i < j {
      StaysAbleUntil(states, steps, t, i, j - 1);
      assert Taken(states, steps, j - 1);
      StaysAble(states(j - 1), steps(j - 1), t);
    }
  }

  // Inside Wait some useful step is taken.
  lemma SomeoneActs(states: nat -> Queue, steps: nat -> Step, i: nat)
    requires Forever(states, steps) && Fair(states, steps) && Inv(states(0))
    requires WaitsFrom(states, i)
    ensures exists j: nat :: j >= i && IsUseful(states(j), steps(j))
  {
    if forall j: nat :: j >= i ==> !IsUseful(states(j), steps(j)) {
      InvForever(states, steps, i);
      var t := Actor(states(i));
      forall j: nat | j >= i ensures CanAct(states(j), t) {
        StaysAbleUntil(states, steps, t, i, j);
      }
      assert AbleFrom(states, t, i);
      var j: nat :| j >= i && IsStepOf(steps(j), t);
      InvForever(states, steps, j);
      assert Taken(states, steps, j);
      ActsUsefully(states(j), steps(j), t);
      assert false;
    }
  }

  // The master is inside Wait, so there are no other steps.
  lemma RankStep(q: Queue, step: Step)
    requires Inv(q) && InWait(q) && Enabled(q, step)
    ensures |Apply(q, step).threads| > 0 && Rank(Apply(q, step)) <= Rank(q)
    ensures IsUseful(q, step) ==> Rank(Apply(q, step)) < Rank(q)
  {
    assert IsThreadStep(step) || step.Cancel?;
    RankDecreases(q, step);
  }

  ghost predicate WaitsFrom(states: nat -> Queue, i: nat) {
    forall n: nat :: n >= i ==> InWait(states(n))
  }

  lemma NextRank(states: nat -> Queue, steps: nat -> Step, i: nat)
    requires Forever(states, steps) && Inv(states(0)) && InWait(states(i)) && InWait(states(i + 1))
    ensures Rank(states(i + 1)) <= Rank(states(i))
    ensures IsUseful(states(i), steps(i)) ==> Rank(states(i + 1)) < Rank(states(i))
  {
    InvForever(states, steps, i);
    assert Taken(states, steps, i);
    RankStep(states(i), steps(i));
  }

  lemma {:induction false} RankFalls(states: nat -> Queue, steps: nat -> Step, i: nat, j: nat)
    requires Forever(states, steps) && Inv(states(0)) && i <= j && WaitsFrom(states, i)
    ensures InWait(states(i)) && InWait(states(j)) && Rank(states(j)) <= Rank(states(i))
    decreases j - i
  {
    if i < j {
      RankFalls(states, steps, i + 1, j);
      NextRank(states, steps, i);
    }
  }

  lemma RankBelow(states: nat -> Queue, steps: nat -> Step, i: nat, j: nat)
    requires Forever(states, steps) && Inv(states(0)) && i <= j && WaitsFrom(states, i)
    requires IsUseful(states(j), steps(j))
    ensures 0 <= Rank(states(j + 1)) < Rank(states(i))
  {
    RankFalls(states, steps, i, j);
    assert InWait(states(j + 1));
    NextRank(states, steps, j);
    RankNonNegative(states, steps, j + 1);
  }

  lemma RankNonNegative(states: nat -> Queue, steps: nat -> Step, i: nat)
    requires Forever(states, steps) && Inv(states(0)) && InWait(states(i))
    ensures Rank(states(i)) >= 0
  {
    InvForever(states, steps, i);
    EffortNonNegative(states(i));
  }

  // In every run in which threads that can act do so in the end, Wait returns.
  lemma {:induction false} WaitEnds(states: nat -> Queue, steps: nat -> Step, i: nat)
    requires Forever(states, steps) && Fair(states, steps) && Inv(states(0))
    ensures exists n: nat :: n >= i && !InWait(states(n))
    decreases if InWait(states(i)) then Rank(states(i)) else 0
  {
    if WaitsFrom(states, i) {
      SomeoneActs(states, steps, i);
      var j: nat :| j >= i && IsUseful(states(j), steps(j));
      RankBelow(states, steps, i, j);
      WaitEnds(states, steps, j + 1);
    }
  }
}
