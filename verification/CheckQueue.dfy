/** The parallel check queue: one master and any number of workers share a
    queue of checks under one mutex.

    The queue is a step system. Every critical section of `Loop` is one atomic
    step; running one check happens outside the lock and takes two steps, so
    that anything can happen between its start and its end. Thread 0 is the
    master; the others are workers. Checks are named by the order in which they
    were added to the session.

    The fields from `added` on record the history of the session. No step reads
    them to decide what to do.
 */
module CheckQueue {
  import opened Options
  import Nonlinear

  // The result of a check and of Wait: an optional boolean.
  datatype Verdict = Empty | Value(ok: bool)

  // One execution of one check.
  datatype Run = Run(id: nat, verdict: Verdict)

  datatype Phase =
    | Outside                       // not in Loop
    | Waiting                       // blocked on the condition variable
    | Batch(checks: seq<nat>, next: nat, ok: Verdict, running: bool)
    | Returning(result: Verdict)    // left the loop, still counted in nTotal

  datatype Queue = Queue(
    batchSize: nat,
    threads: seq<Phase>,
    queue: seq<nat>,
    nIdle: int,
    nTotal: int,
    nTodo: int,
    allOk: Verdict,
    hasToken: bool,
    canceled: bool,
    waitCalled: bool,
    notified: bool,                 // a pending notification of the waiting master
    added: nat,
    history: seq<Run>,
    retired: multiset<nat>,         // checks of batches already accounted for
    drained: multiset<nat>,         // checks thrown away after a cancellation
    answer: Option<Verdict>)        // what Wait returned in this session

  datatype Step =
    | StartSession
    | Add(n: nat)
    | CallWait
    | Enter(t: nat)
    | Wake(t: nat)
    | Begin(t: nat)
    | End(t: nat, verdict: Verdict)
    | Finish(t: nat)
    | Exit
    | Cancel

  const MASTER: nat := 0

  function Init(batchSize: nat, workers: nat): Queue {
    Queue(batchSize, seq(workers + 1, _ => Outside), [], 0, 0, 0, Value(true),
          false, false, true, false, 0, [], multiset{}, multiset{}, None)
  }

  predicate IsIdle(q: Queue) {
    q.nTotal == q.nIdle && q.nTodo == 0
  }

  // ---------------------------------------------------------------- steps

  // Unsigned division, by repeated subtraction so that proofs about the queue
  // stay within linear arithmetic.
  function Quotient(n: nat, d: nat): (k: nat)
    requires d > 0
    ensures k <= n
  {
    if n < d then 0 else 1 + Quotient(n - d, d)
  }

  lemma {:induction false} QuotientIsDivision(n: nat, d: nat)
    requires d > 0
    ensures Quotient(n, d) == n / d
  {
    if n >= d {
      QuotientIsDivision(n - d, d);
      var k := (n - d) / d;
      assert (k + 1) * d == k * d + d;
      Nonlinear.DivUnique(n, d, k + 1, (n - d) % d);
    }
  }

  // At least one check, at most batchSize, and never more than there are.
  function BatchLength(q: Queue): (n: nat)
    requires q.queue != []
    ensures 1 <= n <= |q.queue| && n <= (if q.batchSize < 1 then 1 else q.batchSize)
  {
    var divisor := q.nTotal + q.nIdle + 1;
    var share := if divisor <= 0 then 0 else Quotient(|q.queue|, divisor);
    var capped := if q.batchSize < share then q.batchSize else share;
    if capped < 1 then 1 else capped
  }

  // The part of the critical section that a thread runs with no batch in hand:
  // take a batch, return the answer, or wait.
  function Settle(q: Queue, t: nat): Queue
    requires t < |q.threads|
  {
    if q.queue != [] then
      var n := BatchLength(q);
      q.(queue := q.queue[n..],
         threads := q.threads[t := Batch(q.queue[..n], 0, q.allOk, false)])
    else if t == MASTER && q.nTodo == 0 then
      var result := if q.canceled then Empty else q.allOk;
      q.(allOk := result, threads := q.threads[t := Returning(result)])
    else
      q.(nIdle := q.nIdle + 1,
         threads := q.threads[t := Waiting],
         notified := q.notified && t != MASTER)
  }

  function Merge(all: Verdict, one: Verdict): Verdict {
    if all.Value? && one.Value? then Value(all.ok && one.ok) else Empty
  }

  // Account for a finished batch.
  function Account(q: Queue, t: nat): Queue
    requires t < |q.threads| && q.threads[t].Batch?
  {
    var b := q.threads[t];
    q.(allOk := Merge(q.allOk, b.ok),
       nTodo := q.nTodo - |b.checks|,
       retired := q.retired + multiset(b.checks),
       threads := q.threads[t := Outside])
  }

  // Throw the queued checks away if the session was canceled, and let the
  // worker that finishes the last check wake the master.
  function Drain(q: Queue, t: nat): Queue
    requires t < |q.threads|
  {
    var left := if q.canceled then q.nTodo - |q.queue| else q.nTodo;
    q.(nTodo := left,
       queue := if q.canceled then [] else q.queue,
       drained := if q.canceled then q.drained + multiset(q.queue) else q.drained,
       notified := q.notified || (left == 0 && t != MASTER && q.threads[MASTER].Waiting?))
  }

  function CleanUp(q: Queue, t: nat): Queue
    requires t < |q.threads| && q.threads[t].Batch?
  {
    Drain(Account(q, t), t)
  }

  // A thread that has just entered Loop; the master enters it through Wait.
  function Entered(q: Queue, t: nat): Queue {
    q.(nTotal := q.nTotal + 1, waitCalled := q.waitCalled || t == MASTER)
  }

  // A thread back from its wait.
  function Woken(q: Queue, t: nat): Queue
    requires t < |q.threads|
  {
    q.(nIdle := q.nIdle - 1, threads := q.threads[t := Outside], notified := q.notified && t != MASTER)
  }

  predicate BatchOver(q: Queue, b: Phase)
    requires b.Batch?
  {
    !b.running && (b.next >= |b.checks| || b.ok != Value(true) || q.canceled)
  }

  predicate Enabled(q: Queue, step: Step) {
    |q.threads| > 0 &&
    match step
    case StartSession => q.threads[MASTER].Outside? && q.waitCalled && IsIdle(q)
    case Add(_) => q.threads[MASTER].Outside? && q.hasToken && !q.waitCalled
    case CallWait => q.threads[MASTER].Outside? && q.hasToken
    case Enter(t) => MASTER < t < |q.threads| && q.threads[t].Outside?
    case Wake(t) => t < |q.threads| && q.threads[t].Waiting?
    case Begin(t) =>
      && t < |q.threads| && q.threads[t].Batch? && !q.threads[t].running
      && q.threads[t].next < |q.threads[t].checks|
      && q.threads[t].ok == Value(true) && !q.canceled
    case End(t, _) =>
      && t < |q.threads| && q.threads[t].Batch? && q.threads[t].running
      && q.threads[t].next < |q.threads[t].checks|
    case Finish(t) => t < |q.threads| && q.threads[t].Batch? && BatchOver(q, q.threads[t])
    case Exit => q.threads[MASTER].Returning?
    case Cancel => q.hasToken
  }

  function Apply(q: Queue, step: Step): Queue
    requires Enabled(q, step)
  {
    match step
    case StartSession =>
      q.(hasToken := true, canceled := false, allOk := Value(true), waitCalled := false,
         added := 0, history := [], retired := multiset{}, drained := multiset{}, answer := None)
    case Add(n) =>
      q.(queue := q.queue + seq(n, i => q.added + i), nTodo := q.nTodo + n, added := q.added + n)
    case CallWait =>
      Settle(Entered(q, MASTER), MASTER)
    case Enter(t) =>
      Settle(Entered(q, t), t)
    case Wake(t) =>
      Settle(Woken(q, t), t)
    case Begin(t) =>
      q.(threads := q.threads[t := q.threads[t].(running := true)])
    case End(t, verdict) =>
      var b := q.threads[t];
      q.(threads := q.threads[t := b.(running := false, next := b.next + 1, ok := verdict)],
         history := q.history + [Run(b.checks[b.next], verdict)])
    case Finish(t) =>
      Settle(CleanUp(q, t), t)
    case Exit =>
      q.(nTotal := q.nTotal - 1, threads := q.threads[MASTER := Outside],
         answer := Some(q.threads[MASTER].result))
    case Cancel =>
      q.(canceled := true)
  }

  // What StartCheckingSession does when its guard fails: it throws and leaves
  // the queue as it was.
  datatype Outcome = Done(q: Queue) | Thrown(message: string)

  function TryStartSession(q: Queue): Outcome
    requires |q.threads| > 0 && q.threads[MASTER].Outside?
  {
    if !q.waitCalled || !IsIdle(q) then Thrown("Session already in progress!")
    else Done(Apply(q, StartSession))
  }

  // ------------------------------------------------------- sums over threads

  function Total(threads: seq<Phase>, f: Phase -> int): int {
    if threads == [] then 0 else f(threads[0]) + Total(threads[1..], f)
  }

  function Union(threads: seq<Phase>, f: Phase -> multiset<nat>): multiset<nat> {
    if threads == [] then multiset{} else f(threads[0]) + Union(threads[1..], f)
  }

  function Idle(p: Phase): int { if p.Waiting? then 1 else 0 }
  function Inside(p: Phase): int { if p.Outside? then 0 else 1 }
  function Load(p: Phase): int { if p.Batch? then |p.checks| else 0 }
  function Holding(p: Phase): int { if p.Batch? || p.Returning? then 1 else 0 }
  function Held(p: Phase): multiset<nat> { if p.Batch? then multiset(p.checks) else multiset{} }
  function Started(p: Phase): multiset<nat> {
    if p.Batch? && p.next <= |p.checks| then multiset(p.checks[..p.next]) else multiset{}
  }

  lemma {:induction false} TotalUpdate(threads: seq<Phase>, f: Phase -> int, t: nat, p: Phase)
    requires t < |threads|
    ensures Total(threads[t := p], f) == Total(threads, f) - f(threads[t]) + f(p)
  {
    if t == 0 {
      assert threads[t := p][1..] == threads[1..];
    } else {
      assert threads[t := p][1..] == threads[1..][t - 1 := p];
      TotalUpdate(threads[1..], f, t - 1, p);
    }
  }

  lemma {:induction false} UnionUpdate(threads: seq<Phase>, f: Phase -> multiset<nat>, t: nat, p: Phase)
    requires t < |threads|
    ensures f(threads[t]) <= Union(threads, f)
    ensures Union(threads[t := p], f) == Union(threads, f) - f(threads[t]) + f(p)
  {
    var rest := threads[1..];
    if t == 0 {
      assert threads[t := p][1..] == rest;
    } else {
      assert threads[t := p][1..] == rest[t - 1 := p];
      UnionUpdate(rest, f, t - 1, p);
    }
  }

  // A sum of non-negative terms bounds each term, and a positive sum has a positive term.
  lemma {:induction false} TotalNonNegative(threads: seq<Phase>, f: Phase -> int)
    requires forall p :: f(p) >= 0
    ensures Total(threads, f) >= 0
    ensures forall t :: 0 <= t < |threads| ==> f(threads[t]) <= Total(threads, f)
    ensures Total(threads, f) > 0 ==> exists t :: 0 <= t < |threads| && f(threads[t]) > 0
  {
    if threads != [] {
      var rest := threads[1..];
      TotalNonNegative(rest, f);
      forall t | 0 <= t < |threads| ensures f(threads[t]) <= Total(threads, f) {
        if t > 0 { assert threads[t] == rest[t - 1]; }
      }
      if Total(rest, f) > 0 {
        var t :| 0 <= t < |rest| && f(rest[t]) > 0;
        assert threads[t + 1] == rest[t];
      }
    }
  }

  // When every thread is within (or without) the loop, nTotal - nIdle counts the rest.
  lemma {:induction false} InsideIsIdleOrHolding(threads: seq<Phase>)
    ensures Total(threads, Inside) == Total(threads, Idle) + Total(threads, Holding)
  {
    if threads != [] { InsideIsIdleOrHolding(threads[1..]); }
  }

  lemma {:induction false} UnionEmpty(threads: seq<Phase>, f: Phase -> multiset<nat>)
    requires forall t :: 0 <= t < |threads| ==> f(threads[t]) == multiset{}
    ensures Union(threads, f) == multiset{}
  {
    if threads != [] { UnionEmpty(threads[1..], f); }
  }
}
