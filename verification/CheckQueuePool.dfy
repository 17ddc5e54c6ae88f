/** The pool that lends check queues to validators.

    Each pool operation that holds the pool's lock is one step; between them the
    threads of every queue and the holders of the handles take their own steps.
    A handle knows its queue until it has waited for it and given it back; which
    queues the pool believes to be running is the pool's own list.
    Values stand for the priority of a validation (more is better) and start
    times break ties.
 */
module CheckQueuePool {
  import opened CheckQueue
  import opened CheckQueueSafety
  import CheckQueueRuns

  datatype Running = Running(value: int, queue: nat, start: int)

  datatype Handle =
    | Open(queue: nat)                      // checks may be added
    | InWait(queue: nat)                    // Wait, or the destructor, waits for the queue
    | Closed                                // the queue was given back

  // The handles are named by the order in which they were handed out.
  datatype Pool = Pool(queues: seq<Queue>, idle: seq<nat>, running: seq<Running>, handles: seq<Handle>)

  datatype PoolStep =
    | Internal(i: nat, step: Step)          // a thread of queue i, or its token
    | Preempt(value: int)                   // GetChecker finds no idle queue
    | Take(value: int, now: int)            // GetChecker gets the first idle queue
    | AddChecks(h: nat, n: nat)             // Add of a handle
    | WaitFor(h: nat)                       // Wait of a handle, or its destructor
    | Return(h: nat)                        // the handle gives its queue back

  function Create(poolSize: nat, batchSize: nat, workers: nat): Pool {
    Pool(seq(poolSize, _ => Init(batchSize, workers)), seq(poolSize, i => i), [], [])
  }

  predicate Worse(a: Running, b: Running) {
    a.value < b.value || (a.value == b.value && a.start <= b.start)
  }

  // The running checker to terminate first: the lowest value and, among equal
  // values, the earliest start.
  ghost predicate IsWorst(running: seq<Running>, w: nat) {
    w < |running| && forall j :: 0 <= j < |running| ==> Worse(running[w], running[j])
  }

  function Worst(running: seq<Running>): (w: nat)
    requires running != []
    ensures IsWorst(running, w)
    ensures forall j :: 0 <= j < w ==> !Worse(running[j], running[w])
  {
    if |running| == 1 then 0
    else
      var last := |running| - 1;
      var w := Worst(running[..last]);
      if running[w].value > running[last].value ||
         (running[w].value == running[last].value && running[w].start > running[last].start)
      then last else w
  }

  // The scan in GetChecker.
  method FindWorst(running: seq<Running>) returns (worst: nat)
    requires running != []
    ensures worst == Worst(running)
  {
    worst := 0;
    var it := 1;
    while it < |running|
      invariant 1 <= it <= |running|
      invariant worst == Worst(running[..it])
    {
      assert running[..it + 1][..it] == running[..it];
      if running[worst].value > running[it].value {
        worst := it;
      } else if running[worst].value == running[it].value && running[worst].start > running[it].start {
        worst := it;
      }
      it := it + 1;
    }
    assert running[..it] == running;
  }

  function IndexOf(running: seq<Running>, i: nat): (k: nat)
    ensures k <= |running|
    ensures k < |running| ==> running[k].queue == i
    ensures forall j :: 0 <= j < k ==> running[j].queue != i
  {
    if running == [] || running[0].queue == i then 0 else 1 + IndexOf(running[1..], i)
  }

  // Without the first entry of queue i.
  function Removed(running: seq<Running>, i: nat): seq<Running>
    requires IndexOf(running, i) < |running|
  { running[..IndexOf(running, i)] + running[IndexOf(running, i) + 1..] }

  predicate HasHandle(p: Pool, h: nat) { h < |p.handles| && !p.handles[h].Closed? }

  // Sessions are started by the pool; checks are added and waited for through a
  // handle. A handle gives its queue back when the queue's own Wait is over.
  predicate PoolEnabled(p: Pool, s: PoolStep) {
    match s
    case Internal(i, step) =>
      && i < |p.queues| && Enabled(p.queues[i], step)
      && !step.StartSession? && !step.Add? && !step.CallWait?
    case Preempt(_) => p.idle == []
    case Take(_, _) => p.idle != []
    case AddChecks(h, _) => h < |p.handles| && p.handles[h].Open?
    case WaitFor(h) => h < |p.handles| && p.handles[h].Open?
    case Return(h) =>
      && h < |p.handles| && p.handles[h].InWait? && p.handles[h].queue < |p.queues|
      && var q := p.queues[p.handles[h].queue]; |q.threads| > 0 && q.threads[MASTER].Outside?
  }

  // The assertions that the operations make on their way, and that no call to
  // a queue throws.
  predicate AssertsHold(p: Pool, s: PoolStep)
    requires PoolEnabled(p, s)
  {
    match s
    case Internal(_, _) => true
    case Preempt(_) => p.running != [] && p.running[Worst(p.running)].queue < |p.queues|
                       && Enabled(p.queues[p.running[Worst(p.running)].queue], Cancel)
    case Take(_, _) => p.idle[0] < |p.queues| && Enabled(p.queues[p.idle[0]], StartSession)
    case AddChecks(h, n) => p.handles[h].queue < |p.queues| && Enabled(p.queues[p.handles[h].queue], Add(n))
    case WaitFor(h) => p.handles[h].queue < |p.queues| && Enabled(p.queues[p.handles[h].queue], CallWait)
    case Return(h) => IsIdle(p.queues[p.handles[h].queue]) && IndexOf(p.running, p.handles[h].queue) < |p.running|
  }

  // Queue i takes a step of its own.
  function Stepped(p: Pool, i: nat, step: Step): Pool
    requires i < |p.queues| && Enabled(p.queues[i], step)
  { p.(queues := p.queues[i := Apply(p.queues[i], step)]) }

  function PoolApply(p: Pool, s: PoolStep): Pool
    requires PoolEnabled(p, s) && AssertsHold(p, s)
  {
    match s
    case Internal(i, step) => Stepped(p, i, step)
    case Preempt(value) =>
      var worst := p.running[Worst(p.running)];
      if worst.value < value then Stepped(p, worst.queue, Cancel) else p
    case Take(value, now) =>
      var i := p.idle[0];
      Stepped(p, i, StartSession).(idle := p.idle[1..], running := p.running + [Running(value, i, now)],
                                   handles := p.handles + [Open(i)])
    case AddChecks(h, n) => Stepped(p, p.handles[h].queue, Add(n))
    case WaitFor(h) =>
      var i := p.handles[h].queue;
      Stepped(p, i, CallWait).(handles := p.handles[h := InWait(i)])
    case Return(h) =>
      var i := p.handles[h].queue;
      p.(idle := p.idle + [i], running := Removed(p.running, i), handles := p.handles[h := Closed])
  }

  // ---------------------------------------------------------------- invariant

  function Lent(running: seq<Running>): multiset<nat> {
    if running == [] then multiset{} else Lent(running[..|running| - 1]) + multiset{running[|running| - 1].queue}
  }

  ghost predicate QueueOk(q: Queue, idle: bool, lent: bool) {
    && Inv(q)
    && (idle ==> q.threads[MASTER].Outside? && q.waitCalled)
    && (lent ==> q.hasToken)
  }

  ghost predicate QueuesOk(p: Pool) {
    forall i :: 0 <= i < |p.queues| ==> QueueOk(p.queues[i], i in p.idle, i in Lent(p.running))
  }

  // Every queue is either idle or lent out, never both and never twice.
  ghost predicate Partitioned(p: Pool) {
    multiset(p.idle) + Lent(p.running) == Names(|p.queues|)
  }

  // The queues that handles have.
  function Owned(handles: seq<Handle>): multiset<nat> {
    if handles == [] then multiset{} else Owned(handles[..|handles| - 1]) + Owns(handles[|handles| - 1])
  }

  function Owns(handle: Handle): multiset<nat> { if handle.Closed? then multiset{} else multiset{handle.queue} }

  // Handles and running entries are the two views of what is lent out.
  ghost predicate Matched(p: Pool) {
    Owned(p.handles) == Lent(p.running)
  }

  ghost predicate HandleOk(q: Queue, handle: Handle) {
    && (handle.Open? ==> |q.threads| > 0 && q.threads[MASTER].Outside? && !q.waitCalled)
    && (handle.InWait? ==> q.waitCalled)
  }

  ghost predicate HandlesOk(queues: seq<Queue>, handles: seq<Handle>) {
    forall h :: 0 <= h < |handles| && !handles[h].Closed? ==>
      handles[h].queue < |queues| && HandleOk(queues[handles[h].queue], handles[h])
  }

  ghost predicate PoolInv(p: Pool) {
    QueuesOk(p) && Handed(p)
  }

  // Both views together, without what goes on inside the queues.
  ghost predicate Handed(p: Pool) {
    Partitioned(p) && Matched(p) && HandlesOk(p.queues, p.handles)
  }

  lemma {:induction false} OwnedPut(handles: seq<Handle>, h: nat, handle: Handle)
    requires h < |handles|
    ensures Owned(handles[h := handle]) + Owns(handles[h]) == Owned(handles) + Owns(handle)
  {
    var last := |handles| - 1;
    var front, top := handles[..last], handles[last];
    assert handles == front + [top];
    if h == last {
      assert handles[h := handle] == front + [handle];
      OwnedLast(front, top, handle);
    } else {
      assert handles[h := handle] == front[h := handle] + [top];
      OwnedPut(front, h, handle);
      OwnedUnder(front[h := handle], Owns(handles[h]), front, Owns(handle), top);
    }
  }

  lemma OwnedLast(front: seq<Handle>, top: Handle, handle: Handle)
    ensures Owned(front + [handle]) + Owns(top) == Owned(front + [top]) + Owns(handle)
  {
    OwnedSnoc(front, top);
    OwnedSnoc(front, handle);
    Exchange(Owned(front), Owns(handle), Owns(top));
  }

  lemma OwnedUnder(a: seq<Handle>, x: multiset<nat>, b: seq<Handle>, y: multiset<nat>, top: Handle)
    requires Owned(a) + x == Owned(b) + y
    ensures Owned(a + [top]) + x == Owned(b + [top]) + y
  {
    OwnedSnoc(a, top);
    OwnedSnoc(b, top);
    ExchangeBoth(Owned(a), x, Owned(b), y, Owns(top));
  }

  lemma OwnedSnoc(front: seq<Handle>, top: Handle)
    ensures Owned(front + [top]) == Owned(front) + Owns(top)
  {
    assert (front + [top])[..|front|] == front;
  }

  lemma ExchangeBoth(a: multiset<nat>, x: multiset<nat>, b: multiset<nat>, y: multiset<nat>, z: multiset<nat>)
    requires a + x == b + y
    ensures (a + z) + x == (b + z) + y
  {
    Exchange(a, x, z);
    Exchange(b, y, z);
  }

  lemma SameWithout(a: multiset<nat>, b: multiset<nat>, x: multiset<nat>)
    requires a + x == b + x
    ensures a == b
  {
    assert (a + x) - x == a && (b + x) - x == b;
  }

  lemma {:induction false} OwnedHas(handles: seq<Handle>, h: nat)
    requires h < |handles| && !handles[h].Closed?
    ensures handles[h].queue in Owned(handles)
  {
    if h < |handles| - 1 {
      OwnedHas(handles[..|handles| - 1], h);
    }
  }

  lemma {:induction false} OwnedTwice(handles: seq<Handle>, h: nat, k: nat)
    requires h < k < |handles| && !handles[h].Closed? && !handles[k].Closed? && handles[h].queue == handles[k].queue
    ensures Owned(handles)[handles[h].queue] >= 2
  {
    var front := handles[..|handles| - 1];
    if k < |front| {
      OwnedTwice(front, h, k);
    } else {
      OwnedHas(front, h);
    }
  }

  // The queue of a handle is lent out.
  lemma HandleLent(p: Pool, h: nat)
    requires Handed(p) && HasHandle(p, h)
    ensures var i := p.handles[h].queue;
      && i < |p.queues| && i in Lent(p.running) && i !in p.idle && HandleOk(p.queues[i], p.handles[h])
  {
    OwnedHas(p.handles, h);
    InPool(p, p.handles[h].queue);
  }

  // Two handles with one queue would count twice.
  lemma OneHandle(p: Pool, h: nat, k: nat)
    requires Handed(p) && HasHandle(p, h) && HasHandle(p, k) && h != k
    ensures p.handles[h].queue != p.handles[k].queue
  {
    HandleLent(p, h);
    OnePlace(p, p.handles[h].queue);
    if p.handles[h].queue == p.handles[k].queue {
      OwnedTwice(p.handles, if h < k then h else k, if h < k then k else h);
    }
  }

  lemma {:induction false} LentSplit(running: seq<Running>, k: nat)
    requires k < |running|
    ensures Lent(running) == Lent(running[..k] + running[k + 1..]) + multiset{running[k].queue}
    ensures running[k].queue in Lent(running)
  {
    var last := |running| - 1;
    if k == last {
      assert running[..k] + running[k + 1..] == running[..last];
    } else {
      var front := running[..last];
      LentSplit(front, k);
      var rest := running[..k] + running[k + 1..];
      assert rest[..|rest| - 1] == front[..k] + front[k + 1..];
      assert rest[|rest| - 1] == running[last];
      Exchange(Lent(front[..k] + front[k + 1..]), multiset{running[k].queue}, multiset{running[last].queue});
    }
  }

  lemma Exchange(a: multiset<nat>, x: multiset<nat>, y: multiset<nat>)
    ensures (a + x) + y == (a + y) + x
  {}

  lemma {:induction false} LentHas(running: seq<Running>, i: nat)
    ensures i in Lent(running) <==> IndexOf(running, i) < |running|
  {
    var k := IndexOf(running, i);
    if k < |running| {
      LentSplit(running, k);
    } else {
      NotLent(running, i);
    }
  }

  lemma {:induction false} NotLent(running: seq<Running>, i: nat)
    requires forall j :: 0 <= j < |running| ==> running[j].queue != i
    ensures i !in Lent(running)
  {
    if running != [] { NotLent(running[..|running| - 1], i); }
  }

  lemma InPool(p: Pool, i: nat)
    requires Partitioned(p) && (i in p.idle || i in Lent(p.running))
    ensures i < |p.queues| && !(i in p.idle && i in Lent(p.running))
  {
    NamesCount(|p.queues|, i);
    assert (multiset(p.idle) + Lent(p.running))[i] == multiset(p.idle)[i] + Lent(p.running)[i];
  }

  lemma SomeRunning(p: Pool)
    requires Partitioned(p) && p.idle == [] && |p.queues| > 0
    ensures p.running != []
  {
    NamesCount(|p.queues|, 0);
    assert (multiset(p.idle) + Lent(p.running))[0] == Lent(p.running)[0];
  }

  lemma WorstInPool(p: Pool)
    requires Partitioned(p) && p.idle == [] && |p.queues| > 0
    ensures p.running != []
    ensures var i := p.running[Worst(p.running)].queue; i < |p.queues| && i in Lent(p.running)
  {
    SomeRunning(p);
    LentSplit(p.running, Worst(p.running));
    InPool(p, p.running[Worst(p.running)].queue);
  }

  lemma CanCancel(q: Queue, idle: bool)
    requires QueueOk(q, idle, true)
    ensures Enabled(q, Cancel)
  {}

  lemma CanPreempt(p: Pool)
    requires PoolInv(p) && p.idle == [] && |p.queues| > 0
    ensures AssertsHold(p, Preempt(0))
  {
    WorstInPool(p);
    var i := p.running[Worst(p.running)].queue;
    CanCancel(p.queues[i], i in p.idle);
  }

  lemma CanTake(p: Pool)
    requires PoolInv(p) && p.idle != []
    ensures p.idle[0] < |p.queues| && Enabled(p.queues[p.idle[0]], StartSession)
  {
    var i := p.idle[0];
    InPool(p, i);
    assert QueueOk(p.queues[i], i in p.idle, i in Lent(p.running));
    CheckQueueRuns.QuietWhenDone(p.queues[i]);
  }

  lemma CanUse(p: Pool, h: nat, n: nat)
    requires PoolInv(p) && h < |p.handles| && p.handles[h].Open?
    ensures AssertsHold(p, AddChecks(h, n)) && AssertsHold(p, WaitFor(h))
  {
    HandleLent(p, h);
    var i := p.handles[h].queue;
    assert QueueOk(p.queues[i], i in p.idle, i in Lent(p.running));
    UsableQueue(p.queues[i], p.handles[h], n);
  }

  lemma UsableQueue(q: Queue, handle: Handle, n: nat)
    requires QueueOk(q, false, true) && handle.Open? && HandleOk(q, handle)
    ensures Enabled(q, Add(n)) && Enabled(q, CallWait)
  {}

  lemma CanReturn(p: Pool, h: nat)
    requires PoolInv(p) && PoolEnabled(p, Return(h))
    ensures AssertsHold(p, Return(h))
  {
    HandleLent(p, h);
    var i := p.handles[h].queue;
    assert QueueOk(p.queues[i], i in p.idle, i in Lent(p.running));
    CheckQueueRuns.QuietWhenDone(p.queues[i]);
    LentHas(p.running, i);
  }

  // No assertion of the pool ever fires: a returned queue is idle and is found
  // among the running ones, a pool without idle queues has a running one, and
  // a lent queue starts its session and takes checks without an exception.
  lemma AssertsNeverFire(p: Pool, s: PoolStep)
    requires PoolInv(p) && PoolEnabled(p, s) && |p.queues| > 0
    ensures AssertsHold(p, s)
  {
    match s
    case Internal(_, _) =>
    case Preempt(_) => CanPreempt(p);
    case Take(_, _) => CanTake(p);
    case AddChecks(h, n) => CanUse(p, h, n);
    case WaitFor(h) => CanUse(p, h, 0);
    case Return(h) => CanReturn(p, h);
  }

  // What a queue step leaves alone.
  lemma TokenStays(q: Queue, step: Step)
    requires Enabled(q, step) && q.hasToken
    ensures Apply(q, step).hasToken
  {}

  // Only thread t and what is shared may change.
  ghost predicate Others(q: Queue, r: Queue, t: nat) {
    && r.waitCalled == q.waitCalled && |r.threads| == |q.threads|
    && forall u :: 0 <= u < |q.threads| && u != t ==> r.threads[u] == q.threads[u]
  }

  lemma SettleOthers(q: Queue, t: nat)
    requires t < |q.threads|
    ensures Others(q, Settle(q, t), t)
  {}

  lemma StepOthers(q: Queue, step: Step)
    requires Enabled(q, step) && (step.Enter? || step.Wake? || step.Begin? || step.End? || step.Finish?)
    ensures Others(q, Apply(q, step), step.t)
  {
    match step
    case Enter(t) => SettleOthers(Entered(q, t), t);
    case Wake(t) => SettleOthers(Woken(q, t), t);
    case Finish(t) => SettleOthers(CleanUp(q, t), t);
    case _ =>
  }

  lemma SessionStays(q: Queue, step: Step)
    requires Enabled(q, step) && !step.StartSession? && !step.CallWait?
    ensures |Apply(q, step).threads| > 0 && Apply(q, step).waitCalled == q.waitCalled
    ensures q.threads[MASTER].Outside? ==> Apply(q, step).threads[MASTER].Outside?
  {
    match step
    case Add(_) =>
    case Exit =>
    case Cancel =>
    case _ => StepOthers(q, step);
  }

  lemma QueueStepOk(q: Queue, step: Step, idle: bool, lent: bool)
    requires QueueOk(q, idle, lent) && Enabled(q, step) && !step.StartSession?
    requires idle ==> !step.CallWait?
    ensures QueueOk(Apply(q, step), idle, lent)
  {
    StepKeeps(q, step);
    if lent { TokenStays(q, step); }
    if idle { SessionStays(q, step); }
  }

  lemma QueuesUpdate(p: Pool, r: Pool, i: nat)
    requires QueuesOk(p) && i < |p.queues| && |r.queues| == |p.queues| && r.queues == p.queues[i := r.queues[i]]
    requires forall j :: 0 <= j < |p.queues| && j != i ==>
      (j in r.idle ==> j in p.idle) && (j in Lent(r.running) ==> j in Lent(p.running))
    requires QueueOk(r.queues[i], i in r.idle, i in Lent(r.running))
    ensures QueuesOk(r)
  {
    forall j | 0 <= j < |r.queues| ensures QueueOk(r.queues[j], j in r.idle, j in Lent(r.running)) {
      if j != i { assert QueueOk(p.queues[j], j in p.idle, j in Lent(p.running)); }
    }
  }

  lemma SteppedQueues(p: Pool, i: nat, step: Step)
    requires QueuesOk(p) && i < |p.queues| && Enabled(p.queues[i], step) && !step.StartSession?
    requires i in p.idle ==> !step.CallWait?
    ensures QueuesOk(Stepped(p, i, step))
  {
    assert QueueOk(p.queues[i], i in p.idle, i in Lent(p.running));
    QueueStepOk(p.queues[i], step, i in p.idle, i in Lent(p.running));
    QueuesUpdate(p, Stepped(p, i, step), i);
  }

  lemma SteppedKeeps(p: Pool, i: nat, step: Step)
    requires PoolInv(p) && i < |p.queues| && Enabled(p.queues[i], step) && !step.StartSession? && !step.CallWait?
    ensures PoolInv(Stepped(p, i, step))
  {
    SteppedQueues(p, i, step);
    SessionStays(p.queues[i], step);
    HandlesUpdate(p.queues, p.handles, i, Apply(p.queues[i], step));
  }

  lemma HandlesUpdate(queues: seq<Queue>, handles: seq<Handle>, i: nat, q: Queue)
    requires HandlesOk(queues, handles) && i < |queues| && q.waitCalled == queues[i].waitCalled && |q.threads| > 0
    requires |queues[i].threads| > 0 && queues[i].threads[MASTER].Outside? ==> q.threads[MASTER].Outside?
    ensures HandlesOk(queues[i := q], handles)
  {}

  // Pre-empting is a cancellation of the worst running queue, if anything.
  lemma PreemptKeeps(p: Pool, value: int)
    requires PoolInv(p) && PoolEnabled(p, Preempt(value)) && AssertsHold(p, Preempt(value))
    ensures PoolInv(PoolApply(p, Preempt(value)))
  {
    var worst := p.running[Worst(p.running)];
    if worst.value < value {
      assert PoolApply(p, Preempt(value)) == Stepped(p, worst.queue, Cancel);
      SteppedKeeps(p, worst.queue, Cancel);
    } else {
      assert PoolApply(p, Preempt(value)) == p;
    }
  }

  lemma AddKeepsPool(p: Pool, h: nat, n: nat)
    requires PoolInv(p) && PoolEnabled(p, AddChecks(h, n)) && AssertsHold(p, AddChecks(h, n))
    ensures PoolInv(PoolApply(p, AddChecks(h, n)))
  {
    SteppedKeeps(p, p.handles[h].queue, Add(n));
  }

  // The other handles have other queues.
  lemma OthersKept(p: Pool, h: nat, q: Queue)
    requires Handed(p) && HasHandle(p, h)
    ensures HandlesOk(p.queues[p.handles[h].queue := q], p.handles[h := Closed])
  {
    var i := p.handles[h].queue;
    var handles := p.handles[h := Closed];
    forall k | 0 <= k < |handles| && !handles[k].Closed?
      ensures handles[k].queue < |p.queues| && HandleOk(p.queues[i := q][handles[k].queue], handles[k])
    {
      OneHandle(p, h, k);
    }
  }

  lemma WaitHandles(p: Pool, h: nat)
    requires Handed(p) && PoolEnabled(p, WaitFor(h)) && AssertsHold(p, WaitFor(h))
    ensures Handed(PoolApply(p, WaitFor(h)))
  {
    var i := p.handles[h].queue;
    OthersKept(p, h, Apply(p.queues[i], CallWait));
    SettleOthers(Entered(p.queues[i], MASTER), MASTER);
    OneMoreHandle(p.queues[i := Apply(p.queues[i], CallWait)], p.handles[h := Closed], h, InWait(i));
    assert p.handles[h := Closed][h := InWait(i)] == p.handles[h := InWait(i)];
    OwnedPut(p.handles, h, InWait(i));
    SameWithout(Owned(p.handles[h := InWait(i)]), Owned(p.handles), multiset{i});
  }

  lemma OneMoreHandle(queues: seq<Queue>, handles: seq<Handle>, h: nat, handle: Handle)
    requires HandlesOk(queues, handles) && h < |handles|
    requires !handle.Closed? ==> handle.queue < |queues| && HandleOk(queues[handle.queue], handle)
    ensures HandlesOk(queues, handles[h := handle])
  {}

  lemma WaitKeeps(p: Pool, h: nat)
    requires PoolInv(p) && PoolEnabled(p, WaitFor(h)) && AssertsHold(p, WaitFor(h))
    ensures PoolInv(PoolApply(p, WaitFor(h)))
  {
    HandleLent(p, h);
    SteppedQueues(p, p.handles[h].queue, CallWait);
    SameLists(Stepped(p, p.handles[h].queue, CallWait), PoolApply(p, WaitFor(h)));
    WaitHandles(p, h);
  }

  lemma SameLists(p: Pool, r: Pool)
    requires QueuesOk(p) && r.queues == p.queues && r.idle == p.idle && r.running == p.running
    ensures QueuesOk(r)
  {}

  lemma Regroup(a: multiset<nat>, b: multiset<nat>, x: multiset<nat>)
    ensures (a + x) + b == a + (b + x)
  {}

  lemma StartOk(q: Queue)
    requires QueueOk(q, true, false) && Enabled(q, StartSession)
    ensures QueueOk(Apply(q, StartSession), false, true)
  {
    StartSessionKeeps(q);
  }

  lemma TakePartition(p: Pool, value: int, now: int)
    requires Partitioned(p) && PoolEnabled(p, Take(value, now)) && AssertsHold(p, Take(value, now))
    ensures Partitioned(PoolApply(p, Take(value, now)))
    ensures Lent(PoolApply(p, Take(value, now)).running) == Lent(p.running) + multiset{p.idle[0]}
  {
    var r := PoolApply(p, Take(value, now));
    assert r.running[..|r.running| - 1] == p.running;
    assert p.idle == [p.idle[0]] + r.idle;
    assert multiset(p.idle) == multiset(r.idle) + multiset{p.idle[0]};
    Regroup(multiset(r.idle), Lent(p.running), multiset{p.idle[0]});
  }

  lemma TakeKeeps(p: Pool, value: int, now: int)
    requires PoolInv(p) && PoolEnabled(p, Take(value, now)) && AssertsHold(p, Take(value, now))
    ensures PoolInv(PoolApply(p, Take(value, now)))
  {
    TakePartition(p, value, now);
    TakenOk(p, value, now);
    QueuesUpdate(p, PoolApply(p, Take(value, now)), p.idle[0]);
    TakeHandles(p, value, now);
  }

  lemma TakeHandles(p: Pool, value: int, now: int)
    requires Handed(p) && PoolEnabled(p, Take(value, now)) && AssertsHold(p, Take(value, now))
    ensures var r := PoolApply(p, Take(value, now));
      Owned(r.handles) == Owned(p.handles) + multiset{p.idle[0]} && HandlesOk(r.queues, r.handles)
  {
    var i := p.idle[0];
    assert (p.handles + [Open(i)])[..|p.handles|] == p.handles;
    forall h | 0 <= h < |p.handles| && !p.handles[h].Closed?
      ensures p.handles[h].queue < |p.queues| && p.handles[h].queue != i &&
        HandleOk(p.queues[p.handles[h].queue], p.handles[h])
    {
      HandleLent(p, h);
    }
    NewHandle(p.queues, p.handles, i, Apply(p.queues[i], StartSession));
  }

  lemma NewHandle(queues: seq<Queue>, handles: seq<Handle>, i: nat, q: Queue)
    requires HandlesOk(queues, handles) && i < |queues| && HandleOk(q, Open(i))
    requires forall h :: 0 <= h < |handles| && !handles[h].Closed? ==> handles[h].queue != i
    ensures HandlesOk(queues[i := q], handles + [Open(i)])
  {}

  lemma TakenOk(p: Pool, value: int, now: int)
    requires PoolInv(p) && PoolEnabled(p, Take(value, now)) && AssertsHold(p, Take(value, now))
    ensures var i, r := p.idle[0], PoolApply(p, Take(value, now));
      QueueOk(r.queues[i], i in r.idle, i in Lent(r.running))
  {
    var i := p.idle[0];
    TakenOnce(p, value, now);
    assert QueueOk(p.queues[i], i in p.idle, i in Lent(p.running));
    StartOk(p.queues[i]);
  }

  lemma TakenOnce(p: Pool, value: int, now: int)
    requires Partitioned(p) && PoolEnabled(p, Take(value, now)) && AssertsHold(p, Take(value, now))
    ensures var i, r := p.idle[0], PoolApply(p, Take(value, now));
      i in p.idle && i !in Lent(p.running) && i !in r.idle && i in Lent(r.running)
  {
    TakePartition(p, value, now);
    InPool(p, p.idle[0]);
    InPool(PoolApply(p, Take(value, now)), p.idle[0]);
  }

  lemma LentRemoved(running: seq<Running>, i: nat)
    requires IndexOf(running, i) < |running|
    ensures Lent(running) == Lent(Removed(running, i)) + multiset{i}
  {
    var k := IndexOf(running, i);
    LentSplit(running, k);
    Renamed(Lent(running), Lent(Removed(running, i)), running[k].queue, i);
  }

  lemma Renamed(a: multiset<nat>, b: multiset<nat>, i: nat, j: nat)
    requires a == b + multiset{i} && i == j
    ensures a == b + multiset{j}
  {}

  lemma ReturnPartition(p: Pool, h: nat)
    requires Partitioned(p) && PoolEnabled(p, Return(h)) && AssertsHold(p, Return(h))
    ensures Partitioned(PoolApply(p, Return(h)))
  {
    var i := p.handles[h].queue;
    LentRemoved(p.running, i);
    Appended(p.idle, i);
    MovedOver(multiset(p.idle), Lent(p.running), Lent(Removed(p.running, i)), multiset{i});
  }

  lemma Appended(s: seq<nat>, i: nat)
    ensures multiset(s + [i]) == multiset(s) + multiset{i}
  {}

  lemma MovedOver(a: multiset<nat>, b: multiset<nat>, b': multiset<nat>, x: multiset<nat>)
    requires b == b' + x
    ensures (a + x) + b' == a + b
  {}

  lemma OneLess(a: multiset<nat>, b: multiset<nat>, i: nat)
    requires a == b + multiset{i}
    ensures i in a && forall j :: j in b ==> j in a
  {}

  lemma GivenBack(q: Queue, idle: bool, handle: Handle)
    requires QueueOk(q, idle, true) && handle.InWait? && HandleOk(q, handle) && q.threads[MASTER].Outside?
    ensures QueueOk(q, true, true)
  {}

  lemma Relabeled(p: Pool, r: Pool, i: nat)
    requires QueuesOk(p) && r.queues == p.queues && i < |p.queues|
    requires QueueOk(p.queues[i], true, true)
    requires r.idle == p.idle + [i] && Lent(p.running) == Lent(r.running) + multiset{i}
    ensures QueuesOk(r)
  {
    OneLess(Lent(p.running), Lent(r.running), i);
    forall j | 0 <= j < |r.queues| ensures QueueOk(r.queues[j], j in r.idle, j in Lent(r.running)) {
      if j != i { assert QueueOk(p.queues[j], j in p.idle, j in Lent(p.running)); }
    }
  }

  lemma ReturnMatched(p: Pool, h: nat)
    requires Matched(p) && PoolEnabled(p, Return(h)) && AssertsHold(p, Return(h))
    ensures Matched(PoolApply(p, Return(h)))
  {
    var i := p.handles[h].queue;
    LentRemoved(p.running, i);
    OneHandleLess(p.handles, h, Lent(Removed(p.running, i)));
  }

  lemma ReturnHandles(p: Pool, h: nat)
    requires Handed(p) && PoolEnabled(p, Return(h)) && AssertsHold(p, Return(h))
    ensures HandlesOk(p.queues, p.handles[h := Closed])
  {
    var i := p.handles[h].queue;
    OthersKept(p, h, p.queues[i]);
    assert p.queues[i := p.queues[i]] == p.queues;
  }

  lemma OneHandleLess(handles: seq<Handle>, h: nat, lent: multiset<nat>)
    requires h < |handles| && !handles[h].Closed? && Owned(handles) == lent + multiset{handles[h].queue}
    ensures Owned(handles[h := Closed]) == lent
  {
    OwnedPut(handles, h, Closed);
    SameWithout(Owned(handles[h := Closed]), lent, multiset{handles[h].queue});
  }

  lemma ReturnedQueue(p: Pool, h: nat)
    requires PoolInv(p) && PoolEnabled(p, Return(h)) && AssertsHold(p, Return(h))
    ensures p.handles[h].queue < |p.queues| && QueueOk(p.queues[p.handles[h].queue], true, true)
  {
    var i := p.handles[h].queue;
    HandleLent(p, h);
    assert QueueOk(p.queues[i], i in p.idle, i in Lent(p.running));
    GivenBack(p.queues[i], i in p.idle, p.handles[h]);
  }

  lemma ReturnQueues(p: Pool, h: nat)
    requires PoolInv(p) && PoolEnabled(p, Return(h)) && AssertsHold(p, Return(h))
    ensures QueuesOk(PoolApply(p, Return(h)))
  {
    ReturnedQueue(p, h);
    ReturnLent(p, h);
    Relabeled(p, PoolApply(p, Return(h)), p.handles[h].queue);
  }

  lemma ReturnLent(p: Pool, h: nat)
    requires PoolEnabled(p, Return(h)) && AssertsHold(p, Return(h))
    ensures var r, i := PoolApply(p, Return(h)), p.handles[h].queue;
      r.queues == p.queues && r.idle == p.idle + [i] && Lent(p.running) == Lent(r.running) + multiset{i}
  {
    LentRemoved(p.running, p.handles[h].queue);
  }

  lemma ReturnHanded(p: Pool, h: nat)
    requires Handed(p) && PoolEnabled(p, Return(h)) && AssertsHold(p, Return(h))
    ensures Handed(PoolApply(p, Return(h)))
  {
    ReturnPartition(p, h);
    ReturnMatched(p, h);
    ReturnHandles(p, h);
  }

  lemma ReturnKeeps(p: Pool, h: nat)
    requires PoolInv(p) && PoolEnabled(p, Return(h)) && AssertsHold(p, Return(h))
    ensures PoolInv(PoolApply(p, Return(h)))
  {
    ReturnQueues(p, h);
    ReturnHanded(p, h);
  }

  lemma CreateInv(poolSize: nat, batchSize: nat, workers: nat)
    ensures PoolInv(Create(poolSize, batchSize, workers))
  {
    var p := Create(poolSize, batchSize, workers);
    InitInv(batchSize, workers);
    forall i | 0 <= i < |p.queues| ensures QueueOk(p.queues[i], i in p.idle, i in Lent(p.running)) {
      assert p.queues[i] == Init(batchSize, workers);
    }
    CreateHanded(poolSize, batchSize, workers);
  }

  lemma CreateHanded(poolSize: nat, batchSize: nat, workers: nat)
    ensures Handed(Create(poolSize, batchSize, workers))
  {
    NamesAppend(0, poolSize);
    assert seq(poolSize, i => 0 + i) == Create(poolSize, batchSize, workers).idle;
  }

  lemma SameQueues(p: Pool, s: PoolStep)
    requires PoolEnabled(p, s) && AssertsHold(p, s)
    ensures |PoolApply(p, s).queues| == |p.queues|
  {}

  lemma PoolStepKeeps(p: Pool, s: PoolStep)
    requires PoolInv(p) && PoolEnabled(p, s) && AssertsHold(p, s)
    ensures PoolInv(PoolApply(p, s)) && |PoolApply(p, s).queues| == |p.queues|
  {
    SameQueues(p, s);
    match s
    case Internal(i, step) => SteppedKeeps(p, i, step);
    case Preempt(value) => PreemptKeeps(p, value);
    case Take(value, now) => TakeKeeps(p, value, now);
    case AddChecks(h, n) => AddKeepsPool(p, h, n);
    case WaitFor(h) => WaitKeeps(p, h);
    case Return(h) => ReturnKeeps(p, h);
  }

  // ------------------------------------------------------------ whole runs

  // A run is driven by the steps alone; it stops where an assertion fires.
  ghost predicate PoolRun(states: seq<Pool>, steps: seq<PoolStep>) {
    && |states| == |steps| + 1
    && forall i :: 0 <= i < |steps| ==>
         && PoolEnabled(states[i], steps[i])
         && (AssertsHold(states[i], steps[i]) ==> states[i + 1] == PoolApply(states[i], steps[i]))
  }

  lemma {:induction false} PoolReaches(states: seq<Pool>, steps: seq<PoolStep>, n: nat)
    requires PoolRun(states, steps) && n < |states| && PoolInv(states[0]) && |states[0].queues| > 0
    ensures PoolInv(states[n]) && |states[n].queues| == |states[0].queues|
  {
    if n > 0 {
      PoolReaches(states, steps, n - 1);
      AssertsNeverFire(states[n - 1], steps[n - 1]);
      PoolStepKeeps(states[n - 1], steps[n - 1]);
    }
  }

  lemma OnePlace(p: Pool, i: nat)
    requires Partitioned(p) && i < |p.queues|
    ensures multiset(p.idle)[i] + Lent(p.running)[i] == 1
  {
    NamesCount(|p.queues|, i);
    assert (multiset(p.idle) + Lent(p.running))[i] == 1;
  }

  // In every run of a non-empty pool no assertion fires, and in every state
  // each queue is idle or lent out, exactly one of the two and exactly once. It
  // is lent out exactly if it has a handle, and then it has one.
  lemma PoolSafe(poolSize: nat, batchSize: nat, workers: nat,
                 states: seq<Pool>, steps: seq<PoolStep>, n: nat)
    requires PoolRun(states, steps) && poolSize > 0 && n < |states|
    requires states[0] == Create(poolSize, batchSize, workers)
    ensures n < |steps| ==> AssertsHold(states[n], steps[n])
    ensures forall i: nat :: i < poolSize ==> multiset(states[n].idle)[i] + Lent(states[n].running)[i] == 1
    ensures forall i: nat :: Owned(states[n].handles)[i] == Lent(states[n].running)[i]
  {
    CreateInv(poolSize, batchSize, workers);
    PoolReaches(states, steps, n);
    if n < |steps| { AssertsNeverFire(states[n], steps[n]); }
    AllPlaced(states[n]);
  }

  lemma AllPlaced(p: Pool)
    requires Handed(p)
    ensures forall i: nat :: i < |p.queues| ==> multiset(p.idle)[i] + Lent(p.running)[i] == 1
    ensures forall i: nat :: Owned(p.handles)[i] == Lent(p.running)[i]
  {
    forall i: nat | i < |p.queues| ensures multiset(p.idle)[i] + Lent(p.running)[i] == 1 {
      OnePlace(p, i);
    }
  }

  // A request without an idle queue cancels at most one session: the one with
  // the lowest value, the earliest started among those, and only if its value
  // is below the requested one.
  lemma PreemptsWorstOnly(p: Pool, value: int)
    requires PoolEnabled(p, Preempt(value)) && AssertsHold(p, Preempt(value))
    ensures var r := PoolApply(p, Preempt(value)); var worst := p.running[Worst(p.running)];
      && |r.queues| == |p.queues| && r.idle == p.idle && r.running == p.running
      && (forall i :: 0 <= i < |p.queues| ==>
            r.queues[i] == if i == worst.queue && worst.value < value then p.queues[i].(canceled := true)
                           else p.queues[i])
      && forall j :: 0 <= j < |p.running| ==> Worse(worst, p.running[j])
  {
    var w := Worst(p.running);
    assert IsWorst(p.running, w);
  }
}
