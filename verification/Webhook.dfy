/** The webhook delivery engine as a step system (pkg/net/webhookout/service.go, queue.go, delay_heap.go): goroutines
    that create deliveries, workers in the middle of `handleTask`, the delay heap and its scheduler, all interleaved
    at their accesses to the store, the queue, the heap and the counters; only the counters of one HTTP answer are
    counted in the same step as the answer comes. HTTP outcomes, queue failures and changes to targets are arbitrary;
    `newID` gives the number of deliveries made so far. */
module Webhook {
  import opened Delivery
  import opened Wrappers

  /** Where a worker stands in `handleTask`, with its local copies. */
  datatype Pc =
    | Idle
    | Took(id: Id)
    | HasDelivery(id: Id, d: Delivery)
    | HasTarget(id: Id, d: Delivery, t: Target)
    | CountDeath(id: Id)
    | Judged(id: Id, attempt: nat, v: Verdict)
    | Stored(id: Id)
  {
    /** Whether the worker holds the task of delivery `i`; once a final status is stored it holds none. */
    function Holds(i: Id): nat {
      if !Idle? && !CountDeath? && id == i then 1 else 0
    }
  }

  /** `uncounted` goroutines have sent a task to the queue and not yet counted it, `unreported` ones have a task refused
      and not yet counted as dropped. History: `lost` are the tasks refused by the queue, on creation or on the way from
      the heap, and those whose delivery or enabled target a worker did not find; `emptyDeaths` are deliveries buried
      for want of a payload, `replaysRefused` deliveries that `ReplayDelivery` created and could not enqueue. */
  datatype State = State(
    cfg: Config, deliveries: seq<Delivery>, targets: map<TargetId, Target>,
    queue: seq<Id>, capacity: nat, heap: multiset<Id>, flushing: Option<Id>, creating: multiset<Id>,
    workers: seq<Pc>, metrics: Metrics, uncounted: nat, unreported: nat, lost: multiset<Id>, emptyDeaths: nat,
    replaysRefused: nat)

  function Initial(cfg: Config, capacity: nat, workers: nat): State {
    State(cfg, [], map[], [], capacity, multiset{}, None, multiset{}, seq(workers, _ => Idle),
          Metrics(0, 0, 0, 0, 0, 0), 0, 0, multiset{}, 0, 0)
  }

  /** What a worker can do next. */
  datatype Action =
    | TakeTask
    | ReadDelivery
    | ReadTarget
    | BuryEmpty
    | CountEmpty
    | Send(response: Response)
    | Store(nextAt: int)
    | Schedule

  datatype Step =
    | Work(w: nat, action: Action)
    | Create(target: TargetId, payload: string)
    | Enqueue(id: Id)
    | EnqueueFails(id: Id, trigger: bool)
    | CountEnqueued
    | CountDropped
    | SetTargets(targets: map<TargetId, Target>)
    | PopDue(id: Id)
    | Requeue
    | RequeueFails

  predicate CanWork(s: State, pc: Pc, action: Action) {
    match action
    case TakeTask => pc.Idle? && s.queue != []
    case ReadDelivery => pc.Took?
    case ReadTarget => pc.HasDelivery?
    case BuryEmpty => pc.HasTarget? && pc.d.payload == ""
    case CountEmpty => pc.CountDeath?
    case Send(_) => pc.HasTarget? && pc.d.payload != ""
    case Store(_) => pc.Judged?
    case Schedule => pc.Stored?
  }

  predicate Enabled(s: State, step: Step) {
    match step
    case Work(w, action) => w < |s.workers| && CanWork(s, s.workers[w], action)
    case Create(_, _) => true
    case Enqueue(id) => id in s.creating && |s.queue| < s.capacity
    case EnqueueFails(id, _) => id in s.creating
    case CountEnqueued => s.uncounted > 0
    case CountDropped => s.unreported > 0
    case SetTargets(_) => true
    case PopDue(id) => s.flushing.None? && id in s.heap
    case Requeue => s.flushing.Some? && |s.queue| < s.capacity
    case RequeueFails => s.flushing.Some?
  }

  function Patched(ds: seq<Delivery>, id: Id, p: Patch): seq<Delivery> {
    if id < |ds| then ds[id := Apply(ds[id], p)] else ds
  }

  predicate HasEnabledTarget(s: State, d: Delivery) {
    d.target in s.targets && s.targets[d.target].enabled
  }

  /** The worker drops its task, since the delivery or an enabled target is not there. */
  predicate Loses(s: State, pc: Pc, action: Action) {
    (action.ReadDelivery? && pc.Took? && pc.id >= |s.deliveries|)
    || (action.ReadTarget? && pc.HasDelivery? && !HasEnabledTarget(s, pc.d))
  }

  /** Where the worker gets to. */
  function NextPc(s: State, pc: Pc, action: Action): Pc
    requires CanWork(s, pc, action)
  {
    match action
    case TakeTask => Took(s.queue[0])
    case ReadDelivery => if pc.id < |s.deliveries| then HasDelivery(pc.id, s.deliveries[pc.id]) else Idle
    case ReadTarget =>
      if HasEnabledTarget(s, pc.d) then HasTarget(pc.id, pc.d, s.targets[pc.d.target]) else Idle
    case BuryEmpty => CountDeath(pc.id)
    case CountEmpty => Idle
    case Send(response) => Judged(pc.id, pc.d.attempt + 1, Judge(s.cfg, pc.t, pc.d.attempt + 1, response))
    case Store(_) => if pc.v.Retry? then Stored(pc.id) else Idle
    case Schedule => Idle
  }

  /** What the worker changes around it. */
  function Effect(s: State, pc: Pc, action: Action): State
    requires CanWork(s, pc, action)
  {
    match action
    case TakeTask => s.(queue := s.queue[1..])
    case BuryEmpty =>
      s.(deliveries := Patched(s.deliveries, pc.id, Patch(Some(pc.d.attempt + 1), Some(Dead), None)),
         emptyDeaths := s.emptyDeaths + 1)
    case CountEmpty => s.(metrics := s.metrics.(dead := s.metrics.dead + 1))
    case Send(response) => s.(metrics := Count(s.metrics, Judge(s.cfg, pc.t, pc.d.attempt + 1, response)))
    case Store(at) =>
      var p := Patch(Some(pc.attempt), Some(StatusOf(pc.v)), if pc.v.Retry? then Some(at) else None);
      s.(deliveries := Patched(s.deliveries, pc.id, p))
    case Schedule => s.(heap := s.heap + multiset{pc.id})
    case _ => if Loses(s, pc, action) then s.(lost := s.lost + multiset{pc.id}) else s
  }

  function Do(s: State, step: Step): State
    requires Enabled(s, step)
  {
    match step
    case Work(w, action) =>
      var pc := s.workers[w];
      Effect(s, pc, action).(workers := s.workers[w := NextPc(s, pc, action)])
    case Create(target, payload) =>
      s.(deliveries := s.deliveries + [Delivery(target, payload, 0, Pending, None)],
         creating := s.creating + multiset{|s.deliveries|})
    case Enqueue(id) =>
      s.(creating := s.creating - multiset{id}, queue := s.queue + [id], uncounted := s.uncounted + 1)
    case EnqueueFails(id, trigger) =>
      s.(creating := s.creating - multiset{id}, lost := s.lost + multiset{id},
         unreported := if trigger then s.unreported + 1 else s.unreported,
         replaysRefused := if trigger then s.replaysRefused else s.replaysRefused + 1)
    case CountEnqueued =>
      s.(metrics := s.metrics.(enqueued := s.metrics.enqueued + 1), uncounted := s.uncounted - 1)
    case CountDropped =>
      s.(metrics := s.metrics.(dropped := s.metrics.dropped + 1), unreported := s.unreported - 1)
    case SetTargets(targets) => s.(targets := targets)
    case PopDue(id) => s.(heap := s.heap - multiset{id}, flushing := Some(id))
    case Requeue => s.(queue := s.queue + [s.flushing.value], flushing := None)
    case RequeueFails => s.(lost := s.lost + multiset{s.flushing.value}, flushing := None)
  }

  ghost predicate IsRun(s: State, steps: seq<Step>, s': State)
    decreases |steps|
  {
    if steps == [] then s == s' else Enabled(s, steps[0]) && IsRun(Do(s, steps[0]), steps[1..], s')
  }

  ghost predicate Reachable(s: State) {
    exists cfg, capacity: nat, workers: nat, steps: seq<Step> :: IsRun(Initial(cfg, capacity, workers), steps, s)
  }

  // ---------- tasks ----------

  function InHands(workers: seq<Pc>, id: Id): nat {
    if workers == [] then 0 else InHands(workers[..|workers| - 1], id) + workers[|workers| - 1].Holds(id)
  }

  function Loose(s: State, id: Id): nat {
    multiset(s.queue)[id] + s.heap[id] + (if s.flushing == Some(id) then 1 else 0) + s.creating[id]
  }

  /** How many tasks there are for a delivery, in the queue, the heap and everybody's hands. */
  function Tasks(s: State, id: Id): nat {
    Loose(s, id) + InHands(s.workers, id)
  }

  /** A worker's local copies are still what the store holds. */
  ghost predicate CopyFresh(ds: seq<Delivery>, pc: Pc) {
    match pc
    case HasDelivery(id, d) => id < |ds| && ds[id] == d
    case HasTarget(id, d, _) => id < |ds| && ds[id] == d
    case Judged(id, attempt, _) => id < |ds| && ds[id].attempt + 1 == attempt
    case _ => true
  }

  /** Each delivery has at most one task, and none once its status is final. */
  ghost predicate Safe(s: State) {
    && (forall id: Id :: Tasks(s, id) <= 1)
    && (forall id: Id :: Tasks(s, id) > 0 ==> id < |s.deliveries| && !s.deliveries[id].status.Final())
    && (forall w :: 0 <= w < |s.workers| ==> CopyFresh(s.deliveries, s.workers[w]))
  }

  /** A final status is stored: the task ends there. */
  predicate Settles(pc: Pc, action: Action) {
    (action.BuryEmpty? && pc.HasTarget?) || (action.Store? && pc.Judged? && !pc.v.Retry?)
  }

  /** The tasks of a delivery that a step settles. */
  function Settled(s: State, step: Step, id: Id): nat
    requires Enabled(s, step)
  {
    if step.Work? && Settles(s.workers[step.w], step.action) && s.workers[step.w].id == id then 1 else 0
  }

  /** The tasks of a delivery that a step makes. */
  function Made(s: State, step: Step, id: Id): nat {
    if step.Create? && id == |s.deliveries| then 1 else 0
  }

  /** The tasks there are for a delivery, and those lost. */
  function Tokens(s: State, id: Id): nat {
    Tasks(s, id) + s.lost[id]
  }

  /** A worker's step moves its task, takes one from the queue, gives one to the heap, loses one, or ends one. */
  lemma WorkMovesTasks(s: State, w: nat, action: Action, id: Id)
    requires Enabled(s, Work(w, action))
    ensures Tasks(Do(s, Work(w, action)), id) <= Tasks(s, id)
    ensures Tokens(Do(s, Work(w, action)), id) + Settled(s, Work(w, action), id) == Tokens(s, id)
    ensures Settled(s, Work(w, action), id) == 1 ==> Tasks(Do(s, Work(w, action)), id) == Tasks(s, id) - 1
  {
    hide InHands, Effect, NextPc, Pc.Holds;
    var pc := s.workers[w];
    InHandsUpdate(s.workers, w, NextPc(s, pc, action), id);
    EffectMovesTasks(s, pc, action, id);
    HandsMoveTasks(s, pc, action, id);
  }

  /** What creating, enqueueing and flushing do to the tasks in nobody's hand. */
  lemma OthersMoveTasks(s: State, step: Step, id: Id)
    requires Enabled(s, step) && !step.Work?
    ensures Do(s, step).workers == s.workers
    ensures Loose(Do(s, step), id) + Do(s, step).lost[id] == Loose(s, id) + s.lost[id] + Made(s, step, id)
    ensures s.lost[id] <= Do(s, step).lost[id]
  {
    hide NextPc, Effect;
    if step.Enqueue? || step.Requeue? {
      PushesMoveTasks(s, step, id);
    } else if step.EnqueueFails? || step.RequeueFails? {
      FailuresLoseTasks(s, step, id);
    } else {
      match step
      case Create(_, _) => BagCounts(s.creating, |s.deliveries|, id);
      case PopDue(x) => BagCounts(s.heap, x, id);
      case _ =>
    }
  }

  /** A step moves a task, ends it, loses it, or makes one for the delivery it creates. */
  lemma StepMovesTasks(s: State, step: Step, id: Id)
    requires Enabled(s, step)
    ensures Tasks(Do(s, step), id) <= Tasks(s, id) + Made(s, step, id)
    ensures Tokens(Do(s, step), id) + Settled(s, step, id) == Tokens(s, id) + Made(s, step, id)
  {
    hide InHands, Loose, Do;
    if step.Work? {
      WorkMovesTasks(s, step.w, step.action, id);
    } else {
      OthersMoveTasks(s, step, id);
    }
  }

  /** Only the holder of a delivery's task changes the delivery. */
  lemma OnlyTheHolderWrites(s: State, w: nat, action: Action, id: Id)
    requires Safe(s) && Enabled(s, Work(w, action)) && id < |s.deliveries|
    ensures var ds := Do(s, Work(w, action)).deliveries;
      |ds| == |s.deliveries| && (ds[id] != s.deliveries[id] ==> s.workers[w].Holds(id) == 1)
  {
  }

  lemma WorkKeepsSafe(s: State, w: nat, action: Action)
    requires Safe(s) && Enabled(s, Work(w, action))
    ensures Safe(Do(s, Work(w, action)))
  {
    var pc, s' := s.workers[w], Do(s, Work(w, action));
    forall id: Id
      ensures Tasks(s', id) <= 1
      ensures Tasks(s', id) > 0 ==> id < |s'.deliveries| && !s'.deliveries[id].status.Final()
    {
      WorkMovesTasks(s, w, action, id);
      if Tasks(s, id) > 0 {
        OnlyTheHolderWrites(s, w, action, id);
      }
    }
    forall v | 0 <= v < |s.workers|
      ensures CopyFresh(s'.deliveries, s'.workers[v])
    {
      assert CopyFresh(s.deliveries, s.workers[v]);
      if v != w && !s.workers[v].Idle? && !s.workers[v].CountDeath? {
        TwoHands(s.workers, w, v, s.workers[v].id);
        InHandsUpdate(s.workers, v, Idle, s.workers[v].id);
        assert Tasks(s, s.workers[v].id) > 0;
        OnlyTheHolderWrites(s, w, action, s.workers[v].id);
      }
    }
  }

  lemma StepKeepsSafe(s: State, step: Step)
    requires Safe(s) && Enabled(s, step)
    ensures Safe(Do(s, step))
  {
    hide InHands, Loose, NextPc, Effect;
    if step.Work? {
      WorkKeepsSafe(s, step.w, step.action);
    } else {
      forall id: Id
        ensures Tasks(Do(s, step), id) <= Tasks(s, id) + Made(s, step, id)
      {
        StepMovesTasks(s, step, id);
      }
      hide Tasks;
      assert forall w :: 0 <= w < |s.workers| ==> CopyFresh(s.deliveries, s.workers[w]);
    }
  }

  lemma {:induction false} RunKeepsSafe(s: State, steps: seq<Step>, s': State)
    requires Safe(s) && IsRun(s, steps, s')
    ensures Safe(s')
    decreases |steps|
  {
    if steps == [] {
    } else {
      StepKeepsSafe(s, steps[0]);
      RunKeepsSafe(Do(s, steps[0]), steps[1..], s');
    }
  }

  lemma InitiallySafe(cfg: Config, capacity: nat, workers: nat)
    ensures Safe(Initial(cfg, capacity, workers))
  {
    forall id: Id
      ensures Tasks(Initial(cfg, capacity, workers), id) == 0
    {
      NobodyHolds(workers, id);
    }
  }

  lemma ReachableIsSafe(s: State)
    requires Reachable(s)
    ensures Safe(s)
  {
    var cfg, capacity: nat, workers: nat, steps: seq<Step> :| IsRun(Initial(cfg, capacity, workers), steps, s);
    InitiallySafe(cfg, capacity, workers);
    RunKeepsSafe(Initial(cfg, capacity, workers), steps, s);
  }

  /** Token safety: in every reachable state a delivery has at most one task across queue, heap and all hands, and has
      one only while it is pending or retrying. */
  lemma AtMostOneTask(s: State, id: Id)
    requires Reachable(s)
    ensures Tasks(s, id) <= 1
    ensures Tasks(s, id) == 1 ==> id < |s.deliveries| && s.deliveries[id].status in {Pending, Retrying}
  {
    ReachableIsSafe(s);
  }

  // ---------- conservation of tasks ----------

  predicate Unfinished(s: State, id: Id) {
    id < |s.deliveries| && !s.deliveries[id].status.Final()
  }

  /** Every unfinished delivery has its one task, or has lost it. */
  ghost predicate Conserved(s: State) {
    forall id: Id :: Tokens(s, id) == if Unfinished(s, id) then 1 else 0
  }

  /** A delivery becomes finished exactly when its task is settled, and unfinished when it is created. */
  lemma StatusMoves(s: State, step: Step, id: Id)
    requires Safe(s) && Enabled(s, step)
    ensures Settled(s, step, id) == 1 ==> Unfinished(s, id) && !Unfinished(Do(s, step), id)
    ensures Made(s, step, id) == 1 ==> !Unfinished(s, id) && Unfinished(Do(s, step), id)
    ensures Settled(s, step, id) == 0 && Made(s, step, id) == 0 ==> (Unfinished(Do(s, step), id) <==> Unfinished(s, id))
  {
    if step.Work? {
      WorkMovesStatus(s, step.w, step.action, id);
    } else {
      hide Safe, NextPc, Effect;
    }
  }

  lemma WorkMovesStatus(s: State, w: nat, action: Action, id: Id)
    requires Safe(s) && Enabled(s, Work(w, action))
    ensures var step := Work(w, action);
            && (Settled(s, step, id) == 1 ==> Unfinished(s, id) && !Unfinished(Do(s, step), id))
            && (Settled(s, step, id) == 0 ==> (Unfinished(Do(s, step), id) <==> Unfinished(s, id)))
  {
    hide Tasks, Judge, Count, Loses;
    var pc := s.workers[w];
    assert CopyFresh(s.deliveries, pc);
    if pc.Holds(id) == 1 {
      InHandsUpdate(s.workers, w, Idle, id);
      HandIsTask(s, id);
    }
  }

  lemma HandIsTask(s: State, id: Id)
    ensures Tasks(s, id) >= InHands(s.workers, id)
  {
  }

  lemma StepConserves(s: State, step: Step)
    requires Safe(s) && Conserved(s) && Enabled(s, step)
    ensures Conserved(Do(s, step))
  {
    hide Tokens, Unfinished, Do, Safe, Settled, Made, Enabled;
    forall id: Id
      ensures Tokens(Do(s, step), id) == if Unfinished(Do(s, step), id) then 1 else 0
    {
      StepMovesTasks(s, step, id);
      StatusMoves(s, step, id);
      AtMostOneMoves(s, step, id);
    }
  }

  lemma AtMostOneMoves(s: State, step: Step, id: Id)
    requires Enabled(s, step)
    ensures Settled(s, step, id) + Made(s, step, id) <= 1
  {
  }

  lemma {:induction false} RunConserves(s: State, steps: seq<Step>, s': State)
    requires Safe(s) && Conserved(s) && IsRun(s, steps, s')
    ensures Conserved(s')
    decreases |steps|
  {
    hide Safe, Conserved, Do, Enabled;
    if steps == [] {
    } else {
      StepKeepsSafe(s, steps[0]);
      StepConserves(s, steps[0]);
      RunConserves(Do(s, steps[0]), steps[1..], s');
    }
  }

  /** In every reachable state an unfinished delivery has a task if and only if none was lost: none was refused by the
      queue, lost on the way from the heap, or dropped for want of an enabled target. A finished one has none. */
  lemma HasTaskExactly(s: State, id: Id)
    requires Reachable(s) && id < |s.deliveries|
    ensures !s.deliveries[id].status.Final() ==> (Tasks(s, id) == 1 <==> id !in s.lost)
    ensures s.deliveries[id].status.Final() ==> Tasks(s, id) == 0 && id !in s.lost
  {
    var cfg, capacity: nat, workers: nat, steps: seq<Step> :| IsRun(Initial(cfg, capacity, workers), steps, s);
    InitiallySafe(cfg, capacity, workers);
    forall i: Id
      ensures Tokens(Initial(cfg, capacity, workers), i) == 0
    {
      NobodyHolds(workers, i);
    }
    RunConserves(Initial(cfg, capacity, workers), steps, s);
    assert Tokens(s, id) == if Unfinished(s, id) then 1 else 0;
  }

  /** No two workers are ever busy with the same delivery. */
  lemma NeverHandledTwice(s: State, id: Id, w: nat, w': nat)
    requires Reachable(s) && w < w' < |s.workers|
    ensures !(s.workers[w].Holds(id) == 1 && s.workers[w'].Holds(id) == 1)
  {
    ReachableIsSafe(s);
    TwoHands(s.workers, w, w', id);
    HandIsTask(s, id);
    assert Tasks(s, id) <= 1;
  }

  /** A final delivery never changes again. */
  lemma FinalStays(s: State, step: Step, id: Id)
    requires Safe(s) && Enabled(s, step) && id < |s.deliveries| && s.deliveries[id].status.Final()
    ensures id < |Do(s, step).deliveries| && Do(s, step).deliveries[id] == s.deliveries[id]
  {
    if step.Work? {
      OnlyTheHolderWrites(s, step.w, step.action, id);
      InHandsUpdate(s.workers, step.w, Idle, id);
      assert Tasks(s, id) == 0;
    }
  }

  lemma {:induction false} FinalIsForever(s: State, steps: seq<Step>, s': State, id: Id)
    requires Safe(s) && IsRun(s, steps, s') && id < |s.deliveries| && s.deliveries[id].status.Final()
    ensures id < |s'.deliveries| && s'.deliveries[id] == s.deliveries[id]
    decreases |steps|
  {
    if steps == [] {
    } else {
      FinalStays(s, steps[0], id);
      StepKeepsSafe(s, steps[0]);
      FinalIsForever(Do(s, steps[0]), steps[1..], s', id);
    }
  }

  // ---------- accounting ----------

  function Sum<T(!new)>(s: seq<T>, f: T -> nat): nat {
    if s == [] then 0 else Sum(s[..|s| - 1], f) + f(s[|s| - 1])
  }

  function One(b: bool): nat {
    if b then 1 else 0
  }

  const AttemptOf := (d: Delivery) => d.attempt
  const Succeeded := (d: Delivery) => One(d.status == Success)
  const Buried := (d: Delivery) => One(d.status == Dead)
  const Abandoned := (d: Delivery) => One(d.status == Failed)
  const InFlight := (pc: Pc) => One(pc.Judged?)
  const ToSucceed := (pc: Pc) => One(pc.Judged? && pc.v == Deliver)
  const ToBury := (pc: Pc) => One(pc.Judged? && pc.v == Bury)
  const ToAbandon := (pc: Pc) => One(pc.Judged? && pc.v == GiveUp)
  const ToCount := (pc: Pc) => One(pc.CountDeath?)

  /** The counters against the store, with what workers in mid-task have counted but not stored, or stored but not
      counted. */
  ghost predicate Balanced(s: State) {
    && Sum(s.deliveries, AttemptOf) + Sum(s.workers, InFlight)
       == s.metrics.sentOK + s.metrics.sentFail + s.metrics.retried + s.emptyDeaths
    && Sum(s.deliveries, Succeeded) + Sum(s.workers, ToSucceed) == s.metrics.sentOK
    && Sum(s.deliveries, Buried) + Sum(s.workers, ToBury) == s.metrics.dead + Sum(s.workers, ToCount)
    && Sum(s.deliveries, Abandoned) + Sum(s.workers, ToAbandon) + Sum(s.deliveries, Buried) + Sum(s.workers, ToBury)
       == s.metrics.sentFail + s.emptyDeaths
  }

  lemma BuryKeepsBalanced(s: State, w: nat)
    requires Safe(s) && Balanced(s) && Enabled(s, Work(w, BuryEmpty))
    ensures Balanced(Do(s, Work(w, BuryEmpty)))
  {
    hide Sum, Safe, Judge;
    AboutToStore(s, w, BuryEmpty);
    var pc := s.workers[w];
    WorkersAfter(s, w, CountDeath(pc.id));
    DeliveriesAfter(s.deliveries, pc.id, pc.d.(attempt := pc.d.attempt + 1, status := Dead));
  }

  lemma StoreKeepsBalanced(s: State, w: nat, nextAt: int)
    requires Safe(s) && Balanced(s) && Enabled(s, Work(w, Store(nextAt)))
    ensures Balanced(Do(s, Work(w, Store(nextAt))))
  {
    hide Sum, Safe, Judge;
    AboutToStore(s, w, Store(nextAt));
    var pc := s.workers[w];
    var d := s.deliveries[pc.id];
    WorkersAfter(s, w, NextPc(s, pc, Store(nextAt)));
    DeliveriesAfter(s.deliveries, pc.id, d.(attempt := pc.attempt, status := StatusOf(pc.v),
                                            nextAt := if pc.v.Retry? then Some(nextAt) else d.nextAt));
  }

  lemma WorkKeepsBalanced(s: State, w: nat, action: Action)
    requires Safe(s) && Balanced(s) && Enabled(s, Work(w, action))
    ensures Balanced(Do(s, Work(w, action)))
  {
    hide Sum, Judge, Safe, Patched;
    if action.BuryEmpty? {
      BuryKeepsBalanced(s, w);
    } else if action.Store? {
      StoreKeepsBalanced(s, w, action.nextAt);
    } else {
      WorkersAfter(s, w, NextPc(s, s.workers[w], action));
    }
  }

  lemma StepKeepsBalanced(s: State, step: Step)
    requires Safe(s) && Balanced(s) && Enabled(s, step)
    ensures Balanced(Do(s, step))
  {
    match step
    case Work(w, action) => WorkKeepsBalanced(s, w, action);
    case Create(target, payload) =>
      var d := Delivery(target, payload, 0, Pending, None);
      SumAppend(s.deliveries, AttemptOf, d);
      SumAppend(s.deliveries, Succeeded, d);
      SumAppend(s.deliveries, Buried, d);
      SumAppend(s.deliveries, Abandoned, d);
    case _ =>
  }

  lemma {:induction false} RunKeepsBalanced(s: State, steps: seq<Step>, s': State)
    requires Safe(s) && Balanced(s) && IsRun(s, steps, s')
    ensures Balanced(s')
    decreases |steps|
  {
    if steps == [] {
    } else {
      StepKeepsBalanced(s, steps[0]);
      StepKeepsSafe(s, steps[0]);
      RunKeepsBalanced(Do(s, steps[0]), steps[1..], s');
    }
  }

  predicate AtRest(s: State) {
    forall pc :: pc in s.workers ==> pc.Idle?
  }

  /** Delivery accounting: whenever no worker is in mid-task, the counters are exactly what the store shows. */
  lemma CountersMatchTheStore(s: State)
    requires Reachable(s) && AtRest(s)
    ensures s.metrics.sentOK == Sum(s.deliveries, Succeeded)
    ensures s.metrics.dead == Sum(s.deliveries, Buried)
    ensures s.metrics.sentFail + s.emptyDeaths == Sum(s.deliveries, Abandoned) + Sum(s.deliveries, Buried)
    ensures Sum(s.deliveries, AttemptOf) == s.metrics.sentOK + s.metrics.sentFail + s.metrics.retried + s.emptyDeaths
  {
    var cfg, capacity: nat, workers: nat, steps: seq<Step> :| IsRun(Initial(cfg, capacity, workers), steps, s);
    var s0 := Initial(cfg, capacity, workers);
    InitiallySafe(cfg, capacity, workers);
    NothingInFlight(s0.workers);
    RunKeepsBalanced(s0, steps, s);
    NothingInFlight(s.workers);
  }

  /** Every delivery made is being enqueued, was enqueued, or was refused. */
  predicate Entered(s: State) {
    (s.metrics.enqueued + s.uncounted) + (s.metrics.dropped + s.unreported) + s.replaysRefused + |s.creating|
    == |s.deliveries|
  }

  lemma StepKeepsEntered(s: State, step: Step)
    requires Entered(s) && Enabled(s, step)
    ensures Entered(Do(s, step))
  {
    if step.Work? {
      WorkKeepsEntered(s, step.w, step.action);
    } else {
      hide NextPc, Effect;
    }
  }

  lemma WorkKeepsEntered(s: State, w: nat, action: Action)
    requires Enabled(s, Work(w, action))
    ensures var s' := Do(s, Work(w, action));
            && s'.metrics.enqueued == s.metrics.enqueued && s'.metrics.dropped == s.metrics.dropped
            && s'.uncounted == s.uncounted && s'.unreported == s.unreported && s'.creating == s.creating
            && s'.replaysRefused == s.replaysRefused && |s'.deliveries| == |s.deliveries|
  {
    hide Judge, NextPc;
  }

  lemma {:induction false} RunKeepsEntered(s: State, steps: seq<Step>, s': State)
    requires Entered(s) && IsRun(s, steps, s')
    ensures Entered(s')
    decreases |steps|
  {
    hide Entered, Enabled, Do;
    if steps == [] {
    } else {
      StepKeepsEntered(s, steps[0]);
      RunKeepsEntered(Do(s, steps[0]), steps[1..], s');
    }
  }

  /** The counters of the queue, in every reachable state: with the sends and refusals about to be counted, enqueued and
      dropped are all deliveries but those being enqueued and the refused replays, which no counter shows. */
  lemma EnqueuedAndDropped(s: State)
    requires Reachable(s)
    ensures s.metrics.enqueued + s.uncounted + s.metrics.dropped + s.unreported
         == |s.deliveries| - |s.creating| - s.replaysRefused
    ensures s.uncounted == 0 && s.unreported == 0 ==>
      s.metrics.enqueued + s.metrics.dropped == |s.deliveries| - |s.creating| - s.replaysRefused
  {
    var cfg, capacity: nat, workers: nat, steps: seq<Step> :| IsRun(Initial(cfg, capacity, workers), steps, s);
    RunKeepsEntered(Initial(cfg, capacity, workers), steps, s);
  }

  // ---------- retry times that stay ----------

  /** A retry time is set by every retry and never cleared: a delivery has one exactly if an attempt was retried. */
  predicate TimeTells(d: Delivery) {
    d.nextAt.Some? <==> d.attempt > (if d.status.Final() then 1 else 0)
  }

  ghost predicate TimesTell(s: State) {
    forall id :: 0 <= id < |s.deliveries| ==> TimeTells(s.deliveries[id])
  }

  lemma WorkKeepsTimes(s: State, w: nat, action: Action)
    requires Safe(s) && TimesTell(s) && Enabled(s, Work(w, action))
    ensures TimesTell(Do(s, Work(w, action)))
  {
    hide Judge, Count, Safe;
    if action.BuryEmpty? || action.Store? {
      AboutToStore(s, w, action);
      assert TimeTells(s.deliveries[s.workers[w].id]);
    }
  }

  lemma {:induction false} RunKeepsTimes(s: State, steps: seq<Step>, s': State)
    requires Safe(s) && TimesTell(s) && IsRun(s, steps, s')
    ensures TimesTell(s')
    decreases |steps|
  {
    if steps == [] {
    } else {
      var step := steps[0];
      StepKeepsSafe(s, step);
      if step.Work? {
        WorkKeepsTimes(s, step.w, step.action);
      }
      RunKeepsTimes(Do(s, step), steps[1..], s');
    }
  }

  /** In every reachable state a delivery in a final status still has a retry time if and only if it took more than one
      attempt: the absent time of the last patch does not clear it. */
  lemma FinalKeepsTimeExactly(s: State, id: Id)
    requires Reachable(s) && id < |s.deliveries| && s.deliveries[id].status.Final()
    ensures s.deliveries[id].nextAt.Some? <==> s.deliveries[id].attempt > 1
  {
    var cfg, capacity: nat, workers: nat, steps: seq<Step> :| IsRun(Initial(cfg, capacity, workers), steps, s);
    InitiallySafe(cfg, capacity, workers);
    RunKeepsTimes(Initial(cfg, capacity, workers), steps, s);
    assert TimeTells(s.deliveries[id]);
  }

  /** A delivery that is answered 503, is retried and then answered 200: a reachable success with a time for its next
      attempt. */
  lemma SuccessWithNextAttempt(cfg: Config, t: Target, at: int) returns (s: State)
    requires t.enabled && MaxRetries(cfg, t) == 3
    ensures Reachable(s) && s.deliveries == [Delivery(0, "{}", 2, Success, Some(at))]
  {
    hide Comes, Do, TaskDone;
    var taken := FirstTaken(cfg, t);
    var failed := Attempted(taken, Response(503, false), at);
    assert failed.deliveries == [Delivery(0, "{}", 1, Retrying, Some(at))];
    var retaken := Retaken(failed);
    s := Attempted(retaken, Response(200, false), 0);
    ComesOn(Initial(cfg, 1, 1), taken, failed);
    ComesOn(Initial(cfg, 1, 1), failed, retaken);
    ComesOn(Initial(cfg, 1, 1), retaken, s);
    ComesIsReachable(cfg, 1, 1, s);
  }

  /** Some run leads from one state to the other. */
  ghost predicate Comes(s: State, s': State) {
    exists steps :: IsRun(s, steps, s')
  }

  lemma ComesIsReachable(cfg: Config, capacity: nat, workers: nat, s: State)
    requires Comes(Initial(cfg, capacity, workers), s)
    ensures Reachable(s)
  {
    var steps :| IsRun(Initial(cfg, capacity, workers), steps, s);
  }

  /** The first delivery is created, put in the queue and taken by the only worker. */
  lemma FirstTaken(cfg: Config, t: Target) returns (s: State)
    ensures Comes(Initial(cfg, 1, 1), s)
    ensures s == Initial(cfg, 1, 1).(deliveries := [Delivery(0, "{}", 0, Pending, None)], targets := map[0 := t],
                                     workers := [Took(0)], uncounted := 1)
  {
    hide Comes;
    var made := FirstMade(cfg, t);
    var queued := Do(made, Enqueue(0));
    assert made.creating - multiset{0} == multiset{};
    s := Do(queued, Work(0, TakeTask));
    assert s.queue == [] && s.workers == [Took(0)];
    hide Do;
    StepComes(made, Enqueue(0));
    StepComes(queued, Work(0, TakeTask));
    ComesOn(Initial(cfg, 1, 1), made, queued);
    ComesOn(Initial(cfg, 1, 1), queued, s);
  }

  lemma FirstMade(cfg: Config, t: Target) returns (s: State)
    ensures Comes(Initial(cfg, 1, 1), s)
    ensures s == Initial(cfg, 1, 1).(deliveries := [Delivery(0, "{}", 0, Pending, None)], targets := map[0 := t],
                                     creating := multiset{0})
  {
    hide Comes;
    var created := Do(Initial(cfg, 1, 1), Create(0, "{}"));
    assert multiset{} + multiset{0} == multiset{0} && [] + created.deliveries == created.deliveries;
    s := Do(created, SetTargets(map[0 := t]));
    hide Do;
    StepComes(Initial(cfg, 1, 1), Create(0, "{}"));
    StepComes(created, SetTargets(map[0 := t]));
    ComesOn(Initial(cfg, 1, 1), created, s);
  }

  /** The only worker goes through with the only task. */
  lemma Attempted(s: State, response: Response, nextAt: int) returns (s': State)
    requires s.workers == [Took(0)] && |s.deliveries| == 1 && HasEnabledTarget(s, s.deliveries[0])
    requires s.deliveries[0].payload != ""
    ensures var d := s.deliveries[0];
            var v := Judge(s.cfg, s.targets[d.target], d.attempt + 1, response);
            && Comes(s, s')
            && s' == s.(workers := [Idle], metrics := s'.metrics, deliveries := s'.deliveries, heap := s'.heap)
            && s'.deliveries == [d.(attempt := d.attempt + 1, status := StatusOf(v),
                                    nextAt := if v.Retry? then Some(nextAt) else d.nextAt)]
            && s'.heap == if v.Retry? then s.heap + multiset{0} else s.heap
  {
    hide Judge, Count, TaskSteps;
    s' := TaskDone(s, 0, 0, response, nextAt);
    assert s'.workers == [Idle];
    assert Comes(s, s') by {
      TaskRuns(s, 0, 0, response, nextAt);
    }
  }

  /** Its task comes back from the heap. */
  lemma Retaken(s: State) returns (s': State)
    requires s.workers == [Idle] && s.heap == multiset{0} && s.queue == [] && s.flushing == None && s.capacity == 1
    ensures Comes(s, s') && s' == s.(heap := multiset{}, workers := [Took(0)])
  {
    var s1 := Do(s, PopDue(0));
    var s2 := Do(s1, Requeue);
    s' := Do(s2, Work(0, TakeTask));
    assert s'.queue == [] && s'.workers == [Took(0)] && s'.heap == multiset{};
    hide Do;
    StepComes(s, PopDue(0));
    StepComes(s1, Requeue);
    StepComes(s2, Work(0, TakeTask));
    ComesOn(s, s1, s2);
    ComesOn(s, s2, s');
  }

  lemma StepComes(s: State, step: Step)
    requires Enabled(s, step)
    ensures Comes(s, Do(s, step))
  {
    EmptyRun(Do(s, step));
    RunStep(s, step, [], Do(s, step));
  }

  lemma ComesOn(s: State, t: State, u: State)
    requires Comes(s, t) && Comes(t, u)
    ensures Comes(s, u)
  {
    var a :| IsRun(s, a, t);
    var b :| IsRun(t, b, u);
    RunsConcat(s, a, t, b, u);
  }

  lemma {:induction false} RunsConcat(s: State, a: seq<Step>, t: State, b: seq<Step>, u: State)
    requires IsRun(s, a, t) && IsRun(t, b, u)
    ensures IsRun(s, a + b, u)
    decreases |a|
  {
    hide Do, Enabled;
    if a == [] {
      assert a + b == b;
    } else {
      assert (a + b)[0] == a[0] && (a + b)[1..] == a[1..] + b;
      RunsConcat(Do(s, a[0]), a[1..], t, b, u);
    }
  }

  // ---------- the bound on attempts ----------

  predicate Limited(cfg: Config, targets: map<TargetId, Target>, most: int) {
    forall t :: t in targets ==> MaxRetries(cfg, targets[t]) <= most
  }

  function AtLeastOne(most: int): int {
    if most < 1 then 1 else most
  }

  predicate WithinLimit(d: Delivery, most: int) {
    match d.status
    case Pending => d.attempt == 0
    case Retrying => d.attempt < most
    case _ => d.attempt <= AtLeastOne(most)
  }

  ghost predicate Bounded(s: State, most: int) {
    && Limited(s.cfg, s.targets, most)
    && (forall d :: d in s.deliveries ==> WithinLimit(d, most))
    && (forall pc :: pc in s.workers ==>
          (pc.HasTarget? ==> MaxRetries(s.cfg, pc.t) <= most) && (pc.Judged? && pc.v == Retry ==> pc.attempt < most))
  }

  lemma WorkKeepsBounded(s: State, w: nat, action: Action, most: int)
    requires Safe(s) && Bounded(s, most) && Enabled(s, Work(w, action))
    ensures Bounded(Do(s, Work(w, action)), most)
  {
    var pc, s' := s.workers[w], Do(s, Work(w, action));
    assert CopyFresh(s.deliveries, pc) && pc in s.workers;
    if action.Send? {
      VerdictExactly(s.cfg, pc.t, pc.d.attempt + 1, action.response);
    }
    if action.BuryEmpty? || action.Store? {
      InHandsUpdate(s.workers, w, Idle, pc.id);
      assert Tasks(s, pc.id) > 0 && s.deliveries[pc.id] in s.deliveries;
    }
    forall d | d in s'.deliveries
      ensures WithinLimit(d, most)
    {
      assert d in s.deliveries || d == s'.deliveries[pc.id];
    }
  }

  lemma {:induction false} RunKeepsBounded(s: State, steps: seq<Step>, s': State, most: int)
    requires Safe(s) && Bounded(s, most) && IsRun(s, steps, s')
    requires forall i :: 0 <= i < |steps| && steps[i].SetTargets? ==> Limited(s.cfg, steps[i].targets, most)
    ensures Bounded(s', most)
    decreases |steps|
  {
    if steps == [] {
    } else {
      var step, rest := steps[0], steps[1..];
      if step.Work? {
        WorkKeepsBounded(s, step.w, step.action, most);
      }
      StepKeepsSafe(s, step);
      assert forall i :: 0 <= i < |rest| ==> rest[i] == steps[i + 1];
      RunKeepsBounded(Do(s, step), rest, s', most);
    }
  }

  /** If no target ever allows more than `most` retries, no delivery is ever attempted more than that, or once if that
      is less than one. */
  lemma AttemptsAreBounded(cfg: Config, capacity: nat, workers: nat, steps: seq<Step>, s: State, most: int, id: Id)
    requires IsRun(Initial(cfg, capacity, workers), steps, s) && id < |s.deliveries|
    requires forall i :: 0 <= i < |steps| && steps[i].SetTargets? ==> Limited(cfg, steps[i].targets, most)
    ensures s.deliveries[id].attempt <= AtLeastOne(most)
  {
    InitiallySafe(cfg, capacity, workers);
    RunKeepsBounded(Initial(cfg, capacity, workers), steps, s, most);
    assert WithinLimit(s.deliveries[id], most);
  }

  // ---------- one task from start to end ----------

  /** The steps of a worker that nobody interrupts, from the task in its hand on. */
  function TaskSteps(s: State, w: nat, id: Id, response: Response, nextAt: int): seq<Step> {
    if id >= |s.deliveries| then [Work(w, ReadDelivery)]
    else
      var d := s.deliveries[id];
      if !HasEnabledTarget(s, d) then [Work(w, ReadDelivery), Work(w, ReadTarget)]
      else if d.payload == "" then
        [Work(w, ReadDelivery), Work(w, ReadTarget), Work(w, BuryEmpty), Work(w, CountEmpty)]
      else
        var v := Judge(s.cfg, s.targets[d.target], d.attempt + 1, response);
        [Work(w, ReadDelivery), Work(w, ReadTarget), Work(w, Send(response)), Work(w, Store(nextAt))]
        + if v.Retry? then [Work(w, Schedule)] else []
  }

  /** What they come to, which is what `Service.HandleTask` promises of the whole method. */
  function TaskDone(s: State, w: nat, id: Id, response: Response, nextAt: int): State
    requires w < |s.workers|
  {
    var free := s.(workers := s.workers[w := Idle]);
    if id >= |s.deliveries| then free.(lost := s.lost + multiset{id})
    else
      var d := s.deliveries[id];
      if !HasEnabledTarget(s, d) then free.(lost := s.lost + multiset{id})
      else if d.payload == "" then
        free.(deliveries := s.deliveries[id := d.(attempt := d.attempt + 1, status := Dead)],
              metrics := s.metrics.(dead := s.metrics.dead + 1), emptyDeaths := s.emptyDeaths + 1)
      else
        var v := Judge(s.cfg, s.targets[d.target], d.attempt + 1, response);
        free.(deliveries := s.deliveries[id := d.(attempt := d.attempt + 1, status := StatusOf(v),
                                                  nextAt := if v.Retry? then Some(nextAt) else d.nextAt)],
              metrics := Count(s.metrics, v), heap := if v.Retry? then s.heap + multiset{id} else s.heap)
  }

  /** The state with worker `w` standing there. */
  function At(s: State, w: nat, pc: Pc): State
    requires w < |s.workers|
  {
    s.(workers := s.workers[w := pc])
  }

  lemma FoundRuns(s: State, w: nat, id: Id, response: Response, nextAt: int)
    requires w < |s.workers| && id < |s.deliveries|
    ensures IsRun(At(s, w, HasDelivery(id, s.deliveries[id])), TaskSteps(s, w, id, response, nextAt)[1..],
                  TaskDone(s, w, id, response, nextAt))
  {
    hide Judge, Count, IsRun, Do, Enabled;
    var d, done := s.deliveries[id], TaskDone(s, w, id, response, nextAt);
    var rest := TaskSteps(s, w, id, response, nextAt)[2..];
    WorkOn(s, w, HasDelivery(id, d), ReadTarget);
    if HasEnabledTarget(s, d) {
      if d.payload == "" {
        BuryRuns(s, w, id, d, s.targets[d.target], response, nextAt);
        assert rest == [Work(w, BuryEmpty), Work(w, CountEmpty)];
      } else {
        SendRuns(s, w, id, d, s.targets[d.target], response, nextAt);
        var v := Judge(s.cfg, s.targets[d.target], d.attempt + 1, response);
        var last := if v.Retry? then [Work(w, Schedule)] else [];
        assert rest == [Work(w, Send(response)), Work(w, Store(nextAt))] + last;
      }
    } else {
      EmptyRun(done);
      assert rest == [];
    }
    RunStep(At(s, w, HasDelivery(id, d)), Work(w, ReadTarget), rest, done);
    assert TaskSteps(s, w, id, response, nextAt)[1..] == [Work(w, ReadTarget)] + rest;
  }

  /** A worker that nobody interrupts does just that. */
  lemma TaskRuns(s: State, w: nat, id: Id, response: Response, nextAt: int)
    requires w < |s.workers| && s.workers[w] == Took(id)
    ensures IsRun(s, TaskSteps(s, w, id, response, nextAt), TaskDone(s, w, id, response, nextAt))
  {
    hide Judge, Count;
    assert At(s, w, Took(id)).workers == s.workers;
    WorkOn(s, w, Took(id), ReadDelivery);
    var rest := TaskSteps(s, w, id, response, nextAt)[1..];
    if id < |s.deliveries| {
      FoundRuns(s, w, id, response, nextAt);
    }
    RunStep(s, Work(w, ReadDelivery), rest, TaskDone(s, w, id, response, nextAt));
    assert TaskSteps(s, w, id, response, nextAt) == [Work(w, ReadDelivery)] + rest;
  }

  // ---------- hands, queues, bags, sums and single steps ----------

  lemma {:induction false} InHandsUpdate(workers: seq<Pc>, w: nat, pc: Pc, id: Id)
    requires w < |workers|
    ensures InHands(workers[w := pc], id) == InHands(workers, id) - workers[w].Holds(id) + pc.Holds(id)
    ensures workers[w].Holds(id) <= InHands(workers, id)
  {
    hide Pc.Holds;
    var init := workers[..|workers| - 1];
    if w == |workers| - 1 {
      assert workers[w := pc][..|workers| - 1] == init;
    } else {
      InHandsUpdate(init, w, pc, id);
      assert workers[w := pc][..|workers| - 1] == init[w := pc];
    }
  }

  lemma TwoHands(workers: seq<Pc>, w: nat, w': nat, id: Id)
    requires w < |workers| && w' < |workers| && w != w'
    ensures workers[w].Holds(id) + workers[w'].Holds(id) <= InHands(workers, id)
  {
    InHandsUpdate(workers, w, Idle, id);
    InHandsUpdate(workers[w := Idle], w', Idle, id);
  }

  lemma PushCounts(q: seq<Id>, x: Id, id: Id)
    ensures multiset(q + [x])[id] == multiset(q)[id] + if x == id then 1 else 0
  {
  }

  lemma PopCounts(q: seq<Id>, id: Id)
    requires q != []
    ensures multiset(q[1..])[id] == multiset(q)[id] - if q[0] == id then 1 else 0
  {
    assert q == [q[0]] + q[1..];
  }

  lemma BagCounts(b: multiset<Id>, x: Id, id: Id)
    ensures (b + multiset{x})[id] == b[id] + if x == id then 1 else 0
    ensures x in b ==> (b - multiset{x})[id] == b[id] - if x == id then 1 else 0
  {
  }

  lemma {:induction false} NobodyHolds(n: nat, id: Id)
    ensures InHands(seq(n, _ => Idle), id) == 0
  {
    if n == 0 {
    } else {
      NobodyHolds(n - 1, id);
      assert seq(n, _ => Idle)[..n - 1] == seq(n - 1, _ => Idle);
    }
  }

  lemma {:induction false} SumUpdate<T(!new)>(s: seq<T>, f: T -> nat, i: nat, x: T)
    requires i < |s|
    ensures Sum(s[i := x], f) == Sum(s, f) - f(s[i]) + f(x) && f(s[i]) <= Sum(s, f)
  {
    if i == |s| - 1 {
      assert s[i := x][..|s| - 1] == s[..|s| - 1];
    } else {
      SumUpdate(s[..|s| - 1], f, i, x);
      assert s[i := x][..|s| - 1] == s[..|s| - 1][i := x];
    }
  }

  lemma SumAppend<T(!new)>(s: seq<T>, f: T -> nat, x: T)
    ensures Sum(s + [x], f) == Sum(s, f) + f(x)
  {
    assert (s + [x])[..|s|] == s;
  }

  lemma {:induction false} SumOfZeros<T(!new)>(s: seq<T>, f: T -> nat)
    requires forall x :: x in s ==> f(x) == 0
    ensures Sum(s, f) == 0
  {
    if s == [] {
    } else {
      SumOfZeros(s[..|s| - 1], f);
    }
  }

  lemma WorkersAfter(s: State, w: nat, pc: Pc)
    requires w < |s.workers|
    ensures var ws := s.workers[w := pc];
      && Sum(ws, InFlight) == Sum(s.workers, InFlight) - InFlight(s.workers[w]) + InFlight(pc)
      && Sum(ws, ToSucceed) == Sum(s.workers, ToSucceed) - ToSucceed(s.workers[w]) + ToSucceed(pc)
      && Sum(ws, ToBury) == Sum(s.workers, ToBury) - ToBury(s.workers[w]) + ToBury(pc)
      && Sum(ws, ToAbandon) == Sum(s.workers, ToAbandon) - ToAbandon(s.workers[w]) + ToAbandon(pc)
      && Sum(ws, ToCount) == Sum(s.workers, ToCount) - ToCount(s.workers[w]) + ToCount(pc)
  {
    SumUpdate(s.workers, InFlight, w, pc);
    SumUpdate(s.workers, ToSucceed, w, pc);
    SumUpdate(s.workers, ToBury, w, pc);
    SumUpdate(s.workers, ToAbandon, w, pc);
    SumUpdate(s.workers, ToCount, w, pc);
  }

  lemma DeliveriesAfter(ds: seq<Delivery>, id: Id, d: Delivery)
    requires id < |ds|
    ensures var ds' := ds[id := d];
      && Sum(ds', AttemptOf) == Sum(ds, AttemptOf) - ds[id].attempt + d.attempt
      && Sum(ds', Succeeded) == Sum(ds, Succeeded) - Succeeded(ds[id]) + Succeeded(d)
      && Sum(ds', Buried) == Sum(ds, Buried) - Buried(ds[id]) + Buried(d)
      && Sum(ds', Abandoned) == Sum(ds, Abandoned) - Abandoned(ds[id]) + Abandoned(d)
  {
    SumUpdate(ds, AttemptOf, id, d);
    SumUpdate(ds, Succeeded, id, d);
    SumUpdate(ds, Buried, id, d);
    SumUpdate(ds, Abandoned, id, d);
  }

  lemma NothingInFlight(ws: seq<Pc>)
    requires forall pc :: pc in ws ==> pc.Idle?
    ensures Sum(ws, InFlight) == Sum(ws, ToSucceed) == Sum(ws, ToBury) == Sum(ws, ToAbandon) == Sum(ws, ToCount) == 0
  {
    SumOfZeros(ws, InFlight);
    SumOfZeros(ws, ToSucceed);
    SumOfZeros(ws, ToBury);
    SumOfZeros(ws, ToAbandon);
    SumOfZeros(ws, ToCount);
  }

  lemma EmptyRun(s: State)
    ensures IsRun(s, [], s)
  {
  }

  lemma RunStep(s: State, step: Step, rest: seq<Step>, s': State)
    requires Enabled(s, step) && IsRun(Do(s, step), rest, s')
    ensures IsRun(s, [step] + rest, s')
  {
    assert ([step] + rest)[1..] == rest;
  }

  lemma WorkOn(s: State, w: nat, pc: Pc, action: Action)
    requires w < |s.workers| && CanWork(At(s, w, pc), pc, action)
    ensures Enabled(At(s, w, pc), Work(w, action))
    ensures Do(At(s, w, pc), Work(w, action)) == At(Effect(s, pc, action), w, NextPc(s, pc, action))
  {
    assert s.workers[w := pc][w := NextPc(s, pc, action)] == s.workers[w := NextPc(s, pc, action)];
  }

  /** What a worker's step takes away from, or adds to, the tasks in nobody's hand. */
  lemma EffectMovesTasks(s: State, pc: Pc, action: Action, id: Id)
    requires CanWork(s, pc, action)
    ensures Loose(Effect(s, pc, action), id) == Loose(s, id)
              - (if action.TakeTask? && s.queue[0] == id then 1 else 0)
              + (if action.Schedule? && pc.id == id then 1 else 0)
    ensures Effect(s, pc, action).lost[id] == s.lost[id] + if Loses(s, pc, action) && pc.id == id then 1 else 0
  {
    hide Judge, Count, Patched;
    match action
    case TakeTask => PopCounts(s.queue, id);
    case Schedule => BagCounts(s.heap, pc.id, id);
    case ReadDelivery => BagCounts(s.lost, pc.id, id);
    case ReadTarget => BagCounts(s.lost, pc.id, id);
    case _ =>
  }

  lemma HandsMoveTasks(s: State, pc: Pc, action: Action, id: Id)
    requires CanWork(s, pc, action)
    ensures NextPc(s, pc, action).Holds(id) + (if action.Schedule? && pc.id == id then 1 else 0)
              + (if Loses(s, pc, action) && pc.id == id then 1 else 0)
              + (if Settles(pc, action) && pc.id == id then 1 else 0)
         == pc.Holds(id) + (if action.TakeTask? && s.queue[0] == id then 1 else 0)
  {
    hide Judge;
  }

  lemma FailuresLoseTasks(s: State, step: Step, id: Id)
    requires Enabled(s, step) && (step.EnqueueFails? || step.RequeueFails?)
    ensures Loose(Do(s, step), id) + Do(s, step).lost[id] == Loose(s, id) + s.lost[id]
    ensures s.lost[id] <= Do(s, step).lost[id]
  {
    hide NextPc, Effect;
    if step.EnqueueFails? {
      BagCounts(s.creating, step.id, id);
      BagCounts(s.lost, step.id, id);
    } else {
      BagCounts(s.lost, s.flushing.value, id);
    }
  }

  lemma PushesMoveTasks(s: State, step: Step, id: Id)
    requires Enabled(s, step) && (step.Enqueue? || step.Requeue?)
    ensures Loose(Do(s, step), id) == Loose(s, id) && Do(s, step).lost == s.lost
  {
    hide NextPc, Effect;
    if step.Enqueue? {
      BagCounts(s.creating, step.id, id);
      PushCounts(s.queue, step.id, id);
    } else {
      PushCounts(s.queue, s.flushing.value, id);
    }
  }

  /** The delivery of a worker that is about to store is there, unfinished, and at the attempt the worker means. */
  lemma AboutToStore(s: State, w: nat, action: Action)
    requires Safe(s) && Enabled(s, Work(w, action)) && (action.BuryEmpty? || action.Store?)
    ensures var pc := s.workers[w];
      && pc.id < |s.deliveries| && !s.deliveries[pc.id].status.Final()
      && (action.BuryEmpty? ==> s.deliveries[pc.id] == pc.d)
      && (action.Store? ==> s.deliveries[pc.id].attempt + 1 == pc.attempt)
  {
    var pc := s.workers[w];
    assert CopyFresh(s.deliveries, pc);
    InHandsUpdate(s.workers, w, Idle, pc.id);
    assert Tasks(s, pc.id) > 0;
  }

  lemma SendRuns(s: State, w: nat, id: Id, d: Delivery, t: Target, response: Response, nextAt: int)
    requires w < |s.workers| && id < |s.deliveries| && s.deliveries[id] == d && d.payload != ""
    requires d.target in s.targets && s.targets[d.target] == t && t.enabled
    ensures var v := Judge(s.cfg, t, d.attempt + 1, response);
            IsRun(At(s, w, HasTarget(id, d, t)),
                  [Work(w, Send(response)), Work(w, Store(nextAt))] + if v.Retry? then [Work(w, Schedule)] else [],
                  TaskDone(s, w, id, response, nextAt))
  {
    hide Judge, Count;
    var v := Judge(s.cfg, t, d.attempt + 1, response);
    var done := TaskDone(s, w, id, response, nextAt);
    var u := Effect(s, HasTarget(id, d, t), Send(response));
    var judged := Judged(id, d.attempt + 1, v);
    WorkOn(s, w, HasTarget(id, d, t), Send(response));
    WorkOn(u, w, judged, Store(nextAt));
    var x := Effect(u, judged, Store(nextAt));
    var last := if v.Retry? then [Work(w, Schedule)] else [];
    if v.Retry? {
      WorkOn(x, w, Stored(id), Schedule);
      assert IsRun(At(x, w, Stored(id)), last, done);
      RunStep(At(u, w, judged), Work(w, Store(nextAt)), last, done);
    } else {
      assert At(x, w, Idle) == done;
      RunStep(At(u, w, judged), Work(w, Store(nextAt)), last, done);
    }
    RunStep(At(s, w, HasTarget(id, d, t)), Work(w, Send(response)), [Work(w, Store(nextAt))] + last, done);
    assert [Work(w, Send(response))] + ([Work(w, Store(nextAt))] + last)
        == [Work(w, Send(response)), Work(w, Store(nextAt))] + last;
  }

  lemma BuryRuns(s: State, w: nat, id: Id, d: Delivery, t: Target, response: Response, nextAt: int)
    requires w < |s.workers| && id < |s.deliveries| && s.deliveries[id] == d && d.payload == ""
    requires d.target in s.targets && s.targets[d.target] == t && t.enabled
    ensures IsRun(At(s, w, HasTarget(id, d, t)), [Work(w, BuryEmpty), Work(w, CountEmpty)],
                  TaskDone(s, w, id, response, nextAt))
  {
    hide Judge, Count;
    var done := TaskDone(s, w, id, response, nextAt);
    var u := Effect(s, HasTarget(id, d, t), BuryEmpty);
    WorkOn(s, w, HasTarget(id, d, t), BuryEmpty);
    WorkOn(u, w, CountDeath(id), CountEmpty);
    RunStep(At(u, w, CountDeath(id)), Work(w, CountEmpty), [], done);
    RunStep(At(s, w, HasTarget(id, d, t)), Work(w, BuryEmpty), [Work(w, CountEmpty)], done);
    assert [Work(w, BuryEmpty)] + [Work(w, CountEmpty)] == [Work(w, BuryEmpty), Work(w, CountEmpty)];
  }
}
