/** Per-core inboxes, wake flags and the halt decision of the executor run loop, interleaved over all
    cores at every atomic load, store and IPI.

    A core runs its loop (`run_core`), interrupted by ISRs while interrupts are enabled.  Task code,
    message ops, pool jobs and ISRs may post messages and wake tasks of any core.  Waking a task
    enqueues it on the owner's run queue and then calls `__pender`; the executor may leave the call
    out when the queue was not empty. */
module Inbox {
  import opened Common

  type Msg = nat
  type Task = nat

  /** What remains of `enqueue(target, _)` or `wake_core(target)` in some execution context. */
  datatype Activity =
    | Quiet
    | SetPending(target: nat)
    | SendInboxIpi(target: nat)
    | SetWake(target: nat)
    | SendWakeIpi(target: nat)

  /** Program point of `run_core`. */
  datatype Pc =
    | ClearWake
    | PollStart
    | Polling(tasks: set<Task>)   // the tasks taken off the run queue, to be polled
    | DrainSwap
    | DrainPop
    | DrainRun(msg: Msg)
    | OtherWork
    | DisableIrqs
    | CheckWake
    | CheckPending
    | Decide(more: bool)
    | Halted
  {
    predicate IrqsEnabled() { !CheckWake? && !CheckPending? && !Decide? }

    /** Code that may post messages and wake tasks. */
    predicate RunsTasks() { Polling? || DrainRun? || OtherWork? }
  }

  datatype Core = Core(
    queue: seq<Msg>,
    pending: bool,
    wakePending: bool,
    runQueue: set<Task>,
    pc: Pc,
    inboxIpi: bool,           // VEC_INBOX raised and not yet taken
    wakeIpi: bool,            // VEC_WAKE raised and not yet taken
    posted: seq<Msg>,         // every message ever pushed, in order
    executed: seq<Msg>)       // every message taken out for execution, in order

  /** What the code running on a core is in the middle of: the loop, and the ISR on top of it. */
  datatype Context = Context(loop: Activity, isr: Option<Activity>)
  {
    function Current(): Activity { if isr.Some? then isr.value else loop }

    function With(a: Activity): Context { if isr.Some? then this.(isr := Some(a)) else this.(loop := a) }
  }

  datatype State = State(core: seq<Core>, ctx: seq<Context>)

  datatype Action =
    | Post(source: nat, target: nat, msg: Msg)
    | WakeTask(source: nat, target: nat, task: Task, pend: bool)
    | Activate(source: nat)         // next action of the pending activity
    | LoopStep(source: nat, otherWork: bool)
    | TakeInboxIpi(source: nat)
    | TakeWakeIpi(source: nat)
    | TakeTimer(source: nat)
    | ReturnFromIsr(source: nat)

  predicate MayCall(s: State, c: nat)
    requires c < |s.core| == |s.ctx|
  {
    s.ctx[c].Current().Quiet? && (s.ctx[c].isr.Some? || s.core[c].pc.RunsTasks())
  }

  predicate Interruptible(s: State, c: nat)
    requires c < |s.core| == |s.ctx|
  {
    s.ctx[c].isr.None? && s.core[c].pc.IrqsEnabled()
  }

  predicate Enabled(s: State, a: Action)
  {
    && |s.ctx| == |s.core|
    && a.source < |s.core|
    && match a
       case Post(c, t, _) => t < |s.core| && MayCall(s, c)
       case WakeTask(c, t, _, pend) => t < |s.core| && MayCall(s, c) && (pend || s.core[t].runQueue != {})
       case Activate(c) => !s.ctx[c].Current().Quiet? && s.ctx[c].Current().target < |s.core|
       case LoopStep(c, _) => s.ctx[c] == Context(Quiet, None) && !s.core[c].pc.Halted?
       case TakeInboxIpi(c) => Interruptible(s, c) && s.core[c].inboxIpi
       case TakeWakeIpi(c) => Interruptible(s, c) && s.core[c].wakeIpi
       case TakeTimer(c) => Interruptible(s, c)
       case ReturnFromIsr(c) => s.ctx[c].isr == Some(Quiet)
  }

  /** The effect of an activity step on its target core, and what is left of the activity. */
  function Deliver(c: Core, a: Activity): Core
  {
    match a
    case Quiet => c
    case SetPending(_) => c.(pending := true)
    case SendInboxIpi(_) => c.(inboxIpi := true)
    case SetWake(_) => c.(wakePending := true)
    case SendWakeIpi(_) => c.(wakeIpi := true)
  }

  function Remaining(a: Activity, source: nat): Activity
  {
    match a
    case SetPending(t) => SendInboxIpi(t)
    case SetWake(t) => if source == t then Quiet else SendWakeIpi(t)
    case _ => Quiet
  }

  /** One step of the run loop of a core that is not interrupted.  `otherWork`: the pool or the wasm
      threads have something to run. */
  function LoopNext(c: Core, otherWork: bool): Core
    requires !c.pc.Halted?
  {
    match c.pc
    case ClearWake => c.(wakePending := false, pc := PollStart)
    case PollStart => c.(runQueue := {}, pc := Polling(c.runQueue))
    case Polling(_) => c.(pc := DrainSwap)
    case DrainSwap => c.(pending := false, pc := if c.pending then DrainPop else OtherWork)
    case DrainPop =>
      if c.queue == [] then c.(pc := OtherWork)
      else c.(queue := c.queue[1..], executed := c.executed + [c.queue[0]], pc := DrainRun(c.queue[0]))
    case DrainRun(_) => c.(pc := DrainPop)
    case OtherWork => c.(pc := DisableIrqs)
    case DisableIrqs => c.(pc := CheckWake)
    case CheckWake => c.(pc := if c.wakePending then Decide(true) else CheckPending)
    case CheckPending => c.(pc := Decide(c.pending || otherWork))
    case Decide(more) => c.(pc := if more then ClearWake else Halted)
  }

  /** Any interrupt ends `hlt`. */
  function Resume(pc: Pc): Pc
  {
    if pc.Halted? then ClearWake else pc
  }

  function Step(s: State, a: Action): State
    requires Enabled(s, a)
  {
    match a
    case Post(c, t, m) =>
      var target := s.core[t];
      State(s.core[t := target.(queue := target.queue + [m], posted := target.posted + [m])],
            s.ctx[c := s.ctx[c].With(SetPending(t))])
    case WakeTask(c, t, task, pend) =>
      State(s.core[t := s.core[t].(runQueue := s.core[t].runQueue + {task})],
            if pend then s.ctx[c := s.ctx[c].With(SetWake(t))] else s.ctx)
    case Activate(c) =>
      var act := s.ctx[c].Current();
      State(s.core[act.target := Deliver(s.core[act.target], act)], s.ctx[c := s.ctx[c].With(Remaining(act, c))])
    case LoopStep(c, otherWork) => s.(core := s.core[c := LoopNext(s.core[c], otherWork)])
    case TakeInboxIpi(c) =>
      s.(core := s.core[c := s.core[c].(inboxIpi := false, pending := true, pc := Resume(s.core[c].pc))])
    case TakeWakeIpi(c) =>
      s.(core := s.core[c := s.core[c].(wakeIpi := false, pc := Resume(s.core[c].pc))])
    case TakeTimer(c) =>
      State(s.core[c := s.core[c].(pc := Resume(s.core[c].pc))], s.ctx[c := s.ctx[c].(isr := Some(Quiet))])
    case ReturnFromIsr(c) => s.(ctx := s.ctx[c := s.ctx[c].(isr := None)])
  }

  ghost predicate Init(s: State)
  {
    && |s.ctx| == |s.core|
    && (forall c | 0 <= c < |s.core| ::
          && s.core[c] == Core([], false, true, {}, ClearWake, false, false, [], [])
          && s.ctx[c] == Context(Quiet, None))
  }

  ghost predicate IsRun(states: seq<State>, actions: seq<Action>)
  {
    && |states| == |actions| + 1
    && Init(states[0])
    && (forall k | 0 <= k < |actions| :: Enabled(states[k], actions[k]) && states[k + 1] == Step(states[k], actions[k]))
  }

  // ----- invariant --------------------------------------------------------------------------

  /** Nothing is dropped, duplicated or reordered. */
  ghost predicate InOrder(c: Core)
  {
    c.posted == c.executed + c.queue
  }

  /** A core is in the middle of a call only where its code may call, and an ISR runs only where it
      could have interrupted. */
  predicate Placed(c: Core, x: Context, n: nat)
  {
    && (!x.loop.Quiet? ==> c.pc.RunsTasks() && x.loop.target < n)
    && (x.isr.Some? ==> c.pc.IrqsEnabled() && !c.pc.Halted? && (x.isr.value.Quiet? || x.isr.value.target < n))
  }

  /** Some context has activity `a` ahead of it. */
  ghost predicate Ahead(s: State, a: Activity)
  {
    exists c :: 0 <= c < |s.ctx| && (s.ctx[c].loop == a || s.ctx[c].isr == Some(a))
  }

  /** Which activities some context has ahead of it on behalf of one core. */
  datatype Coming = Coming(setPending: bool, inboxIpi: bool, setWake: bool, wakeIpi: bool)

  ghost function ComingFor(s: State, t: nat): Coming
  {
    Coming(Ahead(s, SetPending(t)), Ahead(s, SendInboxIpi(t)), Ahead(s, SetWake(t)), Ahead(s, SendWakeIpi(t)))
  }

  /** Every piece of work of a core is announced: a queued message by the flag, by a sender, or by the
      drain loop itself; a flag set too late for the halt decision by an IPI raised or about to be. */
  predicate Announced(c: Core, coming: Coming)
  {
    && (c.queue != [] ==> c.pending || coming.setPending || c.pc.DrainPop? || c.pc.DrainRun?)
    && (c.runQueue != {} ==> c.wakePending || coming.setWake || c.pc.PollStart?)
    && (c.pending && (c.pc == Decide(false) || c.pc.Halted?) ==> c.inboxIpi || coming.inboxIpi)
    && (c.wakePending && (c.pc.CheckPending? || c.pc == Decide(false) || c.pc.Halted?) ==> c.wakeIpi || coming.wakeIpi)
  }

  ghost predicate Inv(s: State)
  {
    && |s.ctx| == |s.core|
    && (forall t | 0 <= t < |s.core| :: Placed(s.core[t], s.ctx[t], |s.core|))
    && (forall t | 0 <= t < |s.core| :: Announced(s.core[t], ComingFor(s, t)))
  }

  predicate AtLeast(more: Coming, less: Coming)
  {
    && (less.setPending ==> more.setPending) && (less.inboxIpi ==> more.inboxIpi)
    && (less.setWake ==> more.setWake) && (less.wakeIpi ==> more.wakeIpi)
  }

  /** Core c replaces its current activity: what replaces it is ahead, and so is all the rest. */
  lemma ReplacedAhead(s: State, s': State, c: nat, next: Activity)
    requires c < |s.ctx| && s'.ctx == s.ctx[c := s.ctx[c].With(next)]
    ensures Ahead(s', next)
    ensures forall a | a != s.ctx[c].Current() :: Ahead(s, a) ==> Ahead(s', a)
  {
    assert s'.ctx[c].loop == next || s'.ctx[c].isr == Some(next);
    forall a: Activity | a != s.ctx[c].Current() && Ahead(s, a)
      ensures Ahead(s', a)
    {
      var d :| 0 <= d < |s.ctx| && (s.ctx[d].loop == a || s.ctx[d].isr == Some(a));
      assert s'.ctx[d].loop == a || s'.ctx[d].isr == Some(a);
    }
  }

  lemma SameAhead(s: State, s': State)
    requires s'.ctx == s.ctx
    ensures forall t: nat :: ComingFor(s', t) == ComingFor(s, t)
  {
    assert forall a :: Ahead(s', a) == Ahead(s, a);
  }

  /** The acting core: it starts or goes on with a call where it may, moves on only when it has none,
      and is interrupted only with interrupts enabled. */
  lemma ActorPlaced(s: State, a: Action)
    requires Enabled(s, a) && Placed(s.core[a.source], s.ctx[a.source], |s.core|)
    ensures var s' := Step(s, a); Placed(s'.core[a.source], s'.ctx[a.source], |s.core|)
  {
  }

  lemma BystanderPlaced(s: State, a: Action, t: nat)
    requires Enabled(s, a) && t < |s.core| && a.source != t && Placed(s.core[t], s.ctx[t], |s.core|)
    ensures var s' := Step(s, a); Placed(s'.core[t], s'.ctx[t], |s.core|)
  {
  }

  lemma PlacedKept(s: State, a: Action)
    requires Inv(s) && Enabled(s, a)
    ensures var s' := Step(s, a);
            |s'.ctx| == |s'.core| == |s.core| &&
            forall t | 0 <= t < |s'.core| :: Placed(s'.core[t], s'.ctx[t], |s'.core|)
  {
    forall t | 0 <= t < |s.core|
      ensures var s' := Step(s, a); Placed(s'.core[t], s'.ctx[t], |s.core|)
    {
      assert Placed(s.core[t], s.ctx[t], |s.core|);
      if t == a.source { ActorPlaced(s, a); } else { BystanderPlaced(s, a, t); }
    }
  }

  lemma PostAnnounced(s: State, c: nat, t: nat, m: Msg)
    requires Inv(s) && Enabled(s, Post(c, t, m))
    ensures var s' := Step(s, Post(c, t, m)); forall u | 0 <= u < |s'.core| :: Announced(s'.core[u], ComingFor(s', u))
  {
    var s' := Step(s, Post(c, t, m));
    ReplacedAhead(s, s', c, SetPending(t));
    forall u | 0 <= u < |s'.core|
      ensures Announced(s'.core[u], ComingFor(s', u))
    {
      assert Announced(s.core[u], ComingFor(s, u));
      assert AtLeast(ComingFor(s', u), ComingFor(s, u));
    }
  }

  lemma WakeTaskAnnounced(s: State, c: nat, t: nat, task: Task, pend: bool)
    requires Inv(s) && Enabled(s, WakeTask(c, t, task, pend))
    ensures var s' := Step(s, WakeTask(c, t, task, pend));
            forall u | 0 <= u < |s'.core| :: Announced(s'.core[u], ComingFor(s', u))
  {
    var s' := Step(s, WakeTask(c, t, task, pend));
    if pend { ReplacedAhead(s, s', c, SetWake(t)); } else { SameAhead(s, s'); }
    forall u | 0 <= u < |s'.core|
      ensures Announced(s'.core[u], ComingFor(s', u))
    {
      assert Announced(s.core[u], ComingFor(s, u));
      assert AtLeast(ComingFor(s', u), ComingFor(s, u));
    }
  }

  /** Core-level effect of an activity step on its target: what is consumed is replaced. */
  lemma DeliverAnnounced(c: Core, act: Activity, self: bool, coming: Coming, coming': Coming)
    requires !act.Quiet? && Announced(c, coming)
    requires act.SetPending? ==> coming'.inboxIpi
    requires act.SetWake? && !self ==> coming'.wakeIpi
    requires self && act.SetWake? ==> !c.pc.CheckPending? && !c.pc.Decide? && !c.pc.Halted?
    requires coming.setPending && !act.SetPending? ==> coming'.setPending
    requires coming.inboxIpi && !act.SendInboxIpi? ==> coming'.inboxIpi
    requires coming.setWake && !act.SetWake? ==> coming'.setWake
    requires coming.wakeIpi && !act.SendWakeIpi? ==> coming'.wakeIpi
    ensures Announced(Deliver(c, act), coming')
  {
  }

  lemma ActivateAnnounced(s: State, c: nat)
    requires Inv(s) && Enabled(s, Activate(c))
    ensures var s' := Step(s, Activate(c)); forall u | 0 <= u < |s'.core| :: Announced(s'.core[u], ComingFor(s', u))
  {
    var s' := Step(s, Activate(c));
    var act := s.ctx[c].Current();
    var next := Remaining(act, c);
    ReplacedAhead(s, s', c, next);
    forall u | 0 <= u < |s'.core|
      ensures Announced(s'.core[u], ComingFor(s', u))
    {
      assert Announced(s.core[u], ComingFor(s, u));
      if u == act.target {
        assert Placed(s.core[c], s.ctx[c], |s.core|);
        DeliverAnnounced(s.core[u], act, u == c, ComingFor(s, u), ComingFor(s', u));
      } else {
        assert AtLeast(ComingFor(s', u), ComingFor(s, u));
      }
    }
  }

  lemma LoopNextAnnounced(c: Core, otherWork: bool, coming: Coming)
    requires Announced(c, coming) && !c.pc.Halted?
    ensures Announced(LoopNext(c, otherWork), coming)
  {
  }

  lemma LoopAnnounced(s: State, c: nat, otherWork: bool)
    requires Inv(s) && Enabled(s, LoopStep(c, otherWork))
    ensures var s' := Step(s, LoopStep(c, otherWork));
            forall u | 0 <= u < |s'.core| :: Announced(s'.core[u], ComingFor(s', u))
  {
    var s' := Step(s, LoopStep(c, otherWork));
    SameAhead(s, s');
    assert Announced(s.core[c], ComingFor(s, c));
    LoopNextAnnounced(s.core[c], otherWork, ComingFor(s, c));
    assert forall u | 0 <= u < |s.core| && u != c :: s'.core[u] == s.core[u];
  }

  lemma InterruptAhead(s: State, a: Action)
    requires Enabled(s, a)
    requires a.TakeInboxIpi? || a.TakeWakeIpi? || a.TakeTimer? || a.ReturnFromIsr?
    ensures var s' := Step(s, a); forall b: Activity | !b.Quiet? && Ahead(s, b) :: Ahead(s', b)
  {
    var s' := Step(s, a);
    forall b: Activity | !b.Quiet? && Ahead(s, b)
      ensures Ahead(s', b)
    {
      var d :| 0 <= d < |s.ctx| && (s.ctx[d].loop == b || s.ctx[d].isr == Some(b));
      assert s'.ctx[d].loop == b || s'.ctx[d].isr == Some(b);
    }
  }

  lemma InterruptAnnounced(s: State, a: Action)
    requires Inv(s) && Enabled(s, a)
    requires a.TakeInboxIpi? || a.TakeWakeIpi? || a.TakeTimer? || a.ReturnFromIsr?
    ensures var s' := Step(s, a); forall u | 0 <= u < |s'.core| :: Announced(s'.core[u], ComingFor(s', u))
  {
    var s' := Step(s, a);
    InterruptAhead(s, a);
    forall u | 0 <= u < |s'.core|
      ensures Announced(s'.core[u], ComingFor(s', u))
    {
      assert Announced(s.core[u], ComingFor(s, u));
      assert AtLeast(ComingFor(s', u), ComingFor(s, u));
    }
  }

  lemma StepKeeps(s: State, a: Action)
    requires Inv(s) && Enabled(s, a)
    ensures Inv(Step(s, a))
  {
    PlacedKept(s, a);
    match a
    case Post(c, t, m) => PostAnnounced(s, c, t, m);
    case WakeTask(c, t, task, pend) => WakeTaskAnnounced(s, c, t, task, pend);
    case Activate(c) => ActivateAnnounced(s, c);
    case LoopStep(c, o) => LoopAnnounced(s, c, o);
    case _ => InterruptAnnounced(s, a);
  }

  lemma {:induction false} RunInv(states: seq<State>, actions: seq<Action>, k: nat)
    requires IsRun(states, actions) && k < |states|
    ensures Inv(states[k])
  {
    if k > 0 {
      RunInv(states, actions, k - 1);
      StepKeeps(states[k - 1], actions[k - 1]);
    }
  }

  // ----- what the run loop guarantees -------------------------------------------------------

  /** Popping a message moves it from the queue to the executed ones. */
  lemma LoopKeepsOrder(c: Core, otherWork: bool)
    requires !c.pc.Halted? && InOrder(c)
    ensures InOrder(LoopNext(c, otherWork))
  {
    if c.pc.DrainPop? && c.queue != [] {
      assert (c.executed + [c.queue[0]]) + c.queue[1..] == c.executed + c.queue;
    }
  }

  lemma PostKeepsOrder(c: Core, m: Msg)
    requires InOrder(c)
    ensures InOrder(c.(queue := c.queue + [m], posted := c.posted + [m]))
  {
    assert c.executed + (c.queue + [m]) == (c.executed + c.queue) + [m];
  }

  lemma StepKeepsOrder(s: State, a: Action, t: nat)
    requires Enabled(s, a) && t < |s.core| && InOrder(s.core[t])
    ensures var s' := Step(s, a); t < |s'.core| && InOrder(s'.core[t])
  {
    if a.LoopStep? && a.source == t {
      LoopKeepsOrder(s.core[t], a.otherWork);
    } else if a.Post? && a.target == t {
      PostKeepsOrder(s.core[t], a.msg);
    }
  }

  lemma {:induction false} LogsInOrder(states: seq<State>, actions: seq<Action>, k: nat, t: nat)
    requires IsRun(states, actions) && k < |states| && t < |states[0].core|
    ensures t < |states[k].core| && InOrder(states[k].core[t])
  {
    if k > 0 {
      LogsInOrder(states, actions, k - 1, t);
      StepKeepsOrder(states[k - 1], actions[k - 1], t);
    }
  }

  /** The messages of the posts to core t before action k, in order. */
  function PostedTo(actions: seq<Action>, k: nat, t: nat): seq<Msg>
    requires k <= |actions|
  {
    if k == 0 then []
    else
      var a := actions[k - 1];
      PostedTo(actions, k - 1, t) + if a.Post? && a.target == t then [a.msg] else []
  }

  /** The messages whose execution core t has begun up to state k, in order. */
  function RunBy(states: seq<State>, k: nat, t: nat): seq<Msg>
    requires k < |states| && forall i | 0 <= i < |states| :: t < |states[i].core|
  {
    if k == 0 then []
    else
      var pc, pc' := states[k - 1].core[t].pc, states[k].core[t].pc;
      RunBy(states, k - 1, t) + if pc'.DrainRun? && pc' != pc then [pc'.msg] else []
  }

  lemma LoopLogs(c: Core, otherWork: bool)
    requires !c.pc.Halted?
    ensures var c' := LoopNext(c, otherWork);
            && c'.posted == c.posted
            && c'.executed == c.executed + if c'.pc.DrainRun? && c'.pc != c.pc then [c'.pc.msg] else []
  {
  }

  lemma StepLogs(s: State, a: Action, t: nat)
    requires Enabled(s, a) && t < |s.core|
    ensures var s' := Step(s, a);
            && |s'.core| == |s.core|
            && var c, c' := s.core[t], s'.core[t];
               && c'.posted == c.posted + (if a.Post? && a.target == t then [a.msg] else [])
               && c'.executed == c.executed + (if c'.pc.DrainRun? && c'.pc != c.pc then [c'.pc.msg] else [])
  {
    if a.LoopStep? && a.source == t { LoopLogs(s.core[t], a.otherWork); }
  }

  lemma {:induction false} SameCores(states: seq<State>, actions: seq<Action>, k: nat)
    requires IsRun(states, actions) && k < |states|
    ensures |states[k].core| == |states[0].core|
  {
    if k > 0 { SameCores(states, actions, k - 1); }
  }

  lemma {:induction false} LogsAreTrue(states: seq<State>, actions: seq<Action>, k: nat, t: nat)
    requires IsRun(states, actions) && k < |states| && forall i | 0 <= i < |states| :: t < |states[i].core|
    ensures states[k].core[t].posted == PostedTo(actions, k, t) && states[k].core[t].executed == RunBy(states, k, t)
  {
    if k > 0 {
      LogsAreTrue(states, actions, k - 1, t);
      StepLogs(states[k - 1], actions[k - 1], t);
    }
  }

  /** Each core executes the messages posted to it once each, in the order they were posted: those it
      has begun to execute, followed by those still queued, are those that were posted to it. */
  lemma MessagesRunInOrder(states: seq<State>, actions: seq<Action>, k: nat, t: nat)
    requires IsRun(states, actions) && k < |states| && t < |states[0].core|
    ensures forall i | 0 <= i < |states| :: t < |states[i].core|
    ensures PostedTo(actions, k, t) == RunBy(states, k, t) + states[k].core[t].queue
  {
    forall i | 0 <= i < |states|
      ensures t < |states[i].core|
    {
      SameCores(states, actions, i);
    }
    LogsInOrder(states, actions, k, t);
    LogsAreTrue(states, actions, k, t);
  }

  /** A woken task is on its core's run queue, and leaves it only when that core goes on to poll it. */
  lemma WokenTaskIsPolled(states: seq<State>, actions: seq<Action>, k: nat, t: nat, task: Task)
    requires IsRun(states, actions) && k < |actions| && t < |states[0].core|
    ensures t < |states[k].core| && t < |states[k + 1].core|
    ensures actions[k].WakeTask? && actions[k].target == t && actions[k].task == task ==> task in states[k + 1].core[t].runQueue
    ensures task in states[k].core[t].runQueue && task !in states[k + 1].core[t].runQueue ==>
              states[k + 1].core[t].pc.Polling? && task in states[k + 1].core[t].pc.tasks && !states[k].core[t].pc.Polling?
  {
    SameCores(states, actions, k);
    SameCores(states, actions, k + 1);
  }

  /** The core has something to do. */
  predicate HasWork(c: Core)
  {
    c.queue != [] || c.pending || c.wakePending || c.runQueue != {}
  }

  /** Some other core is between its enqueue for core t and its IPI. */
  ghost predicate OnTheWay(s: State, t: nat)
  {
    exists c, a: Activity :: 0 <= c < |s.ctx| && c != t && !a.Quiet? && a.target == t
      && (s.ctx[c].loop == a || s.ctx[c].isr == Some(a))
  }

  lemma SomeoneElse(s: State, t: nat, a: Activity)
    requires t < |s.core| == |s.ctx| && Placed(s.core[t], s.ctx[t], |s.core|) && s.core[t].pc.Halted?
    requires Ahead(s, a) && !a.Quiet? && a.target == t
    ensures OnTheWay(s, t)
  {
    var c :| 0 <= c < |s.ctx| && (s.ctx[c].loop == a || s.ctx[c].isr == Some(a));
    assert c != t;
  }

  lemma HaltedIsWoken(s: State, t: nat)
    requires Inv(s) && t < |s.core| && s.core[t].pc.Halted? && HasWork(s.core[t])
    ensures Enabled(s, TakeInboxIpi(t)) || Enabled(s, TakeWakeIpi(t)) || OnTheWay(s, t)
  {
    assert Announced(s.core[t], ComingFor(s, t)) && Placed(s.core[t], s.ctx[t], |s.core|);
    if !s.core[t].inboxIpi && !s.core[t].wakeIpi {
      var a :=
        if Ahead(s, SetPending(t)) then SetPending(t)
        else if Ahead(s, SendInboxIpi(t)) then SendInboxIpi(t)
        else if Ahead(s, SetWake(t)) then SetWake(t) else SendWakeIpi(t);
      SomeoneElse(s, t, a);
    }
  }

  /** No lost wake: a halted core with a queued message, a ready task or a set flag has an IPI raised
      for it, which ends its halt, or some other core is between its enqueue and its IPI. */
  lemma HaltedCoreIsWoken(states: seq<State>, actions: seq<Action>, k: nat, t: nat)
    requires IsRun(states, actions) && k < |states| && t < |states[k].core|
    requires states[k].core[t].pc.Halted? && HasWork(states[k].core[t])
    ensures Enabled(states[k], TakeInboxIpi(t)) || Enabled(states[k], TakeWakeIpi(t)) || OnTheWay(states[k], t)
  {
    RunInv(states, actions, k);
    HaltedIsWoken(states[k], t);
  }

  /** A core in the middle of a post or a wake can always go on, or is interrupted by an ISR that can. */
  lemma SenderNotStuck(states: seq<State>, actions: seq<Action>, k: nat, c: nat)
    requires IsRun(states, actions) && k < |states| && c < |states[k].ctx|
    requires !states[k].ctx[c].loop.Quiet? || states[k].ctx[c].isr.Some?
    ensures Enabled(states[k], Activate(c)) || Enabled(states[k], ReturnFromIsr(c))
  {
    RunInv(states, actions, k);
    assert Placed(states[k].core[c], states[k].ctx[c], |states[k].core|);
  }
}
