/** Requests between cores: the inbox that carries an operation to another core and the reply slot that
    carries its result back, as one machine.

    Each request has a slot of its own.  A core that has taken a message out of its inbox runs the
    operation, completes the slot step by step, wakes whoever waits, and only then takes the next. */
module Requests {
  import opened Common
  import Inbox
  import Reply

  type Msg = Inbox.Msg

  /** What the operations compute, and where the task behind a waker lives. */
  datatype World = World(value: Msg -> int, coreOf: nat -> nat, taskOf: nat -> Inbox.Task)

  datatype State = State(
    inbox: Inbox.State,
    slots: map<Msg, Reply.State>,
    target: map<Msg, nat>)           // the core each request was posted to

  datatype Action =
    | Request(source: nat, to: nat, msg: Msg)
    | Run(a: Inbox.Action)                        // anything the cores do besides
    | Answer(core: nat, msg: Msg, r: Reply.Action)
    | Wake(core: nat, msg: Msg, pend: bool)       // the last step of completion, if somebody waits
    | Await(msg: Msg, r: Reply.Action)            // poll

  /** A new slot. */
  const FRESH: Reply.State := Reply.State(0, false, None, Reply.Running, Reply.NotPolled, None)

  predicate Executes(s: State, c: nat, m: Msg)
  {
    && c < |s.inbox.core| == |s.inbox.ctx| && m in s.slots
    && s.inbox.core[c].pc == Inbox.DrainRun(m) && s.inbox.ctx[c].isr.None?
  }

  /** The wake-up call that completion of m ends with. */
  predicate Calls(s: State, m: Msg)
    requires m in s.slots
  {
    s.slots[m].completer.CallWake? && s.slots[m].completer.taken.Some?
  }

  function WakeUp(w: World, s: State, c: nat, m: Msg, pend: bool): Inbox.Action
    requires m in s.slots && Calls(s, m)
  {
    var waker := s.slots[m].completer.taken.value;
    Inbox.WakeTask(c, w.coreOf(waker), w.taskOf(waker), pend)
  }

  predicate Enabled(w: World, s: State, a: Action)
  {
    match a
    case Request(c, t, m) => m !in s.slots && Inbox.Enabled(s.inbox, Inbox.Post(c, t, m))
    case Run(b) =>
      && !b.Post? && Inbox.Enabled(s.inbox, b)
      && (b.LoopStep? && s.inbox.core[b.source].pc.DrainRun? ==>
            var m := s.inbox.core[b.source].pc.msg; m in s.slots && s.slots[m].completer.Finished?)
    case Answer(c, m, r) =>
      && Executes(s, c, m) && Reply.Enabled(s.slots[m], r) && !Calls(s, m)
      && (r == Reply.Complete(w.value(m)) || r.CompleterStep?)
    case Wake(c, m, pend) =>
      Executes(s, c, m) && Calls(s, m) && Inbox.Enabled(s.inbox, WakeUp(w, s, c, m, pend))
    case Await(m, r) => m in s.slots && (r.Poll? || r.PollerStep?) && Reply.Enabled(s.slots[m], r)
  }

  function Step(w: World, s: State, a: Action): State
    requires Enabled(w, s, a)
  {
    match a
    case Request(c, t, m) =>
      State(Inbox.Step(s.inbox, Inbox.Post(c, t, m)),
            s.slots[m := FRESH], s.target[m := t])
    case Run(b) => s.(inbox := Inbox.Step(s.inbox, b))
    case Answer(c, m, r) => s.(slots := s.slots[m := Reply.Step(s.slots[m], r)])
    case Wake(c, m, pend) =>
      s.(inbox := Inbox.Step(s.inbox, WakeUp(w, s, c, m, pend)),
         slots := s.slots[m := Reply.Step(s.slots[m], Reply.CompleterStep)])
    case Await(m, r) => s.(slots := s.slots[m := Reply.Step(s.slots[m], r)])
  }

  ghost predicate Init(s: State)
  {
    Inbox.Init(s.inbox) && s.slots == map[] && s.target == map[]
  }

  ghost predicate IsRun(w: World, states: seq<State>, actions: seq<Action>)
  {
    && |states| == |actions| + 1
    && Init(states[0])
    && (forall k | 0 <= k < |actions| :: Enabled(w, states[k], actions[k]) && states[k + 1] == Step(w, states[k], actions[k]))
  }

  // ----- invariant --------------------------------------------------------------------------

  /** Where a request stands: still queued and untouched, being run, or answered; and whatever has been
      stored is its own result. */
  ghost predicate Filed(c: Inbox.Core, m: Msg, r: Reply.State, v: int)
  {
    && m in c.posted
    && (m in c.queue ==> r.completer.Running? && c.pc != Inbox.DrainRun(m))
    && (m !in c.queue && c.pc != Inbox.DrainRun(m) ==> r.completer.Finished?)
    && (!r.completer.Running? ==> r.completer.value == v)
    && Reply.Inv(r)
  }

  /** No message twice, and the one being run has been taken out. */
  ghost predicate Mailbox(c: Inbox.Core)
  {
    && Inbox.InOrder(c)
    && (forall i, j | 0 <= i < j < |c.posted| :: c.posted[i] != c.posted[j])
    && (c.pc.DrainRun? ==> c.pc.msg in c.executed)
  }

  ghost predicate FiledAt(w: World, s: State, m: Msg)
    requires m in s.slots
  {
    m in s.target && s.target[m] < |s.inbox.core| && Filed(s.inbox.core[s.target[m]], m, s.slots[m], w.value(m))
  }

  ghost predicate Addressed(s: State, t: nat)
    requires t < |s.inbox.core|
  {
    forall m | m in s.inbox.core[t].posted :: m in s.slots && m in s.target && s.target[m] == t
  }

  ghost predicate Inv(w: World, s: State)
  {
    Inbox.Inv(s.inbox) && Mail(w, s)
  }

  ghost predicate Mail(w: World, s: State)
  {
    && (forall t | 0 <= t < |s.inbox.core| :: Mailbox(s.inbox.core[t]))
    && (forall t | 0 <= t < |s.inbox.core| :: Addressed(s, t))
    && (forall m | m in s.slots :: FiledAt(w, s, m))
  }

  /** The core's mail is as it was. */
  predicate SameMail(c: Inbox.Core, c': Inbox.Core)
  {
    && c'.queue == c.queue && c'.posted == c.posted && c'.executed == c.executed
    && (c'.pc == c.pc || (!c.pc.DrainRun? && !c'.pc.DrainRun?))
  }

  lemma MailKept(s: Inbox.State, a: Inbox.Action, t: nat)
    requires Inbox.Enabled(s, a) && !a.Post? && t < |s.core| && (a.LoopStep? ==> a.source != t)
    ensures |Inbox.Step(s, a).core| == |s.core| && SameMail(s.core[t], Inbox.Step(s, a).core[t])
  {
  }

  lemma SameFiled(c: Inbox.Core, c': Inbox.Core, m: Msg, r: Reply.State, v: int)
    requires SameMail(c, c')
    ensures Filed(c, m, r, v) ==> Filed(c', m, r, v)
    ensures Mailbox(c) ==> Mailbox(c')
  {
  }

  /** The head of a queue without repeats is not in its tail. */
  lemma HeadOnce(c: Inbox.Core)
    requires Mailbox(c) && c.queue != []
    ensures c.queue[0] !in c.queue[1..] && forall m | m != c.queue[0] :: m in c.queue <==> m in c.queue[1..]
  {
    var n := |c.executed|;
    assert c.queue == [c.queue[0]] + c.queue[1..];
    forall i | 1 <= i < |c.queue|
      ensures c.queue[i] != c.queue[0]
    {
      assert c.posted[n] == c.queue[0] && c.posted[n + i] == c.queue[i];
    }
  }

  lemma LoopMail(c: Inbox.Core, otherWork: bool)
    requires Mailbox(c) && !c.pc.Halted?
    ensures Mailbox(Inbox.LoopNext(c, otherWork)) && Inbox.LoopNext(c, otherWork).posted == c.posted
  {
    Inbox.LoopKeepsOrder(c, otherWork);
  }

  lemma LoopFiled(c: Inbox.Core, otherWork: bool, m: Msg, r: Reply.State, v: int)
    requires Mailbox(c) && !c.pc.Halted? && Filed(c, m, r, v)
    requires c.pc == Inbox.DrainRun(m) ==> r.completer.Finished?
    ensures Filed(Inbox.LoopNext(c, otherWork), m, r, v)
  {
    if c.pc.DrainPop? && c.queue != [] { HeadOnce(c); }
    if c.pc == Inbox.DrainRun(m) { assert m in c.queue ==> r.completer.Running?; }
  }

  function Posted(c: Inbox.Core, m: Msg): Inbox.Core
  {
    c.(queue := c.queue + [m], posted := c.posted + [m])
  }

  lemma PostMail(c: Inbox.Core, m: Msg)
    requires Mailbox(c) && m !in c.posted
    ensures Mailbox(Posted(c, m)) && forall v :: Filed(Posted(c, m), m, FRESH, v)
  {
    Inbox.PostKeepsOrder(c, m);
    var c' := Posted(c, m);
    assert c'.queue[|c.queue|] == m && c'.posted[|c.posted|] == m;
    if c.pc.DrainRun? { assert c.pc.msg in c.executed + c.queue; }
  }

  lemma PostFiled(c: Inbox.Core, m: Msg, n: Msg, r: Reply.State, v: int)
    requires Filed(c, n, r, v) && n != m
    ensures Filed(Posted(c, m), n, r, v)
  {
  }

  lemma RequestMail(w: World, s: State, c: nat, t: nat, m: Msg)
    requires Inv(w, s) && Enabled(w, s, Request(c, t, m))
    ensures Mail(w, Step(w, s, Request(c, t, m)))
  {
    var s' := Step(w, s, Request(c, t, m));
    assert Mailbox(s.inbox.core[t]) && Addressed(s, t);
    PostMail(s.inbox.core[t], m);
    assert s'.inbox.core == s.inbox.core[t := Posted(s.inbox.core[t], m)];
    forall u | 0 <= u < |s'.inbox.core|
      ensures Mailbox(s'.inbox.core[u]) && Addressed(s', u)
    {
      assert Mailbox(s.inbox.core[u]) && Addressed(s, u);
    }
    forall n | n in s'.slots
      ensures FiledAt(w, s', n)
    {
      if n != m {
        assert FiledAt(w, s, n);
        PostFiled(s.inbox.core[s.target[n]], m, n, s.slots[n], w.value(n));
      }
    }
  }

  /** Nothing moves but inside the cores' other business and the slot of one message. */
  lemma SlotMail(w: World, s: State, s': State, m: Msg)
    requires Mail(w, s) && m in s.slots && |s'.inbox.core| == |s.inbox.core| && s'.target == s.target
    requires forall t | 0 <= t < |s.inbox.core| :: SameMail(s.inbox.core[t], s'.inbox.core[t])
    requires m in s'.slots && s'.slots == s.slots[m := s'.slots[m]] && FiledAt(w, s', m)
    ensures Mail(w, s')
  {
    forall t | 0 <= t < |s'.inbox.core|
      ensures Mailbox(s'.inbox.core[t]) && Addressed(s', t)
    {
      assert Mailbox(s.inbox.core[t]) && Addressed(s, t);
      SameFiled(s.inbox.core[t], s'.inbox.core[t], m, s.slots[m], w.value(m));
    }
    forall n | n in s'.slots
      ensures FiledAt(w, s', n)
    {
      assert FiledAt(w, s, n);
      if n != m {
        SameFiled(s.inbox.core[s.target[n]], s'.inbox.core[s.target[n]], n, s.slots[n], w.value(n));
      }
    }
  }

  /** A core runs only what was posted to it, and that is no longer queued. */
  lemma RunsOwnMail(w: World, s: State, c: nat, m: Msg)
    requires Mail(w, s) && Executes(s, c, m)
    ensures m in s.target && s.target[m] == c && m !in s.inbox.core[c].queue && Filed(s.inbox.core[c], m, s.slots[m], w.value(m))
  {
    assert Mailbox(s.inbox.core[c]) && Addressed(s, c);
    assert m in s.inbox.core[c].executed + s.inbox.core[c].queue;
    assert FiledAt(w, s, m);
  }

  /** A step of completion, with the message's own result. */
  lemma CompletionFiled(c: Inbox.Core, m: Msg, r: Reply.State, v: int, a: Reply.Action)
    requires Filed(c, m, r, v) && c.pc == Inbox.DrainRun(m) && Reply.Enabled(r, a) && (a == Reply.Complete(v) || a.CompleterStep?)
    ensures Filed(c, m, Reply.Step(r, a), v)
  {
    Reply.StepKeeps(r, a);
  }

  lemma PollFiled(c: Inbox.Core, m: Msg, r: Reply.State, v: int, a: Reply.Action)
    requires Filed(c, m, r, v) && Reply.Enabled(r, a) && (a.Poll? || a.PollerStep?)
    ensures Filed(c, m, Reply.Step(r, a), v)
  {
    Reply.StepKeeps(r, a);
  }

  lemma AnswerMail(w: World, s: State, c: nat, m: Msg, r: Reply.Action)
    requires Inv(w, s) && Enabled(w, s, Answer(c, m, r))
    ensures Mail(w, Step(w, s, Answer(c, m, r)))
  {
    RunsOwnMail(w, s, c, m);
    CompletionFiled(s.inbox.core[c], m, s.slots[m], w.value(m), r);
    SlotMail(w, s, Step(w, s, Answer(c, m, r)), m);
  }

  lemma AwaitMail(w: World, s: State, m: Msg, r: Reply.Action)
    requires Inv(w, s) && Enabled(w, s, Await(m, r))
    ensures Mail(w, Step(w, s, Await(m, r)))
  {
    assert FiledAt(w, s, m);
    PollFiled(s.inbox.core[s.target[m]], m, s.slots[m], w.value(m), r);
    SlotMail(w, s, Step(w, s, Await(m, r)), m);
  }

  lemma WakeMail(w: World, s: State, c: nat, m: Msg, pend: bool)
    requires Inv(w, s) && Enabled(w, s, Wake(c, m, pend))
    ensures Mail(w, Step(w, s, Wake(c, m, pend)))
  {
    var s' := Step(w, s, Wake(c, m, pend));
    RunsOwnMail(w, s, c, m);
    CompletionFiled(s.inbox.core[c], m, s.slots[m], w.value(m), Reply.CompleterStep);
    forall t | 0 <= t < |s.inbox.core|
      ensures |s'.inbox.core| == |s.inbox.core| && SameMail(s.inbox.core[t], s'.inbox.core[t])
    {
      MailKept(s.inbox, WakeUp(w, s, c, m, pend), t);
    }
    SameFiled(s.inbox.core[c], s'.inbox.core[c], m, s'.slots[m], w.value(m));
    SlotMail(w, s, s', m);
  }

  lemma RunMail(w: World, s: State, b: Inbox.Action)
    requires Inv(w, s) && Enabled(w, s, Run(b))
    ensures Mail(w, Step(w, s, Run(b)))
  {
    var s' := Step(w, s, Run(b));
    assert |s'.inbox.core| == |s.inbox.core|;
    forall t | 0 <= t < |s.inbox.core|
      ensures Mailbox(s'.inbox.core[t]) && s'.inbox.core[t].posted == s.inbox.core[t].posted
    {
      RunMailbox(w, s, b, t);
    }
    forall t | 0 <= t < |s'.inbox.core|
      ensures Addressed(s', t)
    {
      assert Addressed(s, t);
    }
    forall m | m in s'.slots
      ensures FiledAt(w, s', m)
    {
      RunFiled(w, s, b, m);
    }
  }

  lemma RunMailbox(w: World, s: State, b: Inbox.Action, t: nat)
    requires Inv(w, s) && Enabled(w, s, Run(b)) && t < |s.inbox.core|
    ensures var s' := Step(w, s, Run(b));
            |s'.inbox.core| == |s.inbox.core| && Mailbox(s'.inbox.core[t]) && s'.inbox.core[t].posted == s.inbox.core[t].posted
  {
    assert Mailbox(s.inbox.core[t]);
    if b.LoopStep? && b.source == t {
      LoopMail(s.inbox.core[t], b.otherWork);
    } else {
      MailKept(s.inbox, b, t);
    }
  }

  lemma RunFiled(w: World, s: State, b: Inbox.Action, m: Msg)
    requires Inv(w, s) && Enabled(w, s, Run(b)) && m in s.slots
    ensures FiledAt(w, Step(w, s, Run(b)), m)
  {
    assert FiledAt(w, s, m);
    var t := s.target[m];
    assert Mailbox(s.inbox.core[t]);
    if b.LoopStep? && b.source == t {
      LoopFiled(s.inbox.core[t], b.otherWork, m, s.slots[m], w.value(m));
    } else {
      MailKept(s.inbox, b, t);
      SameFiled(s.inbox.core[t], Step(w, s, Run(b)).inbox.core[t], m, s.slots[m], w.value(m));
    }
  }

  lemma StepKeeps(w: World, s: State, a: Action)
    requires Inv(w, s) && Enabled(w, s, a)
    ensures Inv(w, Step(w, s, a))
  {
    match a
    case Request(c, t, m) => RequestMail(w, s, c, t, m); Inbox.StepKeeps(s.inbox, Inbox.Post(c, t, m));
    case Run(b) => RunMail(w, s, b); Inbox.StepKeeps(s.inbox, b);
    case Answer(c, m, r) => AnswerMail(w, s, c, m, r);
    case Wake(c, m, pend) => WakeMail(w, s, c, m, pend); Inbox.StepKeeps(s.inbox, WakeUp(w, s, c, m, pend));
    case Await(m, r) => AwaitMail(w, s, m, r);
  }

  lemma InitInv(w: World, s: State)
    requires Init(s)
    ensures Inv(w, s)
  {
    Inbox.RunInv([s.inbox], [], 0);
  }

  lemma {:induction false} RunInv(w: World, states: seq<State>, actions: seq<Action>, k: nat)
    requires IsRun(w, states, actions) && k < |states|
    ensures Inv(w, states[k])
  {
    if k == 0 {
      InitInv(w, states[0]);
    } else {
      RunInv(w, states, actions, k - 1);
      StepKeeps(w, states[k - 1], actions[k - 1]);
    }
  }

  // ----- what a caller relies on --------------------------------------------------------------

  /** The core that message m was requested of, by the actions before the k-th. */
  function RequestedOf(actions: seq<Action>, k: nat, m: Msg): Option<nat>
    requires k <= |actions|
  {
    if k == 0 then None
    else if actions[k - 1].Request? && actions[k - 1].msg == m then Some(actions[k - 1].to)
    else RequestedOf(actions, k - 1, m)
  }

  /** The waker of the last poll of m's future begun before action k. */
  function LastWaker(actions: seq<Action>, k: nat, m: Msg): Option<nat>
    requires k <= |actions|
  {
    if k == 0 then None
    else
      var a := actions[k - 1];
      if a.Await? && a.msg == m && a.r.Poll? then Some(a.r.waker) else LastWaker(actions, k - 1, m)
  }

  predicate Carries(p: Reply.Poller, waker: Option<nat>)
  {
    p.Checking? || p.Registering? || p.Rechecking? || p.Pending? ==> waker == Some(p.waker)
  }

  lemma CompletionLeavesPoller(r: Reply.State, a: Reply.Action)
    requires Reply.Enabled(r, a) && (a.Complete? || a.CompleterStep?)
    ensures Reply.Step(r, a).poller == r.poller
  {
  }

  lemma PollCarries(r: Reply.State, a: Reply.Action, waker: Option<nat>)
    requires Reply.Enabled(r, a) && (a.Poll? || a.PollerStep?) && Carries(r.poller, waker)
    ensures Carries(Reply.Step(r, a).poller, if a.Poll? then Some(a.waker) else waker)
  {
  }

  /** What the slots remember is what was asked for. */
  lemma {:induction false} AsAsked(w: World, states: seq<State>, actions: seq<Action>, k: nat, m: Msg)
    requires IsRun(w, states, actions) && k < |states|
    ensures m in states[k].slots <==> RequestedOf(actions, k, m).Some?
    ensures m in states[k].target <==> RequestedOf(actions, k, m).Some?
    ensures m in states[k].slots ==> RequestedOf(actions, k, m) == Some(states[k].target[m])
    ensures m in states[k].slots ==> Carries(states[k].slots[m].poller, LastWaker(actions, k, m))
  {
    if k > 0 {
      AsAsked(w, states, actions, k - 1, m);
      var s, a := states[k - 1], actions[k - 1];
      match a
      case Answer(_, n, r) => CompletionLeavesPoller(s.slots[n], r);
      case Wake(_, n, _) => CompletionLeavesPoller(s.slots[n], Reply.CompleterStep);
      case Await(n, r) => if n == m { PollCarries(s.slots[m], r, LastWaker(actions, k - 1, m)); }
      case _ =>
    }
  }

  /** A future yields the result of the operation it was posted for, which the core it was posted to
      has taken out of its inbox, and takes out once only. */
  lemma ReadyIsOwnResult(w: World, states: seq<State>, actions: seq<Action>, k: nat, m: Msg)
    requires IsRun(w, states, actions) && k < |states| && m in states[k].slots && states[k].slots[m].poller.Ready?
    ensures states[k].slots[m].poller.result == w.value(m)
    ensures var t := RequestedOf(actions, k, m);
            && t.Some? && t.value < |states[k].inbox.core|
            && var c := states[k].inbox.core[t.value];
               && m in c.executed && m !in c.queue
               && forall i, j | 0 <= i < j < |c.executed| && c.executed[i] == m :: c.executed[j] != m
  {
    RunInv(w, states, actions, k);
    AsAsked(w, states, actions, k, m);
    var s := states[k];
    assert FiledAt(w, s, m);
    var c := s.inbox.core[s.target[m]];
    assert Mailbox(c) && m in c.executed + c.queue;
    forall i, j | 0 <= i < j < |c.executed| && c.executed[i] == m
      ensures c.executed[j] != m
    {
      assert c.posted[i] == c.executed[i] && c.posted[j] == c.executed[j];
    }
  }

  /** A request is never lost: it is still queued where it was posted, that core is running it, or it is
      answered, and then a caller whose last poll was Pending has been woken through that poll's waker. */
  lemma QueuedRunningOrAnswered(w: World, states: seq<State>, actions: seq<Action>, k: nat, m: Msg, t: nat)
    requires IsRun(w, states, actions) && k < |states| && RequestedOf(actions, k, m) == Some(t)
    ensures m in states[k].slots && t < |states[k].inbox.core|
    ensures var c, r := states[k].inbox.core[t], states[k].slots[m];
            || m in c.queue
            || c.pc == Inbox.DrainRun(m)
            || (r.completer.Finished? && (r.poller.Pending? ==> r.woken.Some? && r.woken == LastWaker(actions, k, m)))
  {
    RunInv(w, states, actions, k);
    AsAsked(w, states, actions, k, m);
    assert FiledAt(w, states[k], m);
  }

  /** The wake that ends a completion puts the task that waits onto its core's run queue; if that core
      is halted, an interrupt is raised for it or on its way. */
  lemma WakeReachesCaller(w: World, states: seq<State>, actions: seq<Action>, k: nat)
    requires IsRun(w, states, actions) && k < |actions| && actions[k].Wake? && states[k].slots[actions[k].msg].poller.Pending?
    ensures var waker, s := LastWaker(actions, k, actions[k].msg), states[k + 1];
            && waker.Some?
            && var t := w.coreOf(waker.value);
               && t < |s.inbox.core| && w.taskOf(waker.value) in s.inbox.core[t].runQueue
               && (s.inbox.core[t].pc.Halted? ==>
                     || Inbox.Enabled(s.inbox, Inbox.TakeInboxIpi(t)) || Inbox.Enabled(s.inbox, Inbox.TakeWakeIpi(t))
                     || Inbox.OnTheWay(s.inbox, t))
  {
    RunInv(w, states, actions, k);
    RunInv(w, states, actions, k + 1);
    var m := actions[k].msg;
    AsAsked(w, states, actions, k, m);
    assert FiledAt(w, states[k], m);
    var t := w.coreOf(states[k].slots[m].poller.waker);
    if states[k + 1].inbox.core[t].pc.Halted? { Inbox.HaltedIsWoken(states[k + 1].inbox, t); }
  }
}
