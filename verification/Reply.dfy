/** The one-shot reply channel (ReplySlot / ReplyFuture, ExecReply / ExecReplyFuture), with `poll`
    and `complete` split into their atomic loads and stores and interleaved arbitrarily. */
module Reply {
  import opened Common

  /** Program point of the executing core inside `complete(value)`. */
  datatype Completer =
    | Running
    | StoreResult(value: int)
    | StoreDone(value: int)
    | TakeWaker(value: int)
    | CallWake(value: int, taken: Option<nat>)
    | Finished(value: int)

  /** Program point of the future.  Wakers are numbered by the poll that supplied them. */
  datatype Poller =
    | NotPolled
    | Checking(waker: nat)
    | Registering(waker: nat)
    | Rechecking(waker: nat)
    | Reading
    | Pending(waker: nat)       // the last poll returned Pending
    | Ready(result: int)        // the last poll returned Ready(result)

  datatype State = State(
    result: int,
    done: bool,
    waker: Option<nat>,
    completer: Completer,
    poller: Poller,
    woken: Option<nat>)         // the waker on which `wake` was called, if any

  datatype Action = Complete(value: int) | CompleterStep | Poll(waker: nat) | PollerStep

  predicate Enabled(s: State, a: Action)
  {
    match a
    case Complete(_) => s.completer.Running?
    case CompleterStep => !s.completer.Running? && !s.completer.Finished?
    case Poll(_) => s.poller.NotPolled? || s.poller.Pending?
    case PollerStep => s.poller.Checking? || s.poller.Registering? || s.poller.Rechecking? || s.poller.Reading?
  }

  function Step(s: State, a: Action): State
    requires Enabled(s, a)
  {
    match a
    case Complete(v) => s.(completer := StoreResult(v))
    case CompleterStep =>
      (match s.completer
       case StoreResult(v) => s.(result := v, completer := StoreDone(v))
       case StoreDone(v) => s.(done := true, completer := TakeWaker(v))
       case TakeWaker(v) => s.(waker := None, completer := CallWake(v, s.waker))
       case CallWake(v, taken) => s.(woken := if taken.Some? then taken else s.woken, completer := Finished(v)))
    case Poll(w) => s.(poller := Checking(w))
    case PollerStep =>
      (match s.poller
       case Checking(w) => s.(poller := if s.done then Reading else Registering(w))
       case Registering(w) => s.(waker := Some(w), poller := Rechecking(w))
       case Rechecking(w) => s.(poller := if s.done then Reading else Pending(w))
       case Reading => s.(poller := Ready(s.result)))
  }

  ghost predicate Init(s: State)
  {
    s == State(0, false, None, Running, NotPolled, None)
  }

  ghost predicate IsRun(states: seq<State>, actions: seq<Action>)
  {
    && |states| == |actions| + 1
    && Init(states[0])
    && (forall k | 0 <= k < |actions| :: Enabled(states[k], actions[k]) && states[k + 1] == Step(states[k], actions[k]))
  }

  /** The waker a Pending future left behind is in the slot until the completer takes it, and then
      it is the one the completer wakes. */
  ghost predicate WakerKept(s: State, w: nat)
  {
    match s.completer
    case CallWake(_, taken) => taken == Some(w)
    case Finished(_) => s.woken == Some(w)
    case _ => s.waker == Some(w)
  }

  ghost predicate Inv(s: State)
  {
    && (s.done <==> s.completer.TakeWaker? || s.completer.CallWake? || s.completer.Finished?)
    && (s.completer.StoreDone? || s.done ==> s.result == s.completer.value)
    && (s.poller.Pending? ==> WakerKept(s, s.poller.waker))
    && (s.poller.Rechecking? && !s.done ==> WakerKept(s, s.poller.waker))
    && (s.poller.Reading? ==> s.done)
    && (s.poller.Ready? ==> s.done && s.poller.result == s.completer.value)
  }

  lemma StepKeeps(s: State, a: Action)
    requires Inv(s) && Enabled(s, a)
    ensures Inv(Step(s, a))
  {
  }

  lemma {:induction false} RunInv(states: seq<State>, actions: seq<Action>, k: nat)
    requires IsRun(states, actions) && k < |states|
    ensures Inv(states[k])
  {
    if k > 0 {
      RunInv(states, actions, k - 1);
      StepKeeps(states[k - 1], actions[k - 1]);
    }
  }

  /** The waker of the last poll begun before action k. */
  function LastWaker(actions: seq<Action>, k: nat): Option<nat>
    requires k <= |actions|
  {
    if k == 0 then None
    else if actions[k - 1].Poll? then Some(actions[k - 1].waker)
    else LastWaker(actions, k - 1)
  }

  lemma {:induction false} CarriesWaker(states: seq<State>, actions: seq<Action>, k: nat)
    requires IsRun(states, actions) && k < |states|
    ensures var p := states[k].poller;
            p.Checking? || p.Registering? || p.Rechecking? || p.Pending? ==> LastWaker(actions, k) == Some(p.waker)
  {
    if k > 0 { CarriesWaker(states, actions, k - 1); }
  }

  /** No lost wake: once completion has finished, a future whose last poll returned Pending has been
      woken, through the waker handed to that very poll. */
  lemma PendingIsWoken(states: seq<State>, actions: seq<Action>, k: nat)
    requires IsRun(states, actions) && k < |states|
    requires states[k].completer.Finished? && states[k].poller.Pending?
    ensures states[k].woken.Some? && states[k].woken == Some(states[k].poller.waker) == LastWaker(actions, k)
  {
    RunInv(states, actions, k);
    CarriesWaker(states, actions, k);
  }

  /** Ready carries the value the operation produced for this request, and only after it did. */
  lemma ReadyCarriesValue(states: seq<State>, actions: seq<Action>, j: nat, k: nat, v: int)
    requires IsRun(states, actions) && j < |actions| && actions[j] == Complete(v)
    requires k < |states| && states[k].poller.Ready?
    ensures j < k && states[k].poller.result == v
  {
    RunInv(states, actions, k);
    ValueFixed(states, actions, j, k, v);
  }

  /** An operation completes once: before Complete(v) the completer is idle, afterwards it holds v. */
  lemma {:induction false} ValueFixed(states: seq<State>, actions: seq<Action>, j: nat, k: nat, v: int)
    requires IsRun(states, actions) && j < |actions| && actions[j] == Complete(v) && k < |states|
    ensures j < k ==> !states[k].completer.Running? && states[k].completer.value == v
    ensures k <= j ==> states[k].completer.Running?
    decreases if k <= j then j - k else k - j
  {
    if k < j {
      ValueFixed(states, actions, j, k + 1, v);
    } else if j < k {
      ValueFixed(states, actions, j, k - 1, v);
    }
  }

  /** Steps of the poller from action k up to action j. */
  function PollerSteps(actions: seq<Action>, k: nat, j: nat): nat
    requires k <= j <= |actions|
  {
    if j == k then 0 else PollerSteps(actions, k, j - 1) + if actions[j - 1].PollerStep? then 1 else 0
  }

  /** A poll that begins when completion has been published is Ready after two steps of its own, with
      the completed value, whatever the completer does in between; until then it can go on. */
  lemma {:induction false} PollAfterCompletionIsReady(states: seq<State>, actions: seq<Action>, k: nat, j: nat)
    requires IsRun(states, actions) && k <= j < |states| && states[k].done && states[k].poller.Checking?
    ensures !states[k].completer.Running? && PollerSteps(actions, k, j) <= 2
    ensures states[j].poller == match PollerSteps(actions, k, j)
                                case 0 => states[k].poller
                                case 1 => Reading
                                case _ => Ready(states[k].completer.value)
    ensures states[j].done && !states[j].completer.Running? && states[j].completer.value == states[k].completer.value
    ensures PollerSteps(actions, k, j) < 2 ==> Enabled(states[j], PollerStep)
    decreases j - k
  {
    RunInv(states, actions, j);
    if k < j {
      PollAfterCompletionIsReady(states, actions, k, j - 1);
      RunInv(states, actions, j - 1);
    }
  }
}
