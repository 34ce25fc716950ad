/** The single-producer / single-consumer byte ring of the PTY slave input, stepped at every load
    and store of `push` and `pop`, with 64-bit wrapping indices.

    The two cores interleave arbitrarily; the acquire/release pairs on `head` and `tail` make this
    interleaving of single accesses the right granularity. */
module Spsc {
  import opened Common

  const CAP: nat := 4096

  function WrappingSub(a: nat, b: nat): nat
  {
    (a - b) % U64_SIZE
  }

  function WrappingAdd(a: nat, b: nat): nat
  {
    (a + b) % U64_SIZE
  }

  /** Program point of the producer inside `push(b)`. */
  datatype Producer =
    | PIdle
    | PLoadHead(b: Byte)
    | PLoadTail(b: Byte, head: nat)
    | PTest(b: Byte, head: nat, tail: nat)
    | PWrite(b: Byte, head: nat)
    | PPublish(b: Byte, head: nat)

  /** Program point of the consumer inside `pop()`. */
  datatype Consumer =
    | CIdle
    | CLoadHead(tail: nat)
    | CTest(tail: nat, head: nat)
    | CRead(tail: nat)
    | CPublish(tail: nat, b: Byte)

  datatype State = State(
    buf: seq<Byte>,
    head: nat,
    tail: nat,
    producer: Producer,
    consumer: Consumer,
    accepted: seq<Byte>,   // bytes for which push returned true, in order
    popped: seq<Byte>)     // bytes returned by pop, in order

  datatype Action = Push(b: Byte) | Pop | ProducerStep | ConsumerStep

  predicate Enabled(s: State, a: Action)
  {
    match a
    case Push(_) => s.producer.PIdle?
    case Pop => s.consumer.CIdle?
    case ProducerStep => !s.producer.PIdle?
    case ConsumerStep => !s.consumer.CIdle?
  }

  function ProducerNext(s: State): State
    requires |s.buf| == CAP && !s.producer.PIdle?
  {
    match s.producer
    case PLoadHead(b) => s.(producer := PLoadTail(b, s.head))
    case PLoadTail(b, head) => s.(producer := PTest(b, head, s.tail))
    case PTest(b, head, tail) =>
      s.(producer := if WrappingSub(head, tail) >= CAP then PIdle else PWrite(b, head))
    case PWrite(b, head) => s.(buf := s.buf[head % CAP := b], producer := PPublish(b, head))
    case PPublish(b, head) =>
      s.(head := WrappingAdd(head, 1), producer := PIdle, accepted := s.accepted + [b])
  }

  function ConsumerNext(s: State): State
    requires |s.buf| == CAP && !s.consumer.CIdle?
  {
    match s.consumer
    case CLoadHead(tail) => s.(consumer := CTest(tail, s.head))
    case CTest(tail, head) => s.(consumer := if tail == head then CIdle else CRead(tail))
    case CRead(tail) => s.(consumer := CPublish(tail, s.buf[tail % CAP]))
    case CPublish(tail, b) =>
      s.(tail := WrappingAdd(tail, 1), consumer := CIdle, popped := s.popped + [b])
  }

  function Step(s: State, a: Action): State
    requires |s.buf| == CAP && Enabled(s, a)
  {
    match a
    case Push(b) => s.(producer := PLoadHead(b))
    case Pop => s.(consumer := CLoadHead(s.tail))
    case ProducerStep => ProducerNext(s)
    case ConsumerStep => ConsumerNext(s)
  }

  ghost predicate Init(s: State)
  {
    && |s.buf| == CAP && s.head == 0 && s.tail == 0
    && s.producer.PIdle? && s.consumer.CIdle?
    && s.accepted == [] && s.popped == []
  }

  ghost predicate IsRun(states: seq<State>, actions: seq<Action>)
  {
    && |states| == |actions| + 1
    && Init(states[0])
    && (forall k | 0 <= k < |actions| ::
          |states[k].buf| == CAP && Enabled(states[k], actions[k]) && states[k + 1] == Step(states[k], actions[k]))
  }

  /** The indices count accepted and popped bytes modulo 2^64; at most CAP bytes are in flight, and
      each of them sits in its slot.  A pending write targets a slot holding no unread byte. */
  ghost predicate Inv(s: State)
  {
    var written := |s.accepted|;
    var read := |s.popped|;
    && |s.buf| == CAP
    && s.head == written % U64_SIZE && s.tail == read % U64_SIZE
    && read <= written <= read + CAP
    && s.popped <= s.accepted
    && (forall i | read <= i < written :: s.buf[i % CAP] == s.accepted[i])
    && (match s.producer
        case PIdle => true
        case PLoadHead(_) => true
        case PLoadTail(_, head) => head == s.head
        case PTest(_, head, tail) => head == s.head && exists t: nat :: TailWas(s, tail, t)
        case PWrite(_, head) => head == s.head && written < read + CAP
        case PPublish(b, head) => head == s.head && written < read + CAP && s.buf[written % CAP] == b)
    && (match s.consumer
        case CIdle => true
        case CLoadHead(tail) => tail == s.tail
        case CTest(tail, head) => tail == s.tail && exists h: nat :: HeadWas(s, head, h)
        case CRead(tail) => tail == s.tail && read < written
        case CPublish(tail, b) => tail == s.tail && read < written && b == s.accepted[read])
  }

  /** The loaded tail is that of an earlier moment, when t bytes had been popped. */
  ghost predicate TailWas(s: State, tail: nat, t: nat)
  {
    t <= |s.popped| && |s.accepted| <= t + CAP && tail == t % U64_SIZE
  }

  /** The loaded head is that of an earlier moment, when h bytes had been accepted. */
  ghost predicate HeadWas(s: State, head: nat, h: nat)
  {
    |s.popped| <= h <= |s.accepted| && head == h % U64_SIZE
  }

  /** Distances below 2^64 survive the reduction of both ends. */
  lemma WrapDistance(a: nat, b: nat)
    requires b <= a < b + U64_SIZE
    ensures WrappingSub(a % U64_SIZE, b % U64_SIZE) == a - b
  {
    var qa, qb := a / U64_SIZE, b / U64_SIZE;
    assert a % U64_SIZE - b % U64_SIZE == (a - b) - (qa - qb) * U64_SIZE;
    assert qa == qb || qa == qb + 1;
  }

  lemma WrapNext(a: nat)
    ensures WrappingAdd(a % U64_SIZE, 1) == (a + 1) % U64_SIZE
    ensures a % U64_SIZE % CAP == a % CAP
  {
    assert U64_SIZE == CAP * 0x10_0000_0000_0000;
    var q := a / U64_SIZE;
    assert a == q * U64_SIZE + a % U64_SIZE;
    assert a == (q * 0x10_0000_0000_0000) * CAP + a % U64_SIZE;
    ModCap(a % U64_SIZE, q * 0x10_0000_0000_0000);
  }

  lemma ModCap(r: nat, m: nat)
    ensures (m * CAP + r) % CAP == r % CAP
  {
  }

  /** Distinct in-flight positions use distinct slots. */
  lemma SlotsDistinct(i: nat, j: nat)
    requires i < j < i + CAP
    ensures i % CAP != j % CAP
  {
  }

  lemma ProducerKeeps(s: State)
    requires Inv(s) && !s.producer.PIdle?
    ensures Inv(ProducerNext(s))
  {
    var s' := ProducerNext(s);
    WrapNext(|s.accepted|);
    LoadsStayExplained(s, s');
    match s.producer
    case PLoadTail(b, head) =>
      assert TailWas(s', s.tail, |s.popped|);
    case PTest(b, head, tail) =>
      var t :| TailWas(s, tail, t);
      WrapDistance(|s.accepted|, t);
    case PWrite(b, head) =>
      forall i | |s.popped| <= i < |s.accepted|
        ensures s'.buf[i % CAP] == s'.accepted[i]
      {
        SlotsDistinct(i, |s.accepted|);
      }
    case PPublish(b, head) =>
      forall i | |s'.popped| <= i < |s'.accepted|
        ensures s'.buf[i % CAP] == s'.accepted[i]
      {
      }
    case _ =>
  }

  /** What was loaded stays explained by the same earlier moment. */
  lemma LoadsStayExplained(s: State, s': State)
    requires |s.popped| <= |s'.popped| && |s.accepted| <= |s'.accepted|
    ensures s'.popped == s.popped ==> forall x, h :: HeadWas(s, x, h) ==> HeadWas(s', x, h)
    ensures s'.accepted == s.accepted ==> forall x, t :: TailWas(s, x, t) ==> TailWas(s', x, t)
  {
  }

  lemma ConsumerKeeps(s: State)
    requires Inv(s) && !s.consumer.CIdle?
    ensures Inv(ConsumerNext(s))
  {
    var s' := ConsumerNext(s);
    WrapNext(|s.popped|);
    LoadsStayExplained(s, s');
    match s.consumer
    case CLoadHead(tail) =>
      assert HeadWas(s', s.head, |s.accepted|);
    case CTest(tail, head) =>
      var h :| HeadWas(s, head, h);
      WrapDistance(h, |s.popped|);
    case _ =>
  }

  lemma {:induction false} RunInv(states: seq<State>, actions: seq<Action>, k: nat)
    requires IsRun(states, actions) && k < |states|
    ensures Inv(states[k])
  {
    if k > 0 {
      RunInv(states, actions, k - 1);
      LoadsStayExplained(states[k - 1], states[k]);
      match actions[k - 1]
      case ProducerStep => ProducerKeeps(states[k - 1]);
      case ConsumerStep => ConsumerKeeps(states[k - 1]);
      case _ =>
    }
  }

  /** FIFO, no loss, no duplication: at every moment the popped bytes are the first ones accepted,
      and at most CAP accepted bytes are still unread. */
  lemma PoppedIsPrefixOfAccepted(states: seq<State>, actions: seq<Action>, k: nat)
    requires IsRun(states, actions) && k < |states|
    ensures states[k].popped <= states[k].accepted
    ensures |states[k].accepted| - |states[k].popped| <= CAP
  {
    RunInv(states, actions, k);
  }

  /** A producer about to write never overwrites an unread byte, and never touches the slot the
      consumer is about to read. */
  lemma WriteHitsNoUnreadSlot(states: seq<State>, actions: seq<Action>, k: nat, i: nat)
    requires IsRun(states, actions) && k < |states| && states[k].producer.PWrite?
    requires |states[k].popped| <= i < |states[k].accepted|
    ensures states[k].producer.head % CAP != i % CAP
    ensures states[k].consumer.CRead? ==> states[k].producer.head % CAP != states[k].consumer.tail % CAP
  {
    RunInv(states, actions, k);
    var s := states[k];
    WrapNext(|s.accepted|);
    WrapNext(|s.popped|);
    SlotsDistinct(i, |s.accepted|);
    if s.consumer.CRead? {
      SlotsDistinct(|s.popped|, |s.accepted|);
    }
  }

  /** The step at which the push under way read `tail`. */
  lemma {:induction false} TailLoad(states: seq<State>, actions: seq<Action>, k: nat) returns (j: nat)
    requires IsRun(states, actions) && k < |states| && states[k].producer.PTest?
    ensures j < k && actions[j] == ProducerStep && states[j].producer.PLoadTail?
    ensures forall i | j < i <= k :: states[i].producer == states[k].producer
    ensures states[k].producer.tail == states[j].tail && states[k].producer.head == states[j].producer.head
  {
    j := k - 1;
    if actions[k - 1] != ProducerStep {
      j := TailLoad(states, actions, k - 1);
    }
  }

  /** The step at which the pop under way read `head`. */
  lemma {:induction false} HeadLoad(states: seq<State>, actions: seq<Action>, k: nat) returns (j: nat)
    requires IsRun(states, actions) && k < |states| && states[k].consumer.CTest?
    ensures j < k && actions[j] == ConsumerStep && states[j].consumer.CLoadHead?
    ensures forall i | j < i <= k :: states[i].consumer == states[k].consumer
    ensures states[k].consumer.head == states[j].head && states[k].consumer.tail == states[j].consumer.tail
  {
    j := k - 1;
    if actions[k - 1] != ConsumerStep {
      j := HeadLoad(states, actions, k - 1);
    }
  }

  predicate Full(s: State) { |s.accepted| == |s.popped| + CAP }
  predicate Empty(s: State) { |s.accepted| == |s.popped| }

  /** `push` refuses a byte exactly when the ring was full at the step at which it read `tail`. */
  lemma PushRefusalHonest(states: seq<State>, actions: seq<Action>, k: nat) returns (j: nat)
    requires IsRun(states, actions) && k < |states| && states[k].producer.PTest?
    ensures j < k && actions[j] == ProducerStep && states[j].producer.PLoadTail?
    ensures forall i | j < i <= k :: states[i].producer == states[k].producer
    ensures |states[k].buf| == CAP && (Step(states[k], ProducerStep).producer.PIdle? <==> Full(states[j]))
  {
    j := TailLoad(states, actions, k);
    RunInv(states, actions, j);
    RunInv(states, actions, k);
    WrapDistance(|states[j].accepted|, |states[j].popped|);
  }

  /** `pop` returns None exactly when the ring was empty at the step at which it read `head`. */
  lemma PopRefusalHonest(states: seq<State>, actions: seq<Action>, k: nat) returns (j: nat)
    requires IsRun(states, actions) && k < |states| && states[k].consumer.CTest?
    ensures j < k && actions[j] == ConsumerStep && states[j].consumer.CLoadHead?
    ensures forall i | j < i <= k :: states[i].consumer == states[k].consumer
    ensures |states[k].buf| == CAP && (Step(states[k], ConsumerStep).consumer.CIdle? <==> Empty(states[j]))
  {
    j := HeadLoad(states, actions, k);
    RunInv(states, actions, j);
    RunInv(states, actions, k);
    WrapDistance(|states[j].accepted|, |states[j].popped|);
  }

  // ----- the bytes themselves -----------------------------------------------------------------

  /** The argument of the last push begun before action k. */
  function LastPush(actions: seq<Action>, k: nat): Option<Byte>
    requires k <= |actions|
  {
    if k == 0 then None
    else if actions[k - 1].Push? then Some(actions[k - 1].b)
    else LastPush(actions, k - 1)
  }

  /** The bytes handed to the pushes during which `head` moved, in the order in which it did. */
  function Published(states: seq<State>, actions: seq<Action>, k: nat): seq<Byte>
    requires |states| == |actions| + 1 && k < |states|
  {
    if k == 0 then []
    else
      var last := LastPush(actions, k - 1);
      Published(states, actions, k - 1) + if states[k].head != states[k - 1].head && last.Some? then [last.value] else []
  }

  /** A push under way carries the byte it was called with. */
  lemma {:induction false} CarriesArgument(states: seq<State>, actions: seq<Action>, k: nat)
    requires IsRun(states, actions) && k < |states|
    ensures !states[k].producer.PIdle? ==> LastPush(actions, k) == Some(states[k].producer.b)
  {
    if k > 0 { CarriesArgument(states, actions, k - 1); }
  }

  lemma HeadMoves(s: State, a: Action)
    requires Inv(s) && Enabled(s, a)
    ensures var s' := Step(s, a);
            && (s'.head != s.head <==> a == ProducerStep && s.producer.PPublish?)
            && s'.accepted == s.accepted + if s'.head != s.head then [s.producer.b] else []
  {
  }

  lemma {:induction false} AcceptedIsPublished(states: seq<State>, actions: seq<Action>, k: nat)
    requires IsRun(states, actions) && k < |states|
    ensures states[k].accepted == Published(states, actions, k)
  {
    if k > 0 {
      AcceptedIsPublished(states, actions, k - 1);
      CarriesArgument(states, actions, k - 1);
      RunInv(states, actions, k - 1);
      HeadMoves(states[k - 1], actions[k - 1]);
    }
  }

  /** Pops return the pushed bytes: what has been popped is a prefix of the arguments of the pushes that
      were published, in order. */
  lemma PopsReturnPushedBytes(states: seq<State>, actions: seq<Action>, k: nat)
    requires IsRun(states, actions) && k < |states|
    ensures states[k].popped <= Published(states, actions, k)
    ensures |Published(states, actions, k)| - |states[k].popped| <= CAP
  {
    PoppedIsPrefixOfAccepted(states, actions, k);
    AcceptedIsPublished(states, actions, k);
  }

  /** No push is published twice, and none that is refused: `head` moves only at the last step of a push,
      and a push that ends without that found the ring full. */
  lemma PublishedAtTheEnd(states: seq<State>, actions: seq<Action>, k: nat)
    requires IsRun(states, actions) && k < |actions|
    ensures states[k + 1].head != states[k].head ==> !states[k].producer.PIdle? && states[k + 1].producer.PIdle?
    ensures !states[k].producer.PIdle? && states[k + 1].producer.PIdle? ==>
              states[k + 1].head != states[k].head || states[k].producer.PTest?
    ensures states[k].producer.PIdle? && !states[k + 1].producer.PIdle? ==> actions[k].Push?
  {
    RunInv(states, actions, k);
    HeadMoves(states[k], actions[k]);
  }
}
