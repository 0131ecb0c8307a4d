/**
 The DingTalk stream connection: frame routing, the unbounded queue with its one-slot wake channel,
 and the serial dispatcher that acknowledges bot messages (edge/internal/dingtalk/stream.go).
 */
module DingtalkQueue {
  import opened Texts

  datatype FrameType = System | Event | Callback | Other
  datatype Topic = Ping | Disconnect | BotMessage | CardCallback | OtherTopic
  datatype Frame = Frame(messageId: string, kind: FrameType, topic: Topic, data: string)

  /** What the read loop does with one frame, on the spot. */
  datatype Route = Route(ackData: Option<string>, enqueue: bool, stop: bool)

  const EVENT_OK := "{\"status\":\"SUCCESS\",\"message\":\"success\"}"
  const CALLBACK_OK := "{\"response\":{}}"

  function RouteOf(f: Frame): Route {
    match f.kind
    case System => Route(Some(f.data), false, f.topic == Disconnect)
    case Event => Route(Some(EVENT_OK), false, false)
    case Callback => if f.topic == BotMessage then Route(None, true, false) else Route(Some(CALLBACK_OK), false, false)
    case Other => Route(Some(""), false, false)
  }

  datatype Ack = Ack(messageId: string, code: int, data: string)

  /** The frame queue and the wake slot, as the producer and the dispatcher share them. */
  class StreamQueue {
    var queue: seq<Frame>
    var wake: bool

    constructor ()
      ensures queue == [] && !wake
    {
      queue, wake := [], false;
    }

    method Append(f: Frame)
      modifies this`queue
      ensures queue == old(queue) + [f]
    {
      queue := queue + [f];
    }

    /** The non-blocking send: dropped when the slot is full. */
    method Signal()
      modifies this`wake
      ensures wake
    {
      if !wake { wake := true; }
    }

    method Dequeue() returns (f: Option<Frame>)
      modifies this`queue
      ensures old(queue) == [] ==> f == None && queue == []
      ensures old(queue) != [] ==> f.Some? && [f.value] + queue == old(queue)
    {
      if |queue| == 0 { return None; }
      f := Some(queue[0]);
      queue := queue[1..];
    }
  }
}

module DingtalkStream {
  import opened Texts
  import opened DingtalkQueue

  datatype Producer = Reading | Appended | Stopped
  datatype Consumer = Checking | Dequeuing | Sleeping | Handling(f: Frame) | Replying(f: Frame, ok: bool) | Exited

  datatype State = State(
    queue: seq<Frame>,
    wake: bool,
    closed: bool,
    producer: Producer,
    consumer: Consumer,
    received: seq<Frame>,             // every frame the read loop decoded, in order
    handled: seq<(Frame, bool)>,      // bot messages the sink has answered, and whether it returned nil
    readerAcks: seq<Ack>,
    dispatcherAcks: seq<Ack>)

  datatype Action =
    | Receive(f: Frame)     // decode and route; a bot message is appended to the queue
    | SendToken             // the second half of `enqueue`
    | FailRead
    | Close
    | PassCheck | ExitCheck
    | Take
    | Wake | ExitSleep
    | Return(ok: bool)      // the handler returns
    | Reply

  function Init(): State { State([], false, false, Reading, Checking, [], [], [], []) }

  predicate Enabled(s: State, a: Action) {
    match a
    case Receive(_) => s.producer == Reading
    case SendToken => s.producer == Appended
    case FailRead => s.producer == Reading
    case Close => true
    case PassCheck => s.consumer == Checking && !s.closed
    case ExitCheck => s.consumer == Checking && s.closed
    case Take => s.consumer == Dequeuing
    case Wake => s.consumer == Sleeping && s.wake
    case ExitSleep => s.consumer == Sleeping && s.closed
    case Return(_) => s.consumer.Handling?
    case Reply => s.consumer.Replying?
  }

  function Step(s: State, a: Action): State
    requires Enabled(s, a)
  {
    match a
    case Receive(f) =>
      var r := RouteOf(f);
      s.(received := s.received + [f],
         readerAcks :=
           if r.ackData.Some? then s.readerAcks + [Ack(f.messageId, 200, r.ackData.value)] else s.readerAcks,
         queue := if r.enqueue then s.queue + [f] else s.queue,
         producer := if r.enqueue then Appended else if r.stop then Stopped else Reading)
    case SendToken => s.(wake := true, producer := Reading)
    case FailRead => s.(producer := Stopped)
    case Close => s.(closed := true)
    case PassCheck => s.(consumer := Dequeuing)
    case ExitCheck => s.(consumer := Exited)
    case Take =>
      if s.queue == [] then s.(consumer := Sleeping)
      else s.(queue := s.queue[1..], consumer := Handling(s.queue[0]))
    case Wake => s.(wake := false, consumer := Checking)
    case ExitSleep => s.(consumer := Exited)
    case Return(ok) => s.(handled := s.handled + [(s.consumer.f, ok)], consumer := Replying(s.consumer.f, ok))
    case Reply =>
      s.(dispatcherAcks := s.dispatcherAcks + [AckOf((s.consumer.f, s.consumer.ok))], consumer := Checking)
  }

  function AckOf(h: (Frame, bool)): Ack {
    if h.1 then Ack(h.0.messageId, 200, CALLBACK_OK) else Ack(h.0.messageId, 500, "")
  }

  ghost predicate IsRun(states: seq<State>, acts: seq<Action>) {
    && |states| == |acts| + 1 && states[0] == Init()
    && forall i | 0 <= i < |acts| :: Enabled(states[i], acts[i]) && states[i + 1] == Step(states[i], acts[i])
  }

  predicate IsBot(f: Frame) { f.kind == Callback && f.topic == BotMessage }

  function Bots(fs: seq<Frame>): seq<Frame> {
    if fs == [] then [] else Bots(fs[..|fs| - 1]) + (if IsBot(fs[|fs| - 1]) then [fs[|fs| - 1]] else [])
  }

  /** What the read loop owes for a frame it keeps to itself; a bot message is the dispatcher's. */
  function ReaderAck(f: Frame): seq<Ack> {
    if IsBot(f) then []
    else [Ack(f.messageId, 200, if f.kind == System then f.data else if f.kind == Event then EVENT_OK
                                else if f.kind == Callback then CALLBACK_OK else "")]
  }

  function ReaderAcks(fs: seq<Frame>): seq<Ack> {
    if fs == [] then [] else ReaderAcks(fs[..|fs| - 1]) + ReaderAck(fs[|fs| - 1])
  }

  function Firsts(hs: seq<(Frame, bool)>): (fs: seq<Frame>)
    ensures |fs| == |hs|
  {
    seq(|hs|, i requires 0 <= i < |hs| => hs[i].0)
  }

  function AcksOf(hs: seq<(Frame, bool)>): (r: seq<Ack>)
    ensures |r| == |hs|
  {
    seq(|hs|, i requires 0 <= i < |hs| => AckOf(hs[i]))
  }

  function InHand(c: Consumer): seq<Frame> { if c.Handling? then [c.f] else [] }

  /** Handled, in hand and queued frames are together the bot messages received, in order. */
  ghost predicate Conserved(s: State) {
    Firsts(s.handled) + InHand(s.consumer) + s.queue == Bots(s.received)
  }

  /** Each handled frame is acknowledged once, with the code its handler earned; the last may still be owed. */
  ghost predicate Acknowledged(s: State) {
    && s.readerAcks == ReaderAcks(s.received)
    && (s.consumer.Replying? ==>
          s.handled != [] && s.handled[|s.handled| - 1] == (s.consumer.f, s.consumer.ok)
          && s.dispatcherAcks == AcksOf(s.handled[..|s.handled| - 1]))
    && (!s.consumer.Replying? ==> s.dispatcherAcks == AcksOf(s.handled))
  }

  ghost predicate NoLostWakeUp(s: State) {
    s.consumer == Sleeping && s.queue != [] ==> s.wake || s.producer == Appended
  }

  ghost predicate Inv(s: State) { Conserved(s) && Acknowledged(s) && NoLostWakeUp(s) }

  lemma ReceiveConserves(s: State, f: Frame)
    requires Conserved(s) && s.producer == Reading
    ensures Conserved(Step(s, Receive(f)))
  {
    var s' := Step(s, Receive(f));
    assert s'.received[..|s.received|] == s.received;
    assert IsBot(f) <==> RouteOf(f).enqueue;
    var before := Firsts(s.handled) + InHand(s.consumer);
    if IsBot(f) { Assoc(before, s.queue, [f]); } else { assert Bots(s'.received) == Bots(s.received) + []; }
  }

  lemma TakeConserves(s: State)
    requires Conserved(s) && s.consumer == Dequeuing
    ensures Conserved(Step(s, Take))
  {
    if s.queue != [] {
      Assoc(Firsts(s.handled), [], s.queue);
      Assoc(Firsts(s.handled), [s.queue[0]], s.queue[1..]);
      assert s.queue == [s.queue[0]] + s.queue[1..] == [] + s.queue;
    }
  }

  lemma ReturnConserves(s: State, ok: bool)
    requires Conserved(s) && s.consumer.Handling?
    ensures Conserved(Step(s, Return(ok)))
  {
    var s' := Step(s, Return(ok));
    assert Firsts(s'.handled) == Firsts(s.handled) + [s.consumer.f];
    assert Firsts(s'.handled) + [] == Firsts(s'.handled);
  }

  lemma StepKeepsConserved(s: State, a: Action)
    requires Conserved(s) && Enabled(s, a)
    ensures Conserved(Step(s, a))
  {
    match a
    case Receive(f) => ReceiveConserves(s, f);
    case Take => TakeConserves(s);
    case Return(ok) => ReturnConserves(s, ok);
    case _ => assert InHand(Step(s, a).consumer) == InHand(s.consumer);
  }

  lemma ReplyKeepsAcknowledged(s: State)
    requires Acknowledged(s) && s.consumer.Replying?
    ensures Acknowledged(Step(s, Reply))
  {
    var n := |s.handled| - 1;
    assert s.handled == s.handled[..n] + [s.handled[n]];
    assert AcksOf(s.handled) == AcksOf(s.handled[..n]) + [AckOf(s.handled[n])];
  }

  lemma ReceiveKeepsAcknowledged(s: State, f: Frame)
    requires Acknowledged(s) && s.producer == Reading
    ensures Acknowledged(Step(s, Receive(f)))
  {
    var s' := Step(s, Receive(f));
    assert s'.readerAcks == s.readerAcks + ReaderAck(f);
    ReaderAcksSnoc(s.received, f);
  }

  lemma ReaderAcksSnoc(fs: seq<Frame>, f: Frame)
    ensures ReaderAcks(fs + [f]) == ReaderAcks(fs) + ReaderAck(f)
  {
    assert (fs + [f])[..|fs|] == fs;
  }

  lemma StepKeepsAcknowledged(s: State, a: Action)
    requires Acknowledged(s) && Enabled(s, a)
    ensures Acknowledged(Step(s, a))
  {
    match a
    case Receive(f) => ReceiveKeepsAcknowledged(s, f);
    case Return(ok) => assert Step(s, a).handled[..|s.handled|] == s.handled;
    case Reply => ReplyKeepsAcknowledged(s);
    case _ =>
  }

  lemma StepLosesNoWakeUp(s: State, a: Action)
    requires NoLostWakeUp(s) && Enabled(s, a)
    ensures NoLostWakeUp(Step(s, a))
  {
  }

  lemma {:induction false} RunKeepsInv(states: seq<State>, acts: seq<Action>, k: nat)
    requires IsRun(states, acts) && k < |states|
    ensures Inv(states[k])
    decreases k
  {
    if k > 0 {
      RunKeepsInv(states, acts, k - 1);
      StepKeepsConserved(states[k - 1], acts[k - 1]);
      StepKeepsAcknowledged(states[k - 1], acts[k - 1]);
      StepLosesNoWakeUp(states[k - 1], acts[k - 1]);
    }
  }

  /** A dispatcher asleep over a non-empty queue has a token waiting or a producer about to send one. */
  lemma SleepsOnlyOverEmptyOrSignalledQueue(states: seq<State>, acts: seq<Action>, k: nat)
    requires IsRun(states, acts) && k < |states|
    ensures states[k].consumer == Sleeping && states[k].queue != [] ==>
      Enabled(states[k], Wake) || Enabled(states[k], SendToken)
  {
    RunKeepsInv(states, acts, k);
  }

  /**
   Bot messages are handled in arrival order without gaps, and acknowledged in that order, once
   each, with 200 exactly when the handler returned nil; every other frame was acknowledged with
   200 by the read loop, once, in arrival order.
   */
  lemma EveryFrameAnsweredOnceInOrder(states: seq<State>, acts: seq<Action>, k: nat)
    requires IsRun(states, acts) && k < |states|
    ensures var s := states[k];
      && Firsts(s.handled) <= Bots(s.received)
      && |s.dispatcherAcks| <= |s.handled| <= |s.dispatcherAcks| + 1
      && (forall i | 0 <= i < |s.dispatcherAcks| ::
            && s.dispatcherAcks[i].messageId == Bots(s.received)[i].messageId
            && (s.dispatcherAcks[i].code == 200 <==> s.handled[i].1)
            && (s.dispatcherAcks[i].code == 500 <==> !s.handled[i].1))
      && s.readerAcks == ReaderAcks(s.received)
      && (forall i | 0 <= i < |s.readerAcks| :: s.readerAcks[i].code == 200)
      && |s.readerAcks| + |Bots(s.received)| == |s.received|
  {
    RunKeepsInv(states, acts, k);
    ReaderAcksCount(states[k].received);
    HandledInOrder(states[k]);
    AcknowledgedInOrder(states[k]);
  }

  lemma HandledInOrder(s: State)
    requires Conserved(s)
    ensures Firsts(s.handled) <= Bots(s.received)
    ensures |s.handled| <= |Bots(s.received)|
    ensures forall i | 0 <= i < |s.handled| :: Bots(s.received)[i] == s.handled[i].0
  {
    Assoc(Firsts(s.handled), InHand(s.consumer), s.queue);
    assert forall i | 0 <= i < |s.handled| :: Firsts(s.handled)[i] == s.handled[i].0;
  }

  lemma AcknowledgedInOrder(s: State)
    requires Acknowledged(s)
    ensures |s.dispatcherAcks| <= |s.handled| <= |s.dispatcherAcks| + 1
    ensures forall i | 0 <= i < |s.dispatcherAcks| :: s.dispatcherAcks[i] == AckOf(s.handled[i])
  {
  }

  lemma {:induction false} ReaderAcksCount(fs: seq<Frame>)
    ensures |ReaderAcks(fs)| + |Bots(fs)| == |fs|
    ensures forall i | 0 <= i < |ReaderAcks(fs)| :: ReaderAcks(fs)[i].code == 200
  {
    if fs != [] { ReaderAcksCount(fs[..|fs| - 1]); }
  }

  /** After the connection closed and the dispatcher left, what is still queued is never acknowledged. */
  lemma {:induction false} NothingAcknowledgedAfterExit(states: seq<State>, acts: seq<Action>, i: nat, j: nat)
    requires IsRun(states, acts) && i <= j < |states| && states[i].consumer == Exited
    ensures states[j].consumer == Exited && states[j].dispatcherAcks == states[i].dispatcherAcks
    ensures states[i].queue <= states[j].queue
    decreases j - i
  {
    if i < j {
      NothingAcknowledgedAfterExit(states, acts, i, j - 1);
      assert Enabled(states[j - 1], acts[j - 1]);
    }
  }

  /** The read loop has ended exactly when a read failed or the server asked to disconnect. */
  lemma {:induction false} StoppedIff(states: seq<State>, acts: seq<Action>, k: nat)
    requires IsRun(states, acts) && k < |states|
    ensures states[k].producer == Stopped <==> exists j :: 0 <= j < k && EndsReading(acts[j])
    decreases k
  {
    if k > 0 {
      StoppedIff(states, acts, k - 1);
      assert Enabled(states[k - 1], acts[k - 1]) && states[k] == Step(states[k - 1], acts[k - 1]);
    }
  }

  predicate EndsReading(a: Action) {
    a == FailRead || (a.Receive? && a.f.kind == System && a.f.topic == Disconnect)
  }

  /** Nothing is received after that, and until then only the token of a queued bot message delays the next read. */
  lemma ReceivesUntilStopped(states: seq<State>, acts: seq<Action>, k: nat, f: Frame)
    requires IsRun(states, acts) && k < |states|
    ensures Enabled(states[k], Receive(f)) <==>
      (forall j | 0 <= j < k :: !EndsReading(acts[j])) && !Enabled(states[k], SendToken)
  {
    StoppedIff(states, acts, k);
  }

  /** What each acknowledgement carries: the frame's own data for a system frame, a fixed answer for the others. */
  lemma AcksSpelled(f: Frame, ok: bool)
    ensures ReaderAck(f) ==
      if f.kind == Callback && f.topic == BotMessage then []
      else [Ack(f.messageId, 200,
        if f.kind == System then f.data
        else if f.kind == Event then EVENT_OK
        else if f.kind == Callback then CALLBACK_OK
        else "")]
    ensures AckOf((f, ok)) == if ok then Ack(f.messageId, 200, CALLBACK_OK) else Ack(f.messageId, 500, "")
  {
  }
}
