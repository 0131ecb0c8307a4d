/**
 Matching acknowledgements to requests on one WeCom connection (edge/internal/wecom/client.go).

 `Waiters` is the pending table under its mutex: per request id, the waiting requests in the order
 they registered. A waiter is named by its registration number, which is what the one-slot reply
 channel is to the source: an identity nobody else has.
 */
module WecomWaiters {
  import opened Texts

  type Waiter = nat
  type Waiters = map<string, seq<Waiter>>

  datatype Reply = Reply(code: int, msg: string, body: string)

  function QueueOf(p: Waiters, key: string): seq<Waiter> {
    if key in p then p[key] else []
  }

  /** Empty queues are removed from the table, never stored. */
  function Store(p: Waiters, key: string, q: seq<Waiter>): Waiters {
    if q == [] then p - {key} else p[key := q]
  }

  function Register(p: Waiters, key: string, w: Waiter): Waiters {
    p[key := QueueOf(p, key) + [w]]
  }

  /** The queue without the first occurrence of w. */
  function Dropped(q: seq<Waiter>, w: Waiter): seq<Waiter> {
    if q == [] then [] else if q[0] == w then q[1..] else [q[0]] + Dropped(q[1..], w)
  }

  lemma {:induction false} DroppedAt(q: seq<Waiter>, w: Waiter, i: nat)
    requires i <= |q| && (i < |q| ==> q[i] == w) && forall j | 0 <= j < i :: q[j] != w
    ensures Dropped(q, w) == if i < |q| then q[..i] + q[i + 1..] else q
  {
    if i > 0 {
      DroppedAt(q[1..], w, i - 1);
      assert q == [q[0]] + q[1..];
      if i < |q| { assert q[..i] + q[i + 1..] == [q[0]] + (q[1..][..i - 1] + q[1..][i..]); }
    }
  }

  function DropWaiter(p: Waiters, key: string, w: Waiter): Waiters {
    Store(p, key, Dropped(QueueOf(p, key), w))
  }

  function Resolve(p: Waiters, key: string): (Waiters, Option<Waiter>) {
    var q := QueueOf(p, key);
    if q == [] then (p, None) else (Store(p, key, q[1..]), Some(q[0]))
  }

  class PendingTable {
    var pending: map<string, seq<Waiter>>

    constructor ()
      ensures pending == map[]
    {
      pending := map[];
    }

    method RegisterWaiter(key: string, w: Waiter)
      modifies this
      ensures pending == Register(old(pending), key, w)
    {
      pending := pending[key := (if key in pending then pending[key] else []) + [w]];
    }

    method Drop(key: string, w: Waiter)
      modifies this
      ensures pending == DropWaiter(old(pending), key, w)
    {
      var q := if key in pending then pending[key] else [];
      var i := 0;
      while i < |q| && q[i] != w
        invariant i <= |q| && forall j | 0 <= j < i :: q[j] != w
      {
        i := i + 1;
      }
      DroppedAt(q, w, i);
      if i < |q| { q := q[..i] + q[i + 1..]; }
      if |q| == 0 { pending := pending - {key}; } else { pending := pending[key := q]; }
    }

    /** Hands the acknowledgement to the oldest waiter on its key; nobody waiting drops it. */
    method TakeOldest(key: string) returns (w: Option<Waiter>)
      modifies this
      ensures (pending, w) == Resolve(old(pending), key)
    {
      var q := if key in pending then pending[key] else [];
      if |q| == 0 { return None; }
      w := Some(q[0]);
      if |q| == 1 { pending := pending - {key}; } else { pending := pending[key := q[1..]]; }
    }
  }
}

module WecomClient {
  import opened Texts
  import opened WecomWaiters

  /** How a request ended. A lost wait says nothing about delivery. */
  datatype Outcome = Answered(reply: Reply) | NotWritten | GaveUp

  datatype Request = Request(key: string, outcome: Option<Outcome>)

  datatype State = State(
    pending: Waiters,
    requests: seq<Request>,              // by registration number
    slots: map<Waiter, Reply>,           // one-slot channels holding an unread reply
    resolved: map<string, seq<Waiter>>)  // per key, the waiters handed a reply, in order

  datatype Action =
    | Send(key: string)                     // register, then write
    | FailWrite(w: Waiter)                  // the write failed: drop the waiter, return
    | Ack(key: string, reply: Reply)        // the read loop resolves
    | Read(w: Waiter)                       // the request takes its reply
    | GiveUp(w: Waiter)                     // cancelled, timed out or closed: drop the waiter, return

  function Init(): State { State(map[], [], map[], map[]) }

  predicate Open(s: State, w: Waiter) {
    w < |s.requests| && s.requests[w].outcome == None
  }

  predicate Enabled(s: State, a: Action) {
    match a
    case Send(_) => true
    case FailWrite(w) => Open(s, w)
    case Ack(_, _) => true
    case Read(w) => Open(s, w) && w in s.slots
    case GiveUp(w) => Open(s, w)
  }

  function Finished(s: State, w: Waiter, o: Outcome): seq<Request>
    requires w < |s.requests|
  {
    s.requests[w := s.requests[w].(outcome := Some(o))]
  }

  function Step(s: State, a: Action): State
    requires Enabled(s, a)
  {
    match a
    case Send(key) =>
      s.(pending := Register(s.pending, key, |s.requests|), requests := s.requests + [Request(key, None)])
    case FailWrite(w) =>
      s.(pending := DropWaiter(s.pending, s.requests[w].key, w), requests := Finished(s, w, NotWritten))
    case Ack(key, reply) =>
      var (p, w) := Resolve(s.pending, key);
      if w == None then s.(pending := p)
      else s.(pending := p, slots := s.slots[w.value := reply],
              resolved := s.resolved[key := QueueOf(s.resolved, key) + [w.value]])
    case Read(w) => s.(slots := s.slots - {w}, requests := Finished(s, w, Answered(s.slots[w])))
    case GiveUp(w) =>
      s.(pending := DropWaiter(s.pending, s.requests[w].key, w), requests := Finished(s, w, GaveUp))
  }

  ghost predicate IsRun(states: seq<State>, acts: seq<Action>) {
    && |states| == |acts| + 1 && states[0] == Init()
    && forall i | 0 <= i < |acts| :: Enabled(states[i], acts[i]) && states[i + 1] == Step(states[i], acts[i])
  }

  ghost predicate Increasing(q: seq<Waiter>) {
    forall i, j | 0 <= i < j < |q| :: q[i] < q[j]
  }

  /** A queue holds open requests of its own key that have no reply yet, in registration order. */
  ghost predicate QueueOk(s: State, key: string) {
    var q := QueueOf(s.pending, key);
    forall w | w in q :: Open(s, w) && s.requests[w].key == key && w !in s.slots
  }

  /** The waiters of one key that were answered registered, in order, before every one still waiting. */
  ghost predicate OrderOk(s: State, key: string) {
    && Increasing(QueueOf(s.resolved, key) + QueueOf(s.pending, key))
    && forall w | w in QueueOf(s.resolved, key) :: w < |s.requests| && s.requests[w].key == key
  }

  /** Where each request stands: waiting, holding its reply, answered, or gone. */
  ghost predicate WaiterOk(s: State, w: Waiter) {
    w < |s.requests| ==>
      var r := s.requests[w];
      && (r.outcome == None && w !in s.slots ==> w in QueueOf(s.pending, r.key))
      && (w in s.slots || (r.outcome.Some? && r.outcome.value.Answered?) ==> w in QueueOf(s.resolved, r.key))
      && (r.outcome.Some? && r.outcome.value.Answered? ==> w !in s.slots)
  }

  ghost predicate Inv(s: State) {
    && (forall key :: QueueOk(s, key) && OrderOk(s, key))
    && (forall key | key in s.pending :: s.pending[key] != [])
    && (forall w: Waiter :: WaiterOk(s, w))
    && (forall w | w in s.slots :: w < |s.requests|)
  }

  lemma {:induction false} DroppedKeeps(q: seq<Waiter>, w: Waiter)
    requires Increasing(q)
    ensures Increasing(Dropped(q, w))
    ensures forall x :: x in Dropped(q, w) <==> x in q && x != w
  {
    if q != [] {
      var tail := q[1..];
      assert q == [q[0]] + tail;
      DroppedKeeps(tail, w);
      assert forall x | x in tail :: x > q[0];
      if q[0] != w { IncreasingCons(q[0], Dropped(tail, w)); }
    }
  }

  lemma IncreasingCons(x: Waiter, q: seq<Waiter>)
    requires Increasing(q) && forall y | y in q :: y > x
    ensures Increasing([x] + q)
  {
    forall j | 0 <= j < |q| ensures x < q[j] { assert q[j] in q; }
  }

  lemma IncreasingSuffix(a: seq<Waiter>, b: seq<Waiter>)
    requires Increasing(a + b)
    ensures Increasing(b) && forall x, y | x in a && y in b :: x < y
  {
    forall i, j | 0 <= i < j < |b| ensures b[i] < b[j] {
      assert (a + b)[|a| + i] < (a + b)[|a| + j];
    }
    forall x, y | x in a && y in b ensures x < y {
      var i :| 0 <= i < |a| && a[i] == x;
      var j :| 0 <= j < |b| && b[j] == y;
      assert (a + b)[i] < (a + b)[|a| + j];
    }
  }

  lemma IncreasingJoin(a: seq<Waiter>, b: seq<Waiter>, c: seq<Waiter>)
    requires Increasing(a + b) && Increasing(c) && forall x | x in c :: x in b
    ensures Increasing(a + c)
  {
    IncreasingSuffix(a, b);
    forall i, j | 0 <= i < j < |a + c| ensures (a + c)[i] < (a + c)[j] {
      if j < |a| {
        assert (a + b)[i] < (a + b)[j];
      } else if i < |a| {
        assert a[i] in a && c[j - |a|] in b;
      }
    }
  }

  lemma SendKeepsInv(s: State, key: string)
    requires Inv(s)
    ensures Inv(Step(s, Send(key)))
  {
    var s', n := Step(s, Send(key)), |s.requests|;
    forall k ensures QueueOk(s', k) && OrderOk(s', k) {
      assert QueueOk(s, k) && OrderOk(s, k);
      if k == key { RegisterKeepsOrder(s, k); }
    }
    forall w: Waiter ensures WaiterOk(s', w) {
      assert WaiterOk(s, w);
    }
  }

  lemma RegisterKeepsOrder(s: State, key: string)
    requires QueueOk(s, key) && OrderOk(s, key)
    ensures Increasing(QueueOf(s.resolved, key) + (QueueOf(s.pending, key) + [|s.requests|]))
  {
    var all := QueueOf(s.resolved, key) + QueueOf(s.pending, key);
    assert forall i | 0 <= i < |all| :: all[i] < |s.requests| by {
      forall i | 0 <= i < |all| ensures all[i] < |s.requests| {
        if i < |QueueOf(s.resolved, key)| { assert all[i] in QueueOf(s.resolved, key); }
        else { assert all[i] in QueueOf(s.pending, key); }
      }
    }
    assert QueueOf(s.resolved, key) + (QueueOf(s.pending, key) + [|s.requests|]) == all + [|s.requests|];
  }

  function Left(s: State, w: Waiter, o: Outcome): State
    requires w < |s.requests|
  {
    s.(pending := DropWaiter(s.pending, s.requests[w].key, w), requests := Finished(s, w, o))
  }

  /** Dropping a waiter and finishing its request, as a failed write or a lost wait does. */
  lemma LeaveKeepsInv(s: State, w: Waiter, o: Outcome)
    requires Inv(s) && Open(s, w) && !o.Answered?
    ensures Inv(Left(s, w, o))
  {
    var s', key := Left(s, w, o), s.requests[w].key;
    forall k ensures QueueOk(s', k) && OrderOk(s', k) { LeaveKeepsKey(s, w, o, k); }
    assert OrderOk(s, key);
    IncreasingSuffix(QueueOf(s.resolved, key), QueueOf(s.pending, key));
    forall x: Waiter ensures WaiterOk(s', x) { LeaveKeepsWaiter(s, w, o, x); }
  }

  lemma LeaveKeepsWaiter(s: State, w: Waiter, o: Outcome, x: Waiter)
    requires WaiterOk(s, x) && Open(s, w) && !o.Answered? && Increasing(QueueOf(s.pending, s.requests[w].key))
    ensures WaiterOk(Left(s, w, o), x)
  {
    DroppedKeeps(QueueOf(s.pending, s.requests[w].key), w);
  }

  lemma LeaveKeepsKey(s: State, w: Waiter, o: Outcome, k: string)
    requires QueueOk(s, k) && OrderOk(s, k) && w < |s.requests|
    ensures QueueOk(Left(s, w, o), k) && OrderOk(Left(s, w, o), k)
  {
    var q, q' := QueueOf(s.pending, k), QueueOf(Left(s, w, o).pending, k);
    IncreasingSuffix(QueueOf(s.resolved, k), q);
    DroppedKeeps(q, w);
    if k == s.requests[w].key {
      assert q' == Dropped(q, w);
      IncreasingJoin(QueueOf(s.resolved, k), q, q');
    }
  }

  lemma AckKeepsInv(s: State, key: string, reply: Reply)
    requires Inv(s)
    ensures Inv(Step(s, Ack(key, reply)))
  {
    var s' := Step(s, Ack(key, reply));
    if QueueOf(s.pending, key) != [] {
      assert QueueOk(s, key) && OrderOk(s, key);
      var oldest := QueueOf(s.pending, key)[0];
      assert oldest in QueueOf(s.pending, key) && Open(s, oldest) && s'.slots == s.slots[oldest := reply];
      forall k ensures QueueOk(s', k) && OrderOk(s', k) { AckKeepsKey(s, key, reply, k); }
      forall w: Waiter ensures WaiterOk(s', w) { AckKeepsWaiter(s, key, reply, w); }
    }
  }

  lemma AckKeepsKey(s: State, key: string, reply: Reply, k: string)
    requires QueueOk(s, key) && OrderOk(s, key) && QueueOk(s, k) && OrderOk(s, k) && QueueOf(s.pending, key) != []
    ensures QueueOk(Step(s, Ack(key, reply)), k) && OrderOk(Step(s, Ack(key, reply)), k)
  {
    var s' := Step(s, Ack(key, reply));
    if k == key {
      AckKeepsOwnKey(s, key, reply);
    } else {
      assert QueueOf(s'.pending, k) == QueueOf(s.pending, k) && QueueOf(s'.resolved, k) == QueueOf(s.resolved, k);
    }
  }

  lemma AckMovesOldest(s: State, key: string, reply: Reply)
    requires QueueOf(s.pending, key) != []
    ensures var s', q := Step(s, Ack(key, reply)), QueueOf(s.pending, key);
      && QueueOf(s'.pending, key) == q[1..]
      && QueueOf(s'.resolved, key) == QueueOf(s.resolved, key) + [q[0]]
      && QueueOf(s'.resolved, key) + QueueOf(s'.pending, key) == QueueOf(s.resolved, key) + q
  {
    var q := QueueOf(s.pending, key);
    assert QueueOf(s.resolved, key) + [q[0]] + q[1..] == QueueOf(s.resolved, key) + q;
  }

  lemma AckKeepsOwnKey(s: State, key: string, reply: Reply)
    requires QueueOk(s, key) && OrderOk(s, key) && QueueOf(s.pending, key) != []
    ensures QueueOk(Step(s, Ack(key, reply)), key)
    ensures OrderOk(Step(s, Ack(key, reply)), key)
  {
    var q := QueueOf(s.pending, key);
    AckMovesOldest(s, key, reply);
    IncreasingSuffix(QueueOf(s.resolved, key), q);
    assert q[0] in q && Open(s, q[0]) && s.requests[q[0]].key == key;
    assert forall w | w in q[1..] :: w in q && w > q[0];
  }

  lemma AckKeepsWaiter(s: State, key: string, reply: Reply, w: Waiter)
    requires WaiterOk(s, w) && QueueOk(s, key) && QueueOf(s.pending, key) != []
    ensures WaiterOk(Step(s, Ack(key, reply)), w)
  {
    var q := QueueOf(s.pending, key);
    assert q == [q[0]] + q[1..];
    assert Open(s, q[0]);
  }

  lemma ReadKeepsInv(s: State, w: Waiter)
    requires Inv(s) && Open(s, w) && w in s.slots
    ensures Inv(Step(s, Read(w)))
  {
    var s' := Step(s, Read(w));
    assert WaiterOk(s, w);
    forall k ensures QueueOk(s', k) && OrderOk(s', k) {
      assert QueueOk(s, k) && OrderOk(s, k);
    }
    forall x: Waiter ensures WaiterOk(s', x) {
      assert WaiterOk(s, x);
    }
  }

  lemma {:induction false} RunKeepsInv(states: seq<State>, acts: seq<Action>, k: nat)
    requires IsRun(states, acts) && k < |states|
    ensures Inv(states[k])
    decreases k
  {
    if k > 0 {
      RunKeepsInv(states, acts, k - 1);
      match acts[k - 1] {
        case Send(key) => SendKeepsInv(states[k - 1], key);
        case FailWrite(w) => LeaveKeepsInv(states[k - 1], w, NotWritten);
        case Ack(key, reply) => AckKeepsInv(states[k - 1], key, reply);
        case Read(w) => ReadKeepsInv(states[k - 1], w);
        case GiveUp(w) => LeaveKeepsInv(states[k - 1], w, GaveUp);
      }
    }
  }

  // ---- what holds over whole runs ------------------------------------------

  /** The send made while holding the lock never blocks: the slot it goes to is empty, and was never filled before. */
  lemma ReplySlotIsAlwaysFree(states: seq<State>, acts: seq<Action>, k: nat, key: string, reply: Reply)
    requires IsRun(states, acts) && k < |acts| && acts[k] == Ack(key, reply)
    ensures var w := Resolve(states[k].pending, key).1;
      w.Some? ==>
        && Open(states[k], w.value) && w.value !in states[k].slots
        && w.value !in QueueOf(states[k].resolved, key)
  {
    RunKeepsInv(states, acts, k);
    assert QueueOk(states[k], key) && OrderOk(states[k], key);
    IncreasingSuffix(QueueOf(states[k].resolved, key), QueueOf(states[k].pending, key));
  }

  /** A waiter stands in at most one position of at most one queue, and a finished request in none. */
  lemma WaitersStandOnce(states: seq<State>, acts: seq<Action>, k: nat, key: string, i: nat, key': string, i': nat)
    requires IsRun(states, acts) && k < |states|
    requires i < |QueueOf(states[k].pending, key)| && i' < |QueueOf(states[k].pending, key')|
    ensures Open(states[k], QueueOf(states[k].pending, key)[i])
    ensures QueueOf(states[k].pending, key)[i] == QueueOf(states[k].pending, key')[i'] ==> key == key' && i == i'
  {
    RunKeepsInv(states, acts, k);
    assert QueueOk(states[k], key) && QueueOk(states[k], key') && OrderOk(states[k], key);
    var q := QueueOf(states[k].pending, key);
    IncreasingSuffix(QueueOf(states[k].resolved, key), q);
    assert q[i] in q && QueueOf(states[k].pending, key')[i'] in QueueOf(states[k].pending, key');
    if key == key' { assert i < i' ==> q[i] < q[i']; assert i' < i ==> q[i'] < q[i]; }
  }

  /** No key maps to an empty queue, and a request waits in its queue exactly while it is open and unanswered. */
  lemma NothingLeftBehind(states: seq<State>, acts: seq<Action>, k: nat, w: Waiter)
    requires IsRun(states, acts) && k < |states| && w < |states[k].requests|
    ensures forall key | key in states[k].pending :: states[k].pending[key] != []
    ensures w in QueueOf(states[k].pending, states[k].requests[w].key) <==> Open(states[k], w) && w !in states[k].slots
  {
    RunKeepsInv(states, acts, k);
    assert WaiterOk(states[k], w) && QueueOk(states[k], states[k].requests[w].key);
  }

  /**
   First come, first answered: on one key the requests handed a reply are in registration order, all
   older than every request still waiting, so the i-th acknowledgement went to the i-th of them.
   */
  lemma AnsweredInRegistrationOrder(states: seq<State>, acts: seq<Action>, k: nat, key: string, w: Waiter)
    requires IsRun(states, acts) && k < |states|
    ensures Increasing(QueueOf(states[k].resolved, key) + QueueOf(states[k].pending, key))
    ensures w < |states[k].requests| && WasAnswered(states[k].requests[w]) ==>
      w in QueueOf(states[k].resolved, states[k].requests[w].key)
  {
    RunKeepsInv(states, acts, k);
    assert OrderOk(states[k], key) && WaiterOk(states[k], w);
  }

  predicate WasAnswered(r: Request) { r.outcome.Some? && r.outcome.value.Answered? }

  /** Each acknowledgement adds the oldest waiter of its own key to those answered there, and touches no other key. */
  lemma AckAnswersTheOldest(states: seq<State>, acts: seq<Action>, k: nat, key: string, reply: Reply, other: string)
    requires IsRun(states, acts) && k < |acts| && acts[k] == Ack(key, reply)
    ensures var q := QueueOf(states[k].pending, key);
      QueueOf(states[k + 1].resolved, other)
        == QueueOf(states[k].resolved, other) + if other == key && q != [] then [q[0]] else []
    ensures QueueOf(states[k].pending, key) != [] ==>
      var w := QueueOf(states[k].pending, key)[0]; w in states[k + 1].slots && states[k + 1].slots[w] == reply
  {
    assert Enabled(states[k], acts[k]);
  }

  /** Over a run a key's answered waiters only grow, each one by having been the oldest waiting there. */
  lemma {:induction false} AnsweredOldestFirst(states: seq<State>, acts: seq<Action>, i: nat, j: nat, key: string)
    requires IsRun(states, acts) && i <= j < |states|
    ensures QueueOf(states[i].resolved, key) <= QueueOf(states[j].resolved, key)
    ensures forall x | |QueueOf(states[i].resolved, key)| <= x < |QueueOf(states[j].resolved, key)| ::
      AnsweredAsOldest(states, acts, i, j, key, QueueOf(states[j].resolved, key)[x])
    decreases j - i
  {
    if i < j {
      AnsweredOldestFirst(states, acts, i, j - 1, key);
      var s, a, before := states[j - 1], acts[j - 1], QueueOf(states[j - 1].resolved, key);
      assert Enabled(s, a) && states[j] == Step(s, a);
      forall w | AnsweredAsOldest(states, acts, i, j - 1, key, w) ensures AnsweredAsOldest(states, acts, i, j, key, w) {
        var k :| i <= k < j - 1 && AnswersAt(states, acts, k, key, w);
      }
      if a.Ack? {
        AckAnswersTheOldest(states, acts, j - 1, a.key, a.reply, key);
        var q := QueueOf(s.pending, key);
        if a.key == key && q != [] { assert AnswersAt(states, acts, j - 1, key, q[0]); }
      }
    }
  }

  /** Step k is an acknowledgement on the key that finds w the oldest waiter there. */
  predicate AnswersAt(states: seq<State>, acts: seq<Action>, k: nat, key: string, w: Waiter) {
    && k < |acts| && k < |states| && acts[k].Ack? && acts[k].key == key
    && QueueOf(states[k].pending, key) != [] && QueueOf(states[k].pending, key)[0] == w
  }

  ghost predicate AnsweredAsOldest(
      states: seq<State>, acts: seq<Action>, i: nat, j: nat, key: string, w: Waiter) {
    exists k :: i <= k < j && AnswersAt(states, acts, k, key, w)
  }

  // ---- which reply a request takes ----------------------------------------------------

  /** Before step k an acknowledgement that found w the oldest waiter on its key brought this reply. */
  ghost predicate BroughtBy(states: seq<State>, acts: seq<Action>, k: nat, key: string, w: Waiter, reply: Reply) {
    exists j :: 0 <= j < k && AnswersAt(states, acts, j, key, w) && acts[j].reply == reply
  }

  /** The reply a request holds or has taken, if any. */
  function ReplyOf(s: State, w: Waiter): Option<Reply>
    requires w < |s.requests|
  {
    if w in s.slots then Some(s.slots[w])
    else match s.requests[w].outcome
      case Some(Answered(reply)) => Some(reply)
      case _ => None
  }

  lemma ReplyStep(s: State, a: Action, w: Waiter)
    requires Inv(s) && Enabled(s, a) && w < |s.requests|
    ensures var s', q := Step(s, a), QueueOf(s.pending, s.requests[w].key);
      && s'.requests[w].key == s.requests[w].key
      && (ReplyOf(s', w) == ReplyOf(s, w) || ReplyOf(s', w) == None
          || (a.Ack? && a.key == s.requests[w].key && q != [] && q[0] == w && ReplyOf(s', w) == Some(a.reply)))
  {
    assert WaiterOk(s, w);
    if a.Ack? && QueueOf(s.pending, a.key) != [] {
      assert QueueOk(s, a.key) && QueueOf(s.pending, a.key)[0] in QueueOf(s.pending, a.key);
    }
  }

  /** The reply a request takes is the one brought by the acknowledgement that found it the oldest on its key. */
  lemma {:induction false} ReplyIsItsOwn(states: seq<State>, acts: seq<Action>, k: nat, w: Waiter)
    requires IsRun(states, acts) && k < |states| && w < |states[k].requests|
    ensures ReplyOf(states[k], w).Some? ==>
      BroughtBy(states, acts, k, states[k].requests[w].key, w, ReplyOf(states[k], w).value)
    decreases k
  {
    if k > 0 {
      var s, a := states[k - 1], acts[k - 1];
      assert Enabled(s, a) && states[k] == Step(s, a);
      RunKeepsInv(states, acts, k - 1);
      if w < |s.requests| {
        ReplyIsItsOwn(states, acts, k - 1, w);
        ReplyStep(s, a, w);
        if a.Ack? && AnswersAt(states, acts, k - 1, s.requests[w].key, w) {
          assert ReplyOf(states[k], w) == Some(a.reply) || ReplyOf(states[k], w) == ReplyOf(s, w);
        }
      }
    }
  }

  lemma OutcomeStep(s: State, a: Action, w: Waiter)
    requires Enabled(s, a) && w < |Step(s, a).requests|
    ensures Step(s, a).requests[w].outcome ==
      if w >= |s.requests| then None
      else if a == Read(w) then Some(Answered(s.slots[w]))
      else if a == FailWrite(w) then Some(NotWritten)
      else if a == GiveUp(w) then Some(GaveUp)
      else s.requests[w].outcome
  {
  }

  ghost predicate Took(acts: seq<Action>, k: nat, a: Action) {
    exists j :: 0 <= j < k <= |acts| && acts[j] == a
  }

  lemma TookStep(acts: seq<Action>, k: nat, a: Action)
    requires 0 < k <= |acts|
    ensures Took(acts, k, a) <==> Took(acts, k - 1, a) || acts[k - 1] == a
  {
  }

  /** A request ends by exactly the step that ended it: a reply taken, a failed write, or a lost wait. */
  lemma {:induction false} OutcomeIff(states: seq<State>, acts: seq<Action>, k: nat, w: Waiter)
    requires IsRun(states, acts) && k < |states| && w < |states[k].requests|
    ensures var outcome := states[k].requests[w].outcome;
      && (outcome == Some(NotWritten) <==> Took(acts, k, FailWrite(w)))
      && (outcome == Some(GaveUp) <==> Took(acts, k, GiveUp(w)))
      && (outcome.Some? && outcome.value.Answered? <==> Took(acts, k, Read(w)))
    decreases k
  {
    if k > 0 {
      var s, a := states[k - 1], acts[k - 1];
      assert Enabled(s, a) && states[k] == Step(s, a);
      OutcomeStep(s, a, w);
      TookStep(acts, k, FailWrite(w));
      TookStep(acts, k, GiveUp(w));
      TookStep(acts, k, Read(w));
      if w < |s.requests| { OutcomeIff(states, acts, k - 1, w); } else { NotRegisteredYet(states, acts, k - 1, w); }
    }
  }

  lemma {:induction false} NotRegisteredYet(states: seq<State>, acts: seq<Action>, k: nat, w: Waiter)
    requires IsRun(states, acts) && k < |states| && w >= |states[k].requests|
    ensures !Took(acts, k, FailWrite(w)) && !Took(acts, k, GiveUp(w)) && !Took(acts, k, Read(w))
    decreases k
  {
    if k > 0 {
      assert Enabled(states[k - 1], acts[k - 1]) && states[k] == Step(states[k - 1], acts[k - 1]);
      NotRegisteredYet(states, acts, k - 1, w);
    }
  }
}
