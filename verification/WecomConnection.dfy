/**
 The reconnect loop of the WeCom adapter and its standby state (edge/internal/wecom/platform.go,
 with the read and dispatch goroutines of client.go).

 A bot may hold one connection; the newest kicks the older. A kicked instance must not dial again.
 */
module WecomConnection {

  function Pow2(k: nat): nat { if k == 0 then 1 else 2 * Pow2(k - 1) }

  /** Seconds to wait before reconnect number `attempt`. */
  function BackoffDelay(attempt: int): nat {
    if attempt < 1 then 0
    else if attempt >= 6 then 30
    else if Pow2(attempt - 1) > 30 then 30 else Pow2(attempt - 1)
  }

  lemma {:induction false} Pow2Grows(k: nat)
    requires k >= 5
    ensures Pow2(k) >= 32
    decreases k
  {
    if k > 5 { Pow2Grows(k - 1); } else { assert Pow2(5) == 2 * Pow2(4) && Pow2(4) == 2 * Pow2(3) && Pow2(3) == 8; }
  }

  /** The cut at six attempts is no special case: the delay is 2^(k-1) capped at 30. */
  lemma BackoffIsCappedDoubling(k: nat)
    requires k >= 1
    ensures BackoffDelay(k) == if Pow2(k - 1) <= 30 then Pow2(k - 1) else 30
  {
    if k >= 6 { Pow2Grows(k - 1); }
  }

  datatype Callback = Disconnected | Ordinary

  /**
   One dialled connection: its read loop, its dispatcher, and the callbacks between them. `between` says
   that the dispatcher has set standby for the first of them and not yet cleared the connected flag.
   */
  datatype Conn = Conn(
    reading: bool, dispatching: bool, between: bool, inbox: seq<Callback>, handled: seq<Callback>)

  datatype Phase = Top | Sleeping | Ready | Subscribing | DrainFailed | Online | DrainLost | Parked | Returned

  datatype State = State(
    phase: Phase,
    attempt: nat,
    standby: bool,
    connected: bool,
    cancelled: bool,
    conns: seq<Conn>,       // in dial order
    slept: nat,             // seconds slept in this round
    failures: nat,          // failed attempts since the start or since the last connection was lost
    lost: bool)             // some connection has been lost

  /** The reconnect loop's own steps. */
  datatype Move =
    | CheckTop
    | Wake
    | Dial(ok: bool)
    | Subscribed(ok: bool)
    | Drained                 // `<-dispatchDone`
    | LoseConnection          // the read loop has ended
    | Unpark

  /** What the goroutines of one connection do; entering standby is two stores. */
  datatype Activity =
    | ReadCallback(cb: Callback)
    | ReadExit
    | Handle
    | SetStandby
    | ClearConnected
    | DispatchExit

  datatype Action = Loop(move: Move) | OnConn(c: nat, activity: Activity) | Cancel

  function Init(): State { State(Top, 0, false, false, false, [], 0, 0, false) }

  predicate MoveEnabled(s: State, m: Move) {
    match m
    case CheckTop => s.phase == Top
    case Wake => s.phase == Sleeping
    case Dial(_) => s.phase == Ready
    case Subscribed(_) => s.phase == Subscribing
    case Drained =>
      (s.phase == DrainFailed || s.phase == DrainLost) && s.conns != [] && !s.conns[|s.conns| - 1].dispatching
    case LoseConnection => s.phase == Online && s.conns != [] && !s.conns[|s.conns| - 1].reading
    case Unpark => s.phase == Parked && s.cancelled
  }

  predicate ActivityEnabled(k: Conn, a: Activity) {
    match a
    case ReadCallback(_) => k.reading
    case ReadExit => k.reading
    case Handle => k.dispatching && k.inbox != [] && k.inbox[0] == Ordinary
    case SetStandby => k.dispatching && !k.between && k.inbox != [] && k.inbox[0] == Disconnected
    case ClearConnected => k.dispatching && k.between && k.inbox != []
    case DispatchExit => k.dispatching && !k.reading && k.inbox == []
  }

  predicate Enabled(s: State, a: Action) {
    match a
    case Loop(m) => MoveEnabled(s, m)
    case OnConn(c, activity) => c < |s.conns| && ActivityEnabled(s.conns[c], activity)
    case Cancel => true
  }

  function Fresh(): Conn { Conn(true, true, false, [], []) }

  function Failed(s: State): State {
    if s.cancelled then s.(phase := Returned)
    else s.(phase := Top, attempt := s.attempt + 1, failures := s.failures + 1)
  }

  function Moved(s: State, m: Move): State
    requires MoveEnabled(s, m)
  {
    match m
    case CheckTop =>
      if s.cancelled then s.(phase := Returned)
      else if s.standby then s.(phase := Parked)
      else if s.attempt > 0 then s.(phase := Sleeping, slept := BackoffDelay(s.attempt))
      else s.(phase := Ready, slept := 0)
    case Wake => if s.cancelled then s.(phase := Returned) else s.(phase := Ready)
    case Dial(ok) =>
      if ok then s.(phase := Subscribing, conns := s.conns + [Fresh()]) else Failed(s)
    case Subscribed(ok) =>
      if ok then s.(phase := Online, attempt := 0, connected := true) else s.(phase := DrainFailed)
    case Drained =>
      if s.phase == DrainFailed then Failed(s)
      else if s.cancelled then s.(phase := Returned)
      else s.(phase := Top, attempt := 1, failures := 0, lost := true)
    case LoseConnection => s.(phase := DrainLost, connected := false)
    case Unpark => s.(phase := Returned)
  }

  function Acted(k: Conn, a: Activity): Conn
    requires ActivityEnabled(k, a)
  {
    match a
    case ReadCallback(cb) => k.(inbox := k.inbox + [cb])
    case ReadExit => k.(reading := false)
    case Handle => k.(inbox := k.inbox[1..], handled := k.handled + [k.inbox[0]])
    case SetStandby => k.(between := true)
    case ClearConnected => k.(between := false, inbox := k.inbox[1..], handled := k.handled + [Disconnected])
    case DispatchExit => k.(dispatching := false)
  }

  function Step(s: State, a: Action): State
    requires Enabled(s, a)
  {
    match a
    case Loop(m) => Moved(s, m)
    case OnConn(c, activity) =>
      s.(conns := s.conns[c := Acted(s.conns[c], activity)],
         standby := s.standby || activity == SetStandby,
         connected := s.connected && activity != ClearConnected)
    case Cancel => s.(cancelled := true)
  }

  ghost predicate IsRun(states: seq<State>, acts: seq<Action>) {
    && |states| == |acts| + 1 && states[0] == Init()
    && forall i | 0 <= i < |acts| :: Enabled(states[i], acts[i]) && states[i + 1] == Step(states[i], acts[i])
  }

  predicate HoldsConnection(p: Phase) {
    p == Subscribing || p == DrainFailed || p == Online || p == DrainLost
  }

  /** Everything a connection read has been handled, and nothing of it still runs. */
  predicate Quiet(c: Conn) {
    !c.reading && !c.dispatching && !c.between && c.inbox == []
  }

  /** A disconnected event has been handled here, or is being. */
  predicate Kicked(c: Conn) {
    c.between || Disconnected in c.handled
  }

  ghost predicate AnyKicked(conns: seq<Conn>) {
    exists c :: 0 <= c < |conns| && Kicked(conns[c])
  }

  /** Only the newest connection may still run, and only while the loop holds it. */
  predicate ConnOk(s: State, c: nat) {
    c < |s.conns| ==>
      || Quiet(s.conns[c])
      || (s.conns[c].dispatching && c == |s.conns| - 1 && HoldsConnection(s.phase)
          && (s.conns[c].between ==> s.conns[c].inbox != [] && s.conns[c].inbox[0] == Disconnected))
  }

  ghost predicate ConnsOk(s: State) {
    && (forall c: nat :: ConnOk(s, c))
    && (HoldsConnection(s.phase) ==> s.conns != [])
  }

  ghost predicate StandbyOk(s: State) {
    && (s.standby <==> AnyKicked(s.conns))
    && (s.phase == Sleeping || s.phase == Ready ==> !s.standby)
    && (s.connected ==> s.phase == Online)
  }

  ghost predicate AttemptOk(s: State) {
    && (s.phase == Online || s.phase == DrainLost ==> s.attempt == 0)
    && (s.phase != Online && s.phase != DrainLost && s.phase != Returned ==>
          s.attempt == s.failures + if s.lost then 1 else 0)
    && (s.phase == Sleeping || s.phase == Ready ==> s.slept == BackoffDelay(s.attempt))
  }

  ghost predicate Inv(s: State) { ConnsOk(s) && StandbyOk(s) && AttemptOk(s) }

  lemma ReplaceConn(conns: seq<Conn>, c: nat, k: Conn)
    requires c < |conns| && (Kicked(conns[c]) ==> Kicked(k))
    ensures AnyKicked(conns[c := k]) <==> AnyKicked(conns) || Kicked(k)
  {
    var conns' := conns[c := k];
    if AnyKicked(conns) {
      var d :| 0 <= d < |conns| && Kicked(conns[d]);
      assert Kicked(conns'[d]);
    }
    if Kicked(k) { assert Kicked(conns'[c]); }
    if AnyKicked(conns') {
      var d :| 0 <= d < |conns'| && Kicked(conns'[d]);
      assert d != c ==> Kicked(conns[d]);
    }
  }

  lemma AddConn(conns: seq<Conn>, k: Conn)
    requires !Kicked(k)
    ensures AnyKicked(conns + [k]) <==> AnyKicked(conns)
  {
    if AnyKicked(conns) {
      var d :| 0 <= d < |conns| && Kicked(conns[d]);
      assert Kicked((conns + [k])[d]);
    }
    if AnyKicked(conns + [k]) {
      var d :| 0 <= d < |conns + [k]| && Kicked((conns + [k])[d]);
      assert Kicked(conns[d]);
    }
  }

  lemma StepKeepsStandby(s: State, a: Action)
    requires Inv(s) && Enabled(s, a)
    ensures StandbyOk(Step(s, a))
  {
    match a
    case Loop(Dial(ok)) => AddConn(s.conns, Fresh());
    case OnConn(c, activity) =>
      assert ConnOk(s, c);
      ActedKicks(s.conns[c], activity);
      ReplaceConn(s.conns, c, Acted(s.conns[c], activity));
    case _ =>
  }

  lemma ActedKicks(k: Conn, a: Activity)
    requires ActivityEnabled(k, a)
    ensures Kicked(Acted(k, a)) <==> Kicked(k) || a == SetStandby
  {
  }

  lemma MoveKeepsAttempt(s: State, m: Move)
    requires AttemptOk(s) && MoveEnabled(s, m)
    ensures AttemptOk(Moved(s, m))
  {
    var delay := BackoffDelay(s.attempt);
    match m
    case CheckTop => case Wake => case Dial(_) => case Subscribed(_) =>
    case Drained => case LoseConnection => case Unpark =>
  }

  lemma MoveKeepsConns(s: State, m: Move)
    requires ConnsOk(s) && MoveEnabled(s, m)
    ensures ConnsOk(Moved(s, m))
  {
    var s' := Moved(s, m);
    forall c: nat ensures ConnOk(s', c) {
      assert ConnOk(s, c);
      match m
      case CheckTop => case Wake => case Dial(_) => case Subscribed(_) =>
      case Drained => case LoseConnection => case Unpark =>
    }
  }

  lemma ActivityKeepsConns(s: State, n: nat, a: Activity)
    requires ConnsOk(s) && n < |s.conns| && ActivityEnabled(s.conns[n], a)
    ensures ConnsOk(Step(s, OnConn(n, a)))
  {
    forall c: nat ensures ConnOk(Step(s, OnConn(n, a)), c) {
      assert ConnOk(s, c);
    }
  }

  lemma StepKeepsInv(s: State, a: Action)
    requires Inv(s) && Enabled(s, a)
    ensures Inv(Step(s, a))
  {
    StepKeepsStandby(s, a);
    match a
    case Loop(m) => MoveKeepsAttempt(s, m); MoveKeepsConns(s, m);
    case OnConn(n, activity) => ActivityKeepsConns(s, n, activity);
    case Cancel =>
      forall c: nat ensures ConnOk(Step(s, a), c) { assert ConnOk(s, c); }
  }

  lemma {:induction false} RunKeepsInv(states: seq<State>, acts: seq<Action>, k: nat)
    requires IsRun(states, acts) && k < |states|
    ensures Inv(states[k])
    decreases k
  {
    if k > 0 {
      RunKeepsInv(states, acts, k - 1);
      StepKeepsInv(states[k - 1], acts[k - 1]);
    }
  }

  // ---- what holds over whole runs ------------------------------------------

  /**
   At every dial: no earlier connection still reads, dispatches or holds an unhandled callback, no
   disconnected event has ever been handled, and the round slept what its failures call for.
   */
  lemma EveryDialIsSafe(states: seq<State>, acts: seq<Action>, k: nat, ok: bool)
    requires IsRun(states, acts) && k < |acts| && acts[k] == Loop(Dial(ok))
    ensures forall c | 0 <= c < |states[k].conns| :: Quiet(states[k].conns[c]) && !Kicked(states[k].conns[c])
    ensures !states[k].standby && !states[k].connected
    ensures var n := states[k].failures + if states[k].lost then 1 else 0;
      states[k].slept == if n == 0 then 0 else if Pow2(n - 1) <= 30 then Pow2(n - 1) else 30
  {
    RunKeepsInv(states, acts, k);
    assert Enabled(states[k], acts[k]);
    forall c | 0 <= c < |states[k].conns| ensures Quiet(states[k].conns[c]) && !Kicked(states[k].conns[c]) {
      assert ConnOk(states[k], c);
    }
    var n := states[k].failures + if states[k].lost then 1 else 0;
    if n > 0 { BackoffIsCappedDoubling(n); }
  }

  lemma {:induction false} StandbyIsPermanent(states: seq<State>, acts: seq<Action>, i: nat, j: nat)
    requires IsRun(states, acts) && i <= j < |states| && states[i].standby
    ensures states[j].standby
    decreases j - i
  {
    if i < j { StandbyIsPermanent(states, acts, i, j - 1); assert Enabled(states[j - 1], acts[j - 1]); }
  }

  /** Once a disconnected event has been handled no dial ever starts again. */
  lemma KickedNeverDials(states: seq<State>, acts: seq<Action>, i: nat, j: nat, c: nat)
    requires IsRun(states, acts) && i <= j < |acts|
    requires c < |states[i].conns| && Kicked(states[i].conns[c])
    ensures !(acts[j].Loop? && acts[j].move.Dial?)
  {
    RunKeepsInv(states, acts, i);
    StandbyIsPermanent(states, acts, i, j);
    RunKeepsInv(states, acts, j);
    assert Enabled(states[j], acts[j]);
  }

  // ---- standby and connected together --------------------------------------

  /** The connection that went online at step i still is, and no dispatcher has cleared the flag since. */
  ghost predicate OnlineSince(acts: seq<Action>, i: nat, k: nat) {
    && i < k <= |acts| && acts[i] == Loop(Subscribed(true))
    && forall m | i < m < k :: !EndsOnline(acts[m])
  }

  predicate EndsOnline(a: Action) { a == Loop(LoseConnection) || (a.OnConn? && a.activity == ClearConnected) }

  /** Some dispatcher stands between the two stores of `enterStandby`. */
  ghost predicate BetweenStores(s: State) {
    exists c :: 0 <= c < |s.conns| && s.conns[c].between
  }

  lemma {:induction false} ConnectedIsOnlineSince(states: seq<State>, acts: seq<Action>, k: nat)
    requires IsRun(states, acts) && k < |states|
    ensures states[k].connected <==> exists i: nat :: OnlineSince(acts, i, k)
    decreases k
  {
    if k > 0 {
      ConnectedIsOnlineSince(states, acts, k - 1);
      var s, a := states[k - 1], acts[k - 1];
      assert Enabled(s, a) && states[k] == Step(s, a);
      if a == Loop(Subscribed(true)) {
        assert OnlineSince(acts, k - 1, k);
      } else if s.connected && !EndsOnline(a) {
        var i: nat :| OnlineSince(acts, i, k - 1);
        assert OnlineSince(acts, i, k);
      }
      if i: nat :| OnlineSince(acts, i, k) && i < k - 1 { assert OnlineSince(acts, i, k - 1); }
    }
  }

  lemma StandbyStep(s: State, a: Action)
    requires Inv(s) && Enabled(s, a) && !EndsOnline(a) && (s.standby <==> BetweenStores(s))
    ensures Step(s, a).standby <==> BetweenStores(Step(s, a))
  {
    var s' := Step(s, a);
    if BetweenStores(s) {
      var c :| 0 <= c < |s.conns| && s.conns[c].between;
      assert s'.conns[c].between;
    }
    if a.OnConn? && a.activity == SetStandby { assert s'.conns[a.c].between; }
    if BetweenStores(s') && !s.standby {
      var c :| 0 <= c < |s'.conns| && s'.conns[c].between;
      assert c < |s.conns| ==> !s.conns[c].between;
    }
  }

  /** If it went online outside standby, standby is set just while its dispatcher is between the stores. */
  lemma {:induction false} StandbySinceOnline(states: seq<State>, acts: seq<Action>, i: nat, k: nat)
    requires IsRun(states, acts) && k < |states| && OnlineSince(acts, i, k) && !states[i].standby
    ensures states[k].standby <==> BetweenStores(states[k])
    decreases k - i
  {
    if i + 1 < k {
      StandbySinceOnline(states, acts, i, k - 1);
      RunKeepsInv(states, acts, k - 1);
      StandbyStep(states[k - 1], acts[k - 1]);
    } else {
      RunKeepsInv(states, acts, i);
      assert Enabled(states[i], acts[i]);
      if BetweenStores(states[i]) {
        var c :| 0 <= c < |states[i].conns| && states[i].conns[c].between;
        assert Kicked(states[i].conns[c]);
      }
    }
  }

  lemma BetweenIsStandby(s: State)
    requires StandbyOk(s) && BetweenStores(s)
    ensures s.standby
  {
    var c :| 0 <= c < |s.conns| && s.conns[c].between;
    assert Kicked(s.conns[c]);
  }

  /**
   Standby and connected are seen together exactly when the connection is online with nothing cleared since
   it went online, and either it went online with standby set or its dispatcher is between the two stores.
   */
  lemma ConnectedInStandbyIff(states: seq<State>, acts: seq<Action>, k: nat)
    requires IsRun(states, acts) && k < |states|
    ensures states[k].standby && states[k].connected <==>
      exists i: nat :: OnlineSince(acts, i, k) && (states[i].standby || BetweenStores(states[k]))
  {
    RunKeepsInv(states, acts, k);
    ConnectedIsOnlineSince(states, acts, k);
    if states[k].standby && states[k].connected {
      var i: nat :| OnlineSince(acts, i, k);
      if !states[i].standby { StandbySinceOnline(states, acts, i, k); }
    }
    if i: nat :| OnlineSince(acts, i, k) && (states[i].standby || BetweenStores(states[k])) {
      if states[i].standby { StandbyIsPermanent(states, acts, i, k); } else { BetweenIsStandby(states[k]); }
    }
  }

  lemma Extended(states: seq<State>, acts: seq<Action>, a: Action) returns (longer: seq<State>, acts': seq<Action>)
    requires IsRun(states, acts) && Enabled(states[|acts|], a)
    ensures IsRun(longer, acts') && acts' == acts + [a] && longer == states + [Step(states[|acts|], a)]
  {
    longer, acts' := states + [Step(states[|acts|], a)], acts + [a];
  }

  lemma EventRead() returns (states: seq<State>, acts: seq<Action>)
    ensures IsRun(states, acts) && |acts| == 3
    ensures var s := states[3];
      s.phase == Subscribing && !s.standby && s.conns == [Conn(true, true, false, [Disconnected], [])]
  {
    states, acts := [Init()], [];
    states, acts := Extended(states, acts, Loop(CheckTop));
    states, acts := Extended(states, acts, Loop(Dial(true)));
    states, acts := Extended(states, acts, OnConn(0, ReadCallback(Disconnected)));
    assert [] + [Disconnected] == [Disconnected];
  }

  /** Both happen: an ordinary kick passes through it ... */
  lemma ConnectedBetweenStores() returns (states: seq<State>, acts: seq<Action>)
    ensures IsRun(states, acts) && |acts| == 5 && acts[3] == Loop(Subscribed(true)) && !states[3].standby
    ensures states[5].standby && states[5].connected && BetweenStores(states[5])
  {
    states, acts := EventRead();
    states, acts := Extended(states, acts, Loop(Subscribed(true)));
    states, acts := Extended(states, acts, OnConn(0, SetStandby));
    assert states[5].conns[0].between;
  }

  /** ... and an event dispatched before the subscription's answer is acted on leaves it standing. */
  lemma ConnectedInStandbyHappens() returns (states: seq<State>, acts: seq<Action>)
    ensures IsRun(states, acts) && |acts| == 6 && acts[5] == Loop(Subscribed(true))
    ensures states[6].standby && states[6].connected && !BetweenStores(states[6])
  {
    states, acts := EventRead();
    states, acts := Extended(states, acts, OnConn(0, SetStandby));
    states, acts := Extended(states, acts, OnConn(0, ClearConnected));
    states, acts := Extended(states, acts, Loop(Subscribed(true)));
  }
}
