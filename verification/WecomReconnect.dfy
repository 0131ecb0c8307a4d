/**
 Where the WeCom reconnect loop comes to rest, and what its goroutines have done by then
 (edge/internal/wecom/platform.go, with the read and dispatch goroutines of client.go).
 */
module WecomReconnect {
  import opened WecomConnection

  // ---- one connection's goroutines -----------------------------------------------------------

  /** What connection c has read among the first k steps, in order. */
  function ReadBy(acts: seq<Action>, k: nat, c: nat): seq<Callback>
    requires k <= |acts|
  {
    if k == 0 then [] else
    var a := acts[k - 1];
    ReadBy(acts, k - 1, c)
    + if a.OnConn? && a.c == c && a.activity.ReadCallback? then [a.activity.cb] else []
  }

  ghost predicate Did(acts: seq<Action>, k: nat, c: nat, activity: Activity) {
    exists j :: 0 <= j < k <= |acts| && acts[j] == OnConn(c, activity)
  }

  lemma DidStep(acts: seq<Action>, k: nat, c: nat, activity: Activity)
    requires 0 < k <= |acts|
    ensures Did(acts, k, c, activity) <==> Did(acts, k - 1, c, activity) || acts[k - 1] == OnConn(c, activity)
  {
  }

  lemma ActedCallbacks(k: Conn, a: Activity)
    requires ActivityEnabled(k, a) && (k.between ==> k.inbox != [] && k.inbox[0] == Disconnected)
    ensures var k' := Acted(k, a);
      k'.handled + k'.inbox == (k.handled + k.inbox) + if a.ReadCallback? then [a.cb] else []
  {
    match a
    case ReadCallback(cb) =>
    case ReadExit =>
    case Handle => assert k.inbox == [k.inbox[0]] + k.inbox[1..];
    case SetStandby =>
    case ClearConnected => assert k.inbox == [Disconnected] + k.inbox[1..];
    case DispatchExit =>
  }

  lemma ActedRuns(k: Conn, a: Activity)
    requires ActivityEnabled(k, a)
    ensures Acted(k, a).reading <==> k.reading && a != ReadExit
    ensures Acted(k, a).dispatching <==> k.dispatching && a != DispatchExit
    ensures Ended(k) ==> Ended(Acted(k, a))
  {
  }

  /** Without a dispatcher there is nothing left to read or to handle. */
  predicate Ended(k: Conn) { !k.dispatching ==> !k.reading && k.inbox == [] }

  /** What one step does to connection c, which may be the one it dials. */
  lemma ConnStep(s: State, a: Action, c: nat)
    requires Enabled(s, a) && c < |Step(s, a).conns|
    ensures c >= |s.conns| ==> Step(s, a).conns[c] == Fresh() && !a.OnConn?
    ensures c < |s.conns| ==>
      Step(s, a).conns[c] == if a.OnConn? && a.c == c then Acted(s.conns[c], a.activity) else s.conns[c]
  {
    match a
    case Loop(Dial(_)) =>
    case Loop(_) =>
    case _ =>
  }

  /** Nothing has been done on a connection before it is dialled. */
  lemma {:induction false} NothingDoneYet(states: seq<State>, acts: seq<Action>, k: nat, c: nat, activity: Activity)
    requires IsRun(states, acts) && k < |states| && c >= |states[k].conns|
    ensures ReadBy(acts, k, c) == [] && !Did(acts, k, c, activity)
    decreases k
  {
    if k > 0 {
      assert Enabled(states[k - 1], acts[k - 1]) && states[k] == Step(states[k - 1], acts[k - 1]);
      NothingDoneYet(states, acts, k - 1, c, activity);
      DidStep(acts, k, c, activity);
    }
  }

  /** A connection's callbacks are handled in the order they were read; what is not handled yet waits. */
  lemma {:induction false} HandledInOrder(states: seq<State>, acts: seq<Action>, k: nat, c: nat)
    requires IsRun(states, acts) && k < |states| && c < |states[k].conns|
    ensures states[k].conns[c].handled + states[k].conns[c].inbox == ReadBy(acts, k, c)
    decreases k
  {
    assert k > 0;
    var s, a := states[k - 1], acts[k - 1];
    assert Enabled(s, a) && states[k] == Step(s, a);
    ConnStep(s, a, c);
    if c < |s.conns| {
      HandledInOrder(states, acts, k - 1, c);
      RunKeepsInv(states, acts, k - 1);
      assert ConnOk(s, c);
      if a.OnConn? && a.c == c { ActedCallbacks(s.conns[c], a.activity); }
    } else {
      NothingDoneYet(states, acts, k - 1, c, ReadExit);
    }
  }

  lemma ExitsStep(acts: seq<Action>, k: nat, c: nat, before: Conn, after: Conn)
    requires 0 < k <= |acts| && Ended(before)
    requires var a := acts[k - 1];
      if a.OnConn? && a.c == c then ActivityEnabled(before, a.activity) && after == Acted(before, a.activity)
      else after == before
    requires before.reading <==> !Did(acts, k - 1, c, ReadExit)
    requires before.dispatching <==> !Did(acts, k - 1, c, DispatchExit)
    ensures after.reading <==> !Did(acts, k, c, ReadExit)
    ensures after.dispatching <==> !Did(acts, k, c, DispatchExit)
    ensures Ended(after)
  {
    DidStep(acts, k, c, ReadExit);
    DidStep(acts, k, c, DispatchExit);
    var a := acts[k - 1];
    if a.OnConn? && a.c == c { ActedRuns(before, a.activity); }
  }

  /** It is read until its read loop exits and dispatched until its dispatcher does, which leaves nothing unhandled. */
  lemma {:induction false} RunsUntilExit(states: seq<State>, acts: seq<Action>, k: nat, c: nat)
    requires IsRun(states, acts) && k < |states| && c < |states[k].conns|
    ensures states[k].conns[c].reading <==> !Did(acts, k, c, ReadExit)
    ensures states[k].conns[c].dispatching <==> !Did(acts, k, c, DispatchExit)
    ensures Ended(states[k].conns[c])
    decreases k
  {
    assert k > 0;
    var s, a := states[k - 1], acts[k - 1];
    assert Enabled(s, a) && states[k] == Step(s, a);
    ConnStep(s, a, c);
    if c < |s.conns| {
      RunsUntilExit(states, acts, k - 1, c);
      ExitsStep(acts, k, c, s.conns[c], states[k].conns[c]);
    } else {
      NothingDoneYet(states, acts, k - 1, c, ReadExit);
      NothingDoneYet(states, acts, k - 1, c, DispatchExit);
      DidStep(acts, k, c, ReadExit);
      DidStep(acts, k, c, DispatchExit);
    }
  }

  // ---- how the loop stands --------------------------------------------------------------------

  /** The loop returns only when cancelled and parks only in standby; it is cancelled from a cancel on. */
  lemma {:induction false} RestsForAReason(states: seq<State>, acts: seq<Action>, k: nat)
    requires IsRun(states, acts) && k < |states|
    ensures states[k].cancelled <==> exists j :: 0 <= j < k && acts[j] == Cancel
    ensures states[k].phase == Returned ==> states[k].cancelled
    ensures states[k].phase == Parked ==> states[k].standby
    decreases k
  {
    if k > 0 {
      RestsForAReason(states, acts, k - 1);
      assert Enabled(states[k - 1], acts[k - 1]) && states[k] == Step(states[k - 1], acts[k - 1]);
    }
  }

  /** `more` can be taken from s, one after the other. */
  predicate CanTake(s: State, more: seq<Action>)
    decreases |more|
  {
    more == [] || (Enabled(s, more[0]) && CanTake(Step(s, more[0]), more[1..]))
  }

  function After(s: State, more: seq<Action>): State
    requires CanTake(s, more)
    decreases |more|
  {
    if more == [] then s else After(Step(s, more[0]), more[1..])
  }

  lemma First(s: State, a: Action, more: seq<Action>)
    requires Enabled(s, a) && CanTake(Step(s, a), more)
    ensures CanTake(s, [a] + more) && After(s, [a] + more) == After(Step(s, a), more)
  {
    assert ([a] + more)[1..] == more;
  }

  lemma {:induction false} Then(s: State, more: seq<Action>, rest: seq<Action>)
    requires CanTake(s, more) && CanTake(After(s, more), rest)
    ensures CanTake(s, more + rest) && After(s, more + rest) == After(After(s, more), rest)
    decreases |more|
  {
    if more == [] {
      assert [] + rest == rest;
    } else {
      var a, tail := more[0], more[1..];
      Then(Step(s, a), tail, rest);
      First(s, a, tail + rest);
      assert more + rest == [a] + (tail + rest);
    }
  }

  // ---- draining a connection ------------------------------------------------------------------

  ghost predicate Loaded(s: State, c: nat) {
    && c < |s.conns|
    && (s.conns[c].between ==> s.conns[c].inbox != [] && s.conns[c].inbox[0] == Disconnected && s.standby)
  }

  /** The same loop over the same connections, but for what happened on c; standby as said. */
  predicate OnlyOn(s: State, s': State, c: nat, standby: bool)
    requires c < |s.conns|
  {
    && |s'.conns| == |s.conns|
    && s' == s.(conns := s.conns[c := s'.conns[c]], standby := standby, connected := s'.connected)
  }

  lemma HandleFirst(s: State, c: nat) returns (more: seq<Action>)
    requires Loaded(s, c) && s.conns[c].dispatching && s.conns[c].inbox != []
    ensures CanTake(s, more)
    ensures var s' := After(s, more);
      && OnlyOn(s, s', c, s.standby || s.conns[c].inbox[0] == Disconnected)
      && s'.conns[c].inbox == s.conns[c].inbox[1..] && !s'.conns[c].between
      && s'.conns[c].dispatching && s'.conns[c].reading == s.conns[c].reading
  {
    var handling, clearing, setting := OnConn(c, Handle), OnConn(c, ClearConnected), OnConn(c, SetStandby);
    if s.conns[c].inbox[0] == Ordinary {
      First(s, handling, []);
      more := [handling] + [];
    } else if s.conns[c].between {
      First(s, clearing, []);
      more := [clearing] + [];
    } else {
      First(Step(s, setting), clearing, []);
      First(s, setting, [clearing] + []);
      more := [setting] + ([clearing] + []);
    }
  }

  lemma OnlyOnTwice(s: State, s': State, t: State, c: nat, first: bool, second: bool)
    requires c < |s.conns| && OnlyOn(s, s', c, first) && OnlyOn(s', t, c, second)
    ensures OnlyOn(s, t, c, second)
  {
    assert t.conns == s.conns[c := t.conns[c]];
  }

  lemma {:induction false} HandleAll(s: State, c: nat) returns (more: seq<Action>)
    requires Loaded(s, c) && s.conns[c].dispatching
    ensures CanTake(s, more)
    ensures var s' := After(s, more);
      && OnlyOn(s, s', c, s.standby || Disconnected in s.conns[c].inbox)
      && s'.conns[c].inbox == [] && s'.conns[c].dispatching && s'.conns[c].reading == s.conns[c].reading
    decreases |s.conns[c].inbox|
  {
    var inbox := s.conns[c].inbox;
    if inbox == [] {
      more := [];
      assert s == s.(conns := s.conns[c := s.conns[c]]);
    } else {
      var one := HandleFirst(s, c);
      var s' := After(s, one);
      var rest := HandleAll(s', c);
      Then(s, one, rest);
      assert inbox == [inbox[0]] + inbox[1..];
      OnlyOnTwice(s, s', After(s', rest), c, s'.standby, s'.standby || Disconnected in inbox[1..]);
      more := one + rest;
    }
  }

  lemma StopReading(s: State, c: nat) returns (more: seq<Action>)
    requires Loaded(s, c)
    ensures CanTake(s, more)
    ensures var s' := After(s, more);
      && OnlyOn(s, s', c, s.standby) && Loaded(s', c) && !s'.conns[c].reading
      && s'.conns[c].inbox == s.conns[c].inbox && s'.conns[c].dispatching == s.conns[c].dispatching
  {
    var exit := OnConn(c, ReadExit);
    more := [];
    if s.conns[c].reading {
      First(s, exit, []);
      more := [exit] + [];
    } else {
      assert s == s.(conns := s.conns[c := s.conns[c]]);
    }
  }

  /** A connection can be read to its end and all it read handled; a disconnected event among that sets standby. */
  lemma Drain(s: State, c: nat) returns (more: seq<Action>)
    requires Loaded(s, c) && (!s.conns[c].dispatching ==> s.conns[c].inbox == [])
    ensures CanTake(s, more)
    ensures var s' := After(s, more);
      && OnlyOn(s, s', c, s.standby || Disconnected in s.conns[c].inbox)
      && !s'.conns[c].reading && !s'.conns[c].dispatching && s'.conns[c].inbox == []
  {
    var first := StopReading(s, c);
    var s' := After(s, first);
    if !s'.conns[c].dispatching { return first; }
    var second := HandleAll(s', c);
    var t := After(s', second);
    var exit := OnConn(c, DispatchExit);
    First(t, exit, []);
    Then(s', second, [exit] + []);
    Then(s, first, second + ([exit] + []));
    more := first + (second + ([exit] + []));
    OnlyOnTwice(s, s', t, c, s'.standby, t.standby);
    OnlyOnTwice(s, t, Step(t, exit), c, t.standby, t.standby);
  }

  // ---- where the loop comes to rest ------------------------------------------------------------

  /** A disconnected event has been handled, is being, or has been read. */
  predicate MustStandBy(s: State) {
    s.standby || (s.conns != [] && Disconnected in s.conns[|s.conns| - 1].inbox)
  }

  function RestOf(cancelled: bool, standby: bool): Phase {
    if cancelled then Returned else if standby then Parked else Ready
  }

  lemma FromTop(s: State) returns (more: seq<Action>)
    requires s.phase == Top
    ensures CanTake(s, more) && After(s, more).phase == RestOf(s.cancelled, s.standby)
  {
    var check, wake := Loop(CheckTop), Loop(Wake);
    var s' := Step(s, check);
    if s'.phase == Sleeping {
      First(s', wake, []);
      First(s, check, [wake] + []);
      more := [check] + ([wake] + []);
    } else {
      First(s, check, []);
      more := [check] + [];
    }
  }

  lemma FromDrained(s: State) returns (more: seq<Action>)
    requires s.phase in {DrainFailed, DrainLost} && s.conns != [] && !s.conns[|s.conns| - 1].dispatching
    ensures CanTake(s, more) && After(s, more).phase == RestOf(s.cancelled, s.standby)
  {
    var drained := Loop(Drained);
    var s' := Step(s, drained);
    var rest := [];
    if s'.phase == Top { rest := FromTop(s'); }
    First(s, drained, rest);
    more := [drained] + rest;
  }

  lemma FromDraining(s: State) returns (more: seq<Action>)
    requires Inv(s) && s.phase in {DrainFailed, DrainLost}
    ensures CanTake(s, more) && After(s, more).phase == RestOf(s.cancelled, MustStandBy(s))
  {
    var c := |s.conns| - 1;
    assert ConnOk(s, c);
    if s.conns[c].between { assert Kicked(s.conns[c]); }
    var drain := Drain(s, c);
    var rest := FromDrained(After(s, drain));
    Then(s, drain, rest);
    more := drain + rest;
  }

  lemma FromSubscribing(s: State) returns (more: seq<Action>)
    requires Inv(s) && s.phase == Subscribing
    ensures CanTake(s, more) && After(s, more).phase == RestOf(s.cancelled, MustStandBy(s))
  {
    var failed := Loop(Subscribed(false));
    StepKeepsInv(s, failed);
    var rest := FromDraining(Step(s, failed));
    First(s, failed, rest);
    more := [failed] + rest;
  }

  lemma FromOnline(s: State) returns (more: seq<Action>)
    requires Inv(s) && s.phase == Online && !s.conns[|s.conns| - 1].reading
    ensures CanTake(s, more) && After(s, more).phase == RestOf(s.cancelled, MustStandBy(s))
  {
    var lose := Loop(LoseConnection);
    StepKeepsInv(s, lose);
    var rest := FromDraining(Step(s, lose));
    First(s, lose, rest);
    more := [lose] + rest;
  }

  lemma FromReading(s: State) returns (more: seq<Action>)
    requires Inv(s) && s.phase == Online
    ensures CanTake(s, more) && After(s, more).phase == RestOf(s.cancelled, MustStandBy(s))
  {
    var c := |s.conns| - 1;
    if !s.conns[c].reading {
      more := FromOnline(s);
    } else {
      var exit := OnConn(c, ReadExit);
      StepKeepsInv(s, exit);
      var rest := FromOnline(Step(s, exit));
      First(s, exit, rest);
      more := [exit] + rest;
    }
  }

  lemma OneMove(s: State, m: Move, phase: Phase) returns (more: seq<Action>)
    requires MoveEnabled(s, m) && Moved(s, m).phase == phase
    ensures CanTake(s, more) && After(s, more).phase == phase
  {
    First(s, Loop(m), []);
    more := [Loop(m)] + [];
  }

  /** Off a connection nothing is pending, so only handled events count. */
  lemma NothingPending(s: State)
    requires Inv(s) && !HoldsConnection(s.phase)
    ensures MustStandBy(s) <==> s.standby
  {
    if s.conns != [] { assert ConnOk(s, |s.conns| - 1); }
  }

  /**
   Wherever a run stands, once its connection is lost or its subscription fails the loop comes to rest:
   returned if cancelled, else parked if a disconnected event was read, else ready to dial again.
   */
  lemma ComesToRest(states: seq<State>, acts: seq<Action>, k: nat) returns (more: seq<Action>)
    requires IsRun(states, acts) && k < |states|
    ensures CanTake(states[k], more)
    ensures After(states[k], more).phase == RestOf(states[k].cancelled, MustStandBy(states[k]))
  {
    var s := states[k];
    RunKeepsInv(states, acts, k);
    RestsForAReason(states, acts, k);
    if !HoldsConnection(s.phase) { NothingPending(s); }
    more := [];
    match s.phase
    case Top => more := FromTop(s);
    case Sleeping => more := OneMove(s, Wake, RestOf(s.cancelled, false));
    case Ready => if s.cancelled { more := OneMove(s, Dial(false), Returned); }
    case Subscribing => more := FromSubscribing(s);
    case DrainFailed => more := FromDraining(s);
    case Online => more := FromReading(s);
    case DrainLost => more := FromDraining(s);
    case Parked => if s.cancelled { more := OneMove(s, Unpark, Returned); }
    case Returned =>
  }

  /** Parked it stays until cancelled, returned it stays for good, and ready it can dial. */
  lemma RestIsRest(s: State, m: Move)
    ensures s.phase == Returned ==> !MoveEnabled(s, m)
    ensures s.phase == Parked ==> (MoveEnabled(s, m) <==> m == Unpark && s.cancelled)
    ensures s.phase == Ready ==> (MoveEnabled(s, m) <==> m.Dial?)
  {
  }
}
