/**
 Streaming replies of the WeCom adapter (edge/internal/wecom/stream.go): a stream is opened, updated
 in full, and must be finished; a sweep finishes those nine minutes old.

 The per-stream lock makes "decide, send, record" one step, so a step here is one such section. A
 send either returned nil or it did not; a frame whose acknowledgement was lost counts as not nil.
 */
module WecomStreamCells {
  import opened Texts

  const SECOND := 1_000_000_000
  const AUTO_FINISH_AFTER := 9 * 60 * SECOND

  datatype CardStatus = Unspecified | Working | Delivered | Failed | Cancelled

  /** A checklist card, already rendered to markdown. */
  datatype Card = Card(taskNo: string, status: CardStatus, rendered: string)

  datatype Frame = Frame(id: string, finish: bool, content: string)

  predicate IsTerminal(s: CardStatus) {
    s == Delivered || s == Failed || s == Cancelled
  }

  function ProgressPointer(taskNo: string): string {
    if taskNo == "" then "" else "\n\n\U{8FDB}\U{5EA6}\U{89C1} " + taskNo
  }

  datatype Stream = Stream(id: string, reqId: string, taskNo: string, content: string, openedAt: int, finished: bool)
  {
    predicate Due(now: int) { now - openedAt >= AUTO_FINISH_AFTER }

    /** The frame an update would send, and the task number it leaves behind whatever the send returns. */
    function UpdateFrame(card: Card, now: int): (Stream, Frame) {
      var st := this.(taskNo := if card.taskNo != "" then card.taskNo else taskNo);
      var finish := IsTerminal(card.status);
      if !finish && Due(now) then (st, Frame(id, true, card.rendered + ProgressPointer(st.taskNo)))
      else (st, Frame(id, finish, card.rendered))
    }

    function Updated(card: Card, now: int, ok: bool): (Stream, Option<Frame>) {
      if finished then (this, None)
      else
        var (st, frame) := UpdateFrame(card, now);
        (if ok then st.(content := card.rendered, finished := frame.finish) else st, Some(frame))
    }

    function Swept(now: int, ok: bool): (Stream, Option<Frame>) {
      if finished || !Due(now) then (this, None)
      else (if ok then this.(finished := true) else this, Some(Frame(id, true, content + ProgressPointer(taskNo))))
    }
  }

  /** The mutable stream record, its methods run under its own lock. */
  class StreamCell {
    const id: string
    const reqId: string
    const openedAt: int
    var taskNo: string
    var content: string
    var finished: bool

    ghost function View(): Stream reads this { Stream(id, reqId, taskNo, content, openedAt, finished) }

    constructor (id: string, reqId: string, taskNo: string, content: string, openedAt: int, finish: bool)
      ensures View() == Stream(id, reqId, taskNo, content, openedAt, finish)
    {
      this.id, this.reqId, this.taskNo, this.content, this.openedAt, this.finished :=
        id, reqId, taskNo, content, openedAt, finish;
    }

    method Update(card: Card, now: int, sendOk: bool) returns (sent: Option<Frame>)
      modifies this
      ensures (View(), sent) == old(View()).Updated(card, now, sendOk)
      ensures sent == None <==> old(finished)
      ensures taskNo == if old(finished) || card.taskNo == "" then old(taskNo) else card.taskNo
      ensures sent.Some? ==>
        var terminal := card.status in {Delivered, Failed, Cancelled};
        && sent.value.id == id && (sent.value.finish <==> terminal || now - openedAt >= 540 * SECOND)
        && sent.value.content == card.rendered
             + if terminal || now - openedAt < 540 * SECOND then "" else ProgressPointer(taskNo)
      ensures sent.Some? && sendOk ==> content == card.rendered && finished == sent.value.finish
      ensures sent.None? || !sendOk ==> content == old(content) && finished == old(finished)
    {
      if finished { return None; }
      if card.taskNo != "" { taskNo := card.taskNo; }
      var finish := IsTerminal(card.status);
      var toSend := card.rendered;
      if !finish && now - openedAt >= AUTO_FINISH_AFTER {
        finish := true;
        toSend := card.rendered + ProgressPointer(taskNo);
      }
      sent := Some(Frame(id, finish, toSend));
      if sendOk {
        content := card.rendered;
        finished := finish;
      }
    }

    method AutoFinish(now: int, sendOk: bool) returns (sent: Option<Frame>)
      modifies this
      ensures (View(), sent) == old(View()).Swept(now, sendOk)
      ensures sent == if old(finished) || now - openedAt < 540 * SECOND then None
                      else Some(Frame(id, true, old(content) + ProgressPointer(old(taskNo))))
      ensures finished <==> old(finished) || (sendOk && now - openedAt >= 540 * SECOND)
      ensures content == old(content) && taskNo == old(taskNo)
    {
      sent := None;
      if !finished && now - openedAt >= AUTO_FINISH_AFTER {
        sent := Some(Frame(id, true, content + ProgressPointer(taskNo)));
        if sendOk { finished := true; }
      }
    }
  }
}

module WecomStreams {
  import opened Texts
  import opened BoundedMaps
  import opened WecomStreamCells

  datatype Origin = Opening(taskNo: string) | Update(card: Card) | Sweep

  /** One frame handed to the connection, with what a reader of the log needs to judge it. */
  datatype Sent = Sent(frame: Frame, origin: Origin, age: int, ok: bool)

  /** A running sweep: the clock it read once, the streams still to visit, whether every send returned nil. */
  datatype Sweeper = Idle | Sweeping(now: int, snapshot: seq<string>, todo: seq<string>, allOk: bool)

  datatype State = State(
    streams: map<string, Stream>,      // every stream ever opened, in the table or not
    table: Entries<()>,
    opening: set<string>,              // first frame sent, not yet in the table
    used: set<string>,                 // ids ever drawn
    sweeper: Sweeper,
    log: seq<Sent>)

  const TABLE_CAP := 4096

  datatype Action =
    | Open(id: string, reqId: string, taskNo: string, content: string, now: int, finish: bool, ok: bool)
    | Enter(id: string)
    | UpdateCard(id: string, card: Card, now: int, ok: bool)
    | BeginSweep(now: int)
    | SweepNext(ok: bool)
    | EndSweep

  function Init(): State { State(map[], [], {}, {}, Idle, []) }

  function Ids(es: Entries<()>): (ids: seq<string>)
    ensures |ids| == |es|
  {
    seq(|es|, i requires 0 <= i < |es| => es[i].0)
  }

  predicate Enabled(s: State, a: Action) {
    match a
    case Open(id, _, _, _, _, _, _) => id !in s.used
    case Enter(id) => id in s.opening
    case UpdateCard(id, _, _, _) => id in s.streams && id !in s.opening
    case BeginSweep(_) => s.sweeper.Idle?
    case SweepNext(_) => s.sweeper.Sweeping? && s.sweeper.todo != [] && s.sweeper.todo[0] in s.streams
    case EndSweep => s.sweeper.Sweeping? && s.sweeper.todo == []
  }

  function Logged(log: seq<Sent>, frame: Option<Frame>, origin: Origin, age: int, ok: bool): seq<Sent> {
    if frame.Some? then log + [Sent(frame.value, origin, age, ok)] else log
  }

  function Step(s: State, a: Action): State
    requires Enabled(s, a)
  {
    match a
    case Open(id, reqId, taskNo, content, now, finish, ok) =>
      var log := Logged(s.log, Some(Frame(id, finish, content)), Opening(taskNo), 0, ok);
      var s' := s.(used := s.used + {id}, log := log);
      if ok then
        s'.(streams := s.streams[id := Stream(id, reqId, taskNo, content, now, finish)], opening := s.opening + {id})
      else s'
    case Enter(id) => s.(table := Put(s.table, TABLE_CAP, id, ()), opening := s.opening - {id})
    case UpdateCard(id, card, now, ok) =>
      var (st, frame) := s.streams[id].Updated(card, now, ok);
      s.(streams := s.streams[id := st], log := Logged(s.log, frame, Update(card), now - st.openedAt, ok))
    case BeginSweep(now) => s.(sweeper := Sweeping(now, Ids(s.table), Ids(s.table), true))
    case SweepNext(ok) =>
      var w, id := s.sweeper, s.sweeper.todo[0];
      var (st, frame) := s.streams[id].Swept(w.now, ok);
      s.(streams := s.streams[id := st],
         log := Logged(s.log, frame, Sweep, w.now - st.openedAt, ok),
         sweeper := w.(todo := w.todo[1..], allOk := w.allOk && (ok || frame == None)))
    case EndSweep => s.(sweeper := Idle)
  }

  ghost predicate IsRun(states: seq<State>, acts: seq<Action>) {
    && |states| == |acts| + 1 && states[0] == Init()
    && forall i | 0 <= i < |acts| :: Enabled(states[i], acts[i]) && states[i + 1] == Step(states[i], acts[i])
  }

  // ---- what the log says ---------------------------------------------------

  predicate IsClosing(e: Sent, id: string) {
    e.frame.id == id && e.frame.finish && e.ok
  }

  /** The content last pushed for a stream by an opening or an update whose send returned nil. */
  function LastPushed(log: seq<Sent>, id: string): string {
    if log == [] then "" else
    var e := log[|log| - 1];
    if e.frame.id == id && e.ok && e.origin.Opening? then e.frame.content
    else if e.frame.id == id && e.ok && e.origin.Update? then e.origin.card.rendered
    else LastPushed(log[..|log| - 1], id)
  }

  /** The task number last set: the opening's, then each card's that has one, whatever its send returned. */
  function LastTaskNo(log: seq<Sent>, id: string): string {
    if log == [] then "" else
    var e := log[|log| - 1];
    if e.frame.id == id && e.origin.Opening? then e.origin.taskNo
    else if e.frame.id == id && e.origin.Update? && e.origin.card.taskNo != "" then e.origin.card.taskNo
    else LastTaskNo(log[..|log| - 1], id)
  }

  /** What a frame may look like at position n of the log. */
  ghost predicate WellSent(log: seq<Sent>, n: nat)
    requires n < |log|
  {
    var e := log[n];
    // nothing follows a finish frame whose send returned nil
    && (forall m | 0 <= m < n :: !IsClosing(log[m], e.frame.id))
    // an old stream only ever gets a finish frame
    && (!e.origin.Opening? && e.age >= AUTO_FINISH_AFTER ==> e.frame.finish)
    // an update pushes the card, finishing it if terminal, or adds the stream's pointer when it finishes for age alone
    && (e.origin.Update? ==>
          var terminal := IsTerminal(e.origin.card.status);
          && (e.frame.finish <==> terminal || e.age >= AUTO_FINISH_AFTER)
          && (terminal || !e.frame.finish ==> e.frame.content == e.origin.card.rendered)
          && (!terminal && e.frame.finish ==>
                e.frame.content == e.origin.card.rendered + ProgressPointer(LastTaskNo(log[..n + 1], e.frame.id))))
    // a sweep re-sends what was last pushed, with the stream's pointer
    && (e.origin.Sweep? ==>
          && e.frame.finish && e.age >= AUTO_FINISH_AFTER
          && e.frame.content == LastPushed(log[..n], e.frame.id) + ProgressPointer(LastTaskNo(log[..n], e.frame.id)))
  }

  ghost predicate Faithful(s: State) {
    forall id | id in s.streams ::
      && s.streams[id].id == id && id in s.used
      && s.streams[id].content == LastPushed(s.log, id) && s.streams[id].taskNo == LastTaskNo(s.log, id)
      && (s.streams[id].finished <==> exists n :: 0 <= n < |s.log| && IsClosing(s.log[n], id))
  }

  ghost predicate LogOk(s: State) {
    && (forall n | 0 <= n < |s.log| :: s.log[n].frame.id in s.used && WellSent(s.log, n))
    && (forall n | 0 <= n < |s.log| && s.log[n].frame.id !in s.streams :: !s.log[n].ok)
  }

  ghost predicate SweepOk(s: State) {
    && (forall i | 0 <= i < |s.table| :: s.table[i].0 in s.streams)
    && s.opening <= s.streams.Keys
    && (s.sweeper.Sweeping? ==>
          && (forall id | id in s.sweeper.snapshot :: id in s.streams)
          && (forall id | id in s.sweeper.todo :: id in s.sweeper.snapshot)
          && (s.sweeper.allOk ==> forall id | id in s.sweeper.snapshot && id !in s.sweeper.todo ::
                s.streams[id].finished || !s.streams[id].Due(s.sweeper.now)))
  }

  ghost predicate Inv(s: State) { Faithful(s) && LogOk(s) && SweepOk(s) }

  // ---- appending to the log ------------------------------------------------

  lemma AppendKeepsEarlier(log: seq<Sent>, e: Sent, n: nat)
    requires n < |log| && WellSent(log, n)
    ensures WellSent(log + [e], n)
  {
    var log' := log + [e];
    assert log'[..n] == log[..n] && log'[..n + 1] == log[..n + 1];
    assert forall m | 0 <= m <= n :: log'[m] == log[m];
  }

  lemma LastPushedAfter(log: seq<Sent>, e: Sent, id: string)
    ensures LastPushed(log + [e], id)
         == if e.frame.id == id && e.ok && e.origin.Opening? then e.frame.content
            else if e.frame.id == id && e.ok && e.origin.Update? then e.origin.card.rendered
            else LastPushed(log, id)
  {
    assert (log + [e])[..|log|] == log;
  }

  lemma LastTaskNoAfter(log: seq<Sent>, e: Sent, id: string)
    ensures LastTaskNo(log + [e], id)
         == if e.frame.id == id && e.origin.Opening? then e.origin.taskNo
            else if e.frame.id == id && e.origin.Update? && e.origin.card.taskNo != "" then e.origin.card.taskNo
            else LastTaskNo(log, id)
  {
    assert (log + [e])[..|log|] == log;
  }

  lemma ClosingAfter(log: seq<Sent>, e: Sent, id: string)
    ensures (exists n :: 0 <= n < |log + [e]| && IsClosing((log + [e])[n], id))
       <==> IsClosing(e, id) || exists n :: 0 <= n < |log| && IsClosing(log[n], id)
  {
    var log' := log + [e];
    if IsClosing(e, id) { assert IsClosing(log'[|log|], id); }
    if n :| 0 <= n < |log| && IsClosing(log[n], id) { assert IsClosing(log'[n], id); }
    if n :| 0 <= n < |log'| && IsClosing(log'[n], id) { assert n < |log| ==> IsClosing(log[n], id); }
  }

  /** A logged frame on one stream keeps everything, given that the frame itself is well sent. */
  lemma AppendKeepsLog(s: State, s': State, e: Sent)
    requires Inv(s) && s'.log == s.log + [e] && s.used <= s'.used && e.frame.id in s'.used
    requires s'.streams.Keys >= s.streams.Keys && (e.frame.id in s'.streams || !e.ok)
    requires WellSent(s'.log, |s.log|)
    ensures LogOk(s')
  {
    forall n | 0 <= n < |s'.log| ensures s'.log[n].frame.id in s'.used && WellSent(s'.log, n) {
      if n < |s.log| { AppendKeepsEarlier(s.log, e, n); assert s'.log[n] == s.log[n]; }
    }
  }

  // ---- one step ------------------------------------------------------------

  lemma OpenKeepsInv(s: State, a: Action)
    requires Inv(s) && Enabled(s, a) && a.Open?
    ensures Inv(Step(s, a))
  {
    var s', e := Step(s, a), Sent(Frame(a.id, a.finish, a.content), Opening(a.taskNo), 0, a.ok);
    assert s'.log[..|s.log|] == s.log;
    assert forall n | 0 <= n < |s.log| :: s.log[n].frame.id != a.id;
    AppendKeepsLog(s, s', e);
    forall id | id in s'.streams
      ensures s'.streams[id].content == LastPushed(s'.log, id) && s'.streams[id].taskNo == LastTaskNo(s'.log, id)
      ensures s'.streams[id].finished <==> exists n :: 0 <= n < |s'.log| && IsClosing(s'.log[n], id)
    {
      LastPushedAfter(s.log, e, id);
      LastTaskNoAfter(s.log, e, id);
      ClosingAfter(s.log, e, id);
    }
  }

  /** What an update or a sweep does to its stream and the log, seen as one step. */
  lemma PushKeepsLog(s: State, s': State, id: string, st: Stream, e: Sent)
    requires Inv(s) && id in s.streams && !s.streams[id].finished && e.frame.id == id && !e.origin.Opening?
    requires s'.log == s.log + [e] && s'.streams == s.streams[id := st] && s'.used == s.used
    requires st.id == id && st.finished == (e.ok && e.frame.finish)
    requires st.content == if e.ok && e.origin.Update? then e.origin.card.rendered else s.streams[id].content
    requires st.taskNo ==
      if e.origin.Update? && e.origin.card.taskNo != "" then e.origin.card.taskNo else s.streams[id].taskNo
    requires WellSent(s'.log, |s.log|)
    ensures Faithful(s') && LogOk(s')
  {
    AppendKeepsLog(s, s', e);
    forall x | x in s'.streams
      ensures s'.streams[x].content == LastPushed(s'.log, x) && s'.streams[x].taskNo == LastTaskNo(s'.log, x)
      ensures s'.streams[x].finished <==> exists n :: 0 <= n < |s'.log| && IsClosing(s'.log[n], x)
    {
      LastPushedAfter(s.log, e, x);
      LastTaskNoAfter(s.log, e, x);
      ClosingAfter(s.log, e, x);
    }
  }

  lemma UpdateKeepsLog(s: State, a: Action)
    requires Inv(s) && Enabled(s, a) && a.UpdateCard?
    ensures Faithful(Step(s, a)) && LogOk(Step(s, a))
  {
    var s', st0 := Step(s, a), s.streams[a.id];
    if st0.finished {
      assert s'.streams == s.streams;
    } else {
      var (st, frame) := st0.UpdateFrame(a.card, a.now);
      var e := Sent(frame, Update(a.card), a.now - st0.openedAt, a.ok);
      assert s'.log == s.log + [e];
      assert s'.log[..|s.log|] == s.log && s'.log[|s.log|] == e && s'.log[..|s.log| + 1] == s'.log;
      LastTaskNoAfter(s.log, e, a.id);
      PushKeepsLog(s, s', a.id, s'.streams[a.id], e);
    }
  }

  lemma SweepKeepsLog(s: State, a: Action)
    requires Inv(s) && Enabled(s, a) && a.SweepNext?
    ensures Faithful(Step(s, a)) && LogOk(Step(s, a))
  {
    var s', id := Step(s, a), s.sweeper.todo[0];
    var st0 := s.streams[id];
    if st0.finished || !st0.Due(s.sweeper.now) {
      assert s'.streams == s.streams;
    } else {
      var frame := Frame(id, true, st0.content + ProgressPointer(st0.taskNo));
      var e := Sent(frame, Sweep, s.sweeper.now - st0.openedAt, a.ok);
      assert s'.log == s.log + [e];
      assert s'.log[..|s.log|] == s.log && s'.log[|s.log|] == e;
      PushKeepsLog(s, s', id, s'.streams[id], e);
    }
  }

  lemma PutIsFromBefore(es: Entries<()>, cap: nat, id: string)
    ensures var r := Put(es, cap, id, ()); forall i | 0 <= i < |r| :: r[i].0 == id || r[i] in es
  {
    var up := Upsert(es, id, ());
    assert forall i | 0 <= i < |up| :: up[i].0 == id || up[i] in es;
  }

  lemma StepKeepsSweep(s: State, a: Action)
    requires Inv(s) && Enabled(s, a)
    ensures SweepOk(Step(s, a))
  {
    var s' := Step(s, a);
    match a
    case Enter(id) =>
      PutIsFromBefore(s.table, TABLE_CAP, id);
      forall i | 0 <= i < |s'.table| ensures s'.table[i].0 in s'.streams {
        if s'.table[i].0 != id { var j :| 0 <= j < |s.table| && s.table[j] == s'.table[i]; }
      }
    case BeginSweep(now) =>
      assert forall id | id in s'.sweeper.snapshot :: id in s.streams by {
        forall id | id in s'.sweeper.snapshot ensures id in s.streams {
          var i :| 0 <= i < |s.table| && Ids(s.table)[i] == id;
          assert s.table[i].0 == id;
        }
      }
    case SweepNext(ok) =>
      var todo := s.sweeper.todo;
      assert todo == [todo[0]] + todo[1..];
    case _ =>
  }

  lemma {:induction false} RunKeepsInv(states: seq<State>, acts: seq<Action>, k: nat)
    requires IsRun(states, acts) && k < |states|
    ensures Inv(states[k])
    decreases k
  {
    if k > 0 {
      RunKeepsInv(states, acts, k - 1);
      var s, a := states[k - 1], acts[k - 1];
      StepKeepsSweep(s, a);
      match a {
        case Open(_, _, _, _, _, _, _) => OpenKeepsInv(s, a);
        case UpdateCard(_, _, _, _) => UpdateKeepsLog(s, a);
        case SweepNext(_) => SweepKeepsLog(s, a);
        case _ =>
      }
    }
  }

  // ---- what holds over whole runs ------------------------------------------

  /** After a finish frame whose send returned nil, no frame goes out on that stream. */
  lemma FinishedStreamsStaySilent(states: seq<State>, acts: seq<Action>, k: nat, m: nat, n: nat)
    requires IsRun(states, acts) && k < |states| && m < n < |states[k].log|
    requires states[k].log[m].frame.finish && states[k].log[m].ok
    ensures states[k].log[n].frame.id != states[k].log[m].frame.id
  {
    RunKeepsInv(states, acts, k);
    assert WellSent(states[k].log, n);
    assert IsClosing(states[k].log[m], states[k].log[m].frame.id);
  }

  /** At nine minutes or more every update or sweep frame is a finish frame. */
  lemma OldStreamsOnlyFinish(states: seq<State>, acts: seq<Action>, k: nat, n: nat)
    requires IsRun(states, acts) && k < |states| && n < |states[k].log|
    requires !states[k].log[n].origin.Opening? && states[k].log[n].age >= AUTO_FINISH_AFTER
    ensures states[k].log[n].frame.finish
  {
    RunKeepsInv(states, acts, k);
    assert WellSent(states[k].log, n);
  }

  /** What is stored is the rendering last pushed, without a pointer, and the task number last set. */
  lemma StoredContentHasNoPointer(states: seq<State>, acts: seq<Action>, k: nat, id: string)
    requires IsRun(states, acts) && k < |states| && id in states[k].streams
    ensures states[k].streams[id].content == LastPushed(states[k].log, id)
    ensures states[k].streams[id].taskNo == LastTaskNo(states[k].log, id)
    ensures k < |acts| && acts[k] == SweepNext(false) && states[k].sweeper.todo[0] == id ==>
      states[k + 1].streams[id] == states[k].streams[id]
  {
    RunKeepsInv(states, acts, k);
    if k < |acts| { assert Enabled(states[k], acts[k]); }
  }

  /** A sweep frame is the rendering last pushed with one pointer, to the task last set. */
  lemma SweepFrameIs(states: seq<State>, acts: seq<Action>, k: nat, n: nat)
    requires IsRun(states, acts) && k < |states| && n < |states[k].log| && states[k].log[n].origin.Sweep?
    ensures var log, id := states[k].log, states[k].log[n].frame.id;
      log[n].frame == Frame(id, true, LastPushed(log[..n], id) + ProgressPointer(LastTaskNo(log[..n], id)))
  {
    RunKeepsInv(states, acts, k);
    assert WellSent(states[k].log, n);
  }

  lemma {:induction false} SweepsSetNothing(log: seq<Sent>, m: nat, n: nat, id: string)
    requires m <= n <= |log| && forall k | m <= k < n && log[k].frame.id == id :: log[k].origin.Sweep?
    ensures LastPushed(log[..n], id) == LastPushed(log[..m], id) && LastTaskNo(log[..n], id) == LastTaskNo(log[..m], id)
    decreases n - m
  {
    if m < n {
      SweepsSetNothing(log, m, n - 1, id);
      assert log[..n] == log[..n - 1] + [log[n - 1]];
      LastPushedAfter(log[..n - 1], log[n - 1], id);
      LastTaskNoAfter(log[..n - 1], log[n - 1], id);
    }
  }

  /** A sweep that tries again, with no update in between, sends the very same frame, with no second pointer. */
  lemma RetriedSweepSendsTheSame(states: seq<State>, acts: seq<Action>, k: nat, m: nat, n: nat)
    requires IsRun(states, acts) && k < |states| && m <= n < |states[k].log|
    requires states[k].log[m].frame.id == states[k].log[n].frame.id
    requires forall x | m <= x <= n && states[k].log[x].frame.id == states[k].log[m].frame.id ::
      states[k].log[x].origin.Sweep?
    ensures states[k].log[n].frame == states[k].log[m].frame
  {
    SweepFrameIs(states, acts, k, m);
    SweepFrameIs(states, acts, k, n);
    SweepsSetNothing(states[k].log, m, n, states[k].log[m].frame.id);
  }

  // ---- whole sweeps ----------------------------------------------------------

  /** A sweep starts at step i and none has ended before step k. */
  ghost predicate SweepRuns(acts: seq<Action>, i: nat, k: nat, now: int) {
    i < k <= |acts| && acts[i] == BeginSweep(now) && forall m | i < m < k :: acts[m] != EndSweep
  }

  /** Step m is a sweep's send that did not return nil. */
  predicate FailedSend(states: seq<State>, acts: seq<Action>, m: nat)
    requires m < |acts| && m + 1 < |states|
  {
    acts[m] == SweepNext(false) && states[m + 1].log != states[m].log
  }

  lemma {:induction false} SweepKeepsSnapshot(states: seq<State>, acts: seq<Action>, i: nat, k: nat, now: int)
    requires IsRun(states, acts) && SweepRuns(acts, i, k, now)
    ensures var w := states[k].sweeper;
      && w.Sweeping? && w.now == now && w.snapshot == Ids(states[i].table)
      && (w.allOk <==> forall m | i < m < k :: !FailedSend(states, acts, m))
    decreases k
  {
    assert Enabled(states[k - 1], acts[k - 1]);
    if i + 1 < k {
      SweepKeepsSnapshot(states, acts, i, k - 1, now);
      SweeperStep(states[k - 1], acts[k - 1]);
      assert states[k].sweeper.allOk <==> states[k - 1].sweeper.allOk && !FailedSend(states, acts, k - 1);
    }
  }

  lemma SweeperStep(s: State, a: Action)
    requires Enabled(s, a) && s.sweeper.Sweeping? && a != EndSweep
    ensures var w, w' := s.sweeper, Step(s, a).sweeper;
      && w'.Sweeping? && w'.now == w.now && w'.snapshot == w.snapshot
      && (w'.allOk <==> w.allOk && (a == SweepNext(false) ==> Step(s, a).log == s.log))
  {
    if a.SweepNext? {
      var frame := s.streams[s.sweeper.todo[0]].Swept(s.sweeper.now, a.ok).1;
      if frame.Some? { assert |Step(s, a).log| == |s.log| + 1; }
    }
  }

  /** After a sweep whose sends all returned nil, nothing that was in the table when it began is old and unfinished. */
  lemma SweepLeavesNothingOld(states: seq<State>, acts: seq<Action>, i: nat, k: nat, now: int, n: nat)
    requires IsRun(states, acts) && k < |acts| && SweepRuns(acts, i, k, now) && acts[k] == EndSweep
    requires forall m | i < m < k :: !FailedSend(states, acts, m)
    requires n < |states[i].table|
    ensures var id := states[i].table[n].0;
      id in states[k].streams && (states[k].streams[id].finished || !states[k].streams[id].Due(now))
  {
    RunKeepsInv(states, acts, k);
    SweepKeepsSnapshot(states, acts, i, k, now);
    assert Enabled(states[k], acts[k]);
    assert Ids(states[i].table)[n] == states[i].table[n].0;
  }

  /** A card's frame with status, age and pointer spelled out. */
  lemma UpdateFramesSpelled(states: seq<State>, acts: seq<Action>, k: nat, n: nat)
    requires IsRun(states, acts) && k < |states| && n < |states[k].log| && states[k].log[n].origin.Update?
    ensures var log := states[k].log;
      var e := log[n];
      var terminal := e.origin.card.status in {Delivered, Failed, Cancelled};
      var taskNo := LastTaskNo(log[..n + 1], e.frame.id);
      && (e.frame.finish <==> terminal || e.age >= 540_000_000_000)
      && e.frame.content == e.origin.card.rendered
           + if terminal || e.age < 540_000_000_000 || taskNo == "" then ""
             else "\n\n\U{8FDB}\U{5EA6}\U{89C1} " + taskNo
  {
    RunKeepsInv(states, acts, k);
    assert WellSent(states[k].log, n);
    var e := states[k].log[n];
    assert e.origin.card.rendered + "" == e.origin.card.rendered;
  }

  ghost predicate Closed(log: seq<Sent>, id: string) { exists n :: 0 <= n < |log| && IsClosing(log[n], id) }

  /** An update sends one frame on a stream without a finish frame, and a visit of the sweep if it is also old. */
  lemma SendsUnlessClosed(states: seq<State>, acts: seq<Action>, k: nat)
    requires IsRun(states, acts) && k < |acts|
    ensures acts[k].UpdateCard? ==>
      |states[k + 1].log| == |states[k].log| + if Closed(states[k].log, acts[k].id) then 0 else 1
    ensures acts[k].SweepNext? ==>
      var w := states[k].sweeper;
      var young := w.now - states[k].streams[w.todo[0]].openedAt < 540_000_000_000;
      |states[k + 1].log| == |states[k].log| + if young || Closed(states[k].log, w.todo[0]) then 0 else 1
  {
    RunKeepsInv(states, acts, k);
    assert Enabled(states[k], acts[k]) && states[k + 1] == Step(states[k], acts[k]);
  }
}
