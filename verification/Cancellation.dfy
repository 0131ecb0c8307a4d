/**
 How many `cancelled` records one task's chain gets (core/crates/control/src/dispatch.rs): one from a
 worker at most, one from each cancel that cleans up, and when two cancels both do.
 */
module Cancellation {
  import opened Texts
  import opened DispatchTables
  import opened DispatchProtocol

  /** A worker writes at most one record for a task. */
  lemma OneWorkerRecord(states: seq<State>, acts: seq<Action>, j: nat, id: TaskId, m: nat, n: nat)
    requires IsRun(states, acts) && j < |states| && m < |states[j].evidence| && n < |states[j].evidence|
    requires states[j].evidence[m] == states[j].evidence[n] == WorkerCancelled(id)
    ensures m == n
  {
    RunKeepsInv(states, acts, j);
  }

  /** A cancel has a record of its own exactly when it saw its task idle and came to its end, and then one only. */
  lemma ClosedIdleCancelHasOneRecord(states: seq<State>, acts: seq<Action>, j: nat, c: nat)
    requires IsRun(states, acts) && j < |states| && c < |states[j].cancels|
    ensures var s := states[j];
      && ((exists n :: 0 <= n < |s.evidence| && RecordOf(s.evidence[n], c))
            <==> s.cancels[c].phase == Closed && !s.cancels[c].sawRunning)
      && (forall m, n | 0 <= m < |s.evidence| && 0 <= n < |s.evidence| ::
            RecordOf(s.evidence[m], c) && RecordOf(s.evidence[n], c) ==> m == n)
  {
    RunKeepsInv(states, acts, j);
    var s := states[j];
    if s.cancels[c].phase == Closed && !s.cancels[c].sawRunning {
      var n :| 0 <= n < |s.evidence| && s.evidence[n] == ControlCancelled(s.cancels[c].task, c);
      assert RecordOf(s.evidence[n], c);
    }
    forall n | 0 <= n < |s.evidence| && RecordOf(s.evidence[n], c)
      ensures s.evidence[n] == ControlCancelled(s.cancels[c].task, c)
      ensures s.cancels[c].phase == Closed && !s.cancels[c].sawRunning
    {
      assert Attributed(s, s.evidence[n]);
    }
  }

  predicate RecordOf(n: Note, c: nat) { n.ControlCancelled? && n.cancel == c }

  /** Two records of one task, of whichever kinds, are owed to two different cancels of it: one cancel yields one. */
  lemma OneCancelOneRecord(states: seq<State>, acts: seq<Action>, j: nat, id: TaskId, m: nat, n: nat)
    requires IsRun(states, acts) && j < |states| && m < |states[j].evidence| && n < |states[j].evidence|
    requires m != n && states[j].evidence[m].task == id && states[j].evidence[n].task == id
    ensures exists c, d :: TwoCancelsOf(states[j], id, c, d)
  {
    RunKeepsInv(states, acts, j);
    var s := states[j];
    assert Attributed(s, s.evidence[m]) && Attributed(s, s.evidence[n]);
    if s.evidence[m].ControlCancelled? && s.evidence[n].ControlCancelled? {
      var c, d := s.evidence[m].cancel, s.evidence[n].cancel;
      assert TwoCancelsOf(s, id, c, d);
    } else {
      var control := if s.evidence[m].ControlCancelled? then m else n;
      var d := s.evidence[control].cancel;
      var c :| 0 <= c < |s.cancels| && s.cancels[c].task == id && s.cancels[c].sawRunning;
      assert TwoCancelsOf(s, id, c, d);
    }
  }

  predicate TwoCancelsOf(s: State, id: TaskId, c: nat, d: nat) {
    c < |s.cancels| && d < |s.cancels| && c != d && s.cancels[c].task == id && s.cancels[d].task == id
  }

  // ---- when two cancels both write ----------------------------------------------

  predicate RereadAt(acts: seq<Action>, i: nat, c: nat) {
    i < |acts| && acts[i].Resume? && acts[i].c == c && acts[i].step.Reread?
  }

  /** d's save had gone through when step i was taken. */
  predicate SavedBy(states: seq<State>, i: nat, d: nat) {
    i < |states| && d < |states[i].cancels| && states[i].cancels[d].HasSaved()
  }

  /** c re-read the task at step i and d at step k: each before the other's save, or in vain. */
  predicate Crossed(states: seq<State>, acts: seq<Action>, c: nat, i: nat, d: nat, k: nat)
    requires RereadAt(acts, i, c) && RereadAt(acts, k, d)
  {
    (acts[i].step.ok ==> !SavedBy(states, i, d)) && (acts[k].step.ok ==> !SavedBy(states, k, c))
  }

  /** What a cancel's re-read finds decides for good whether it settles. */
  lemma {:induction false} AfterReread(states: seq<State>, acts: seq<Action>, i: nat, j: nat, c: nat)
    requires IsRun(states, acts) && RereadAt(acts, i, c) && i < j < |states|
    ensures c < |states[i].cancels| && c < |states[j].cancels| && states[i].cancels[c].phase == Begun
    ensures states[j].cancels[c].phase != Begun
    ensures states[j].cancels[c].phase == Settled <==>
      acts[i].step.ok && states[i].cancels[c].task in states[i].terminal
    decreases j - i
  {
    if i + 1 < j {
      AfterReread(states, acts, i, j - 1, c);
      assert Enabled(states[j - 1], acts[j - 1]);
    } else {
      assert Enabled(states[i], acts[i]);
    }
  }

  lemma {:induction false} RereadOf(states: seq<State>, acts: seq<Action>, j: nat, c: nat) returns (i: nat)
    requires IsRun(states, acts) && j < |states| && c < |states[j].cancels| && states[j].cancels[c].phase != Begun
    ensures i < j && RereadAt(acts, i, c)
    decreases j
  {
    assert Enabled(states[j - 1], acts[j - 1]);
    if c < |states[j - 1].cancels| && states[j - 1].cancels[c].phase != Begun {
      i := RereadOf(states, acts, j - 1, c);
    } else {
      i := j - 1;
    }
  }

  /** A cancel that re-reads successfully after another idle cancel of its task has saved settles and writes nothing. */
  lemma LaterCancelSettles(states: seq<State>, acts: seq<Action>, j: nat, c: nat, i: nat, d: nat)
    requires IsRun(states, acts) && RereadAt(acts, i, c) && i < j < |states| && acts[i].step.ok && SavedBy(states, i, d)
    requires c < |states[i].cancels| && !states[i].cancels[d].sawRunning
    requires states[i].cancels[c].task == states[i].cancels[d].task
    ensures c < |states[j].cancels| && states[j].cancels[c].phase == Settled
  {
    RunKeepsInv(states, acts, i);
    assert CancelOk(states[i], states[i].cancels[d]);
    AfterReread(states, acts, i, j, c);
  }

  ghost predicate IdlePair(s: State, id: TaskId, c: nat, d: nat) {
    && c < |s.cancels| && d < |s.cancels| && c != d
    && s.cancels[c].task == id && s.cancels[d].task == id && !s.cancels[c].sawRunning && !s.cancels[d].sawRunning
  }

  ghost predicate BothClosed(s: State, id: TaskId, c: nat, d: nat) {
    IdlePair(s, id, c, d) && s.cancels[c].phase == Closed && s.cancels[d].phase == Closed
  }

  lemma ClosedPairCrossed(states: seq<State>, acts: seq<Action>, j: nat, id: TaskId, c: nat, i: nat, d: nat, k: nat)
    requires IsRun(states, acts) && j < |states| && BothClosed(states[j], id, c, d)
    requires i < j && k < j && RereadAt(acts, i, c) && RereadAt(acts, k, d)
    ensures Crossed(states, acts, c, i, d, k)
  {
    AfterReread(states, acts, i, j, c);
    AfterReread(states, acts, k, j, d);
    CancelsPersist(states, acts, i, j, c);
    CancelsPersist(states, acts, k, j, d);
    if acts[i].step.ok && SavedBy(states, i, d) {
      CancelsPersist(states, acts, i, j, d);
      LaterCancelSettles(states, acts, j, c, i, d);
    }
    if acts[k].step.ok && SavedBy(states, k, c) {
      CancelsPersist(states, acts, k, j, c);
      LaterCancelSettles(states, acts, j, d, k, c);
    }
  }

  /** A chain holds two control-side records of a task... */
  ghost predicate TwoControlRecords(s: State, id: TaskId) {
    exists m, n :: 0 <= m < |s.evidence| && 0 <= n < |s.evidence| && m != n
      && ControlRecord(s.evidence[m], id) && ControlRecord(s.evidence[n], id)
  }

  predicate ControlRecord(n: Note, id: TaskId) { n.ControlCancelled? && n.task == id }

  /** ... two cancels that saw it idle came to their end, having re-read it before each other's save, or in vain. */
  ghost predicate CrossedPair(states: seq<State>, acts: seq<Action>, j: nat, id: TaskId) {
    exists c, i, d, k :: CrossedCancels(states, acts, j, id, c, i, d, k)
  }

  ghost predicate CrossedCancels(
      states: seq<State>, acts: seq<Action>, j: nat, id: TaskId, c: nat, i: nat, d: nat, k: nat) {
    && j < |states| && i < j && k < j && BothClosed(states[j], id, c, d)
    && RereadAt(acts, i, c) && RereadAt(acts, k, d) && Crossed(states, acts, c, i, d, k)
  }

  lemma TwoControlRecordsIff(states: seq<State>, acts: seq<Action>, j: nat, id: TaskId)
    requires IsRun(states, acts) && j < |states|
    ensures TwoControlRecords(states[j], id) <==> CrossedPair(states, acts, j, id)
  {
    RunKeepsInv(states, acts, j);
    var s := states[j];
    if TwoControlRecords(s, id) {
      var m, n :| 0 <= m < |s.evidence| && 0 <= n < |s.evidence| && m != n
        && ControlRecord(s.evidence[m], id) && ControlRecord(s.evidence[n], id);
      assert Attributed(s, s.evidence[m]) && Attributed(s, s.evidence[n]);
      var c, d := s.evidence[m].cancel, s.evidence[n].cancel;
      var i := RereadOf(states, acts, j, c);
      var k := RereadOf(states, acts, j, d);
      ClosedPairCrossed(states, acts, j, id, c, i, d, k);
      assert CrossedCancels(states, acts, j, id, c, i, d, k);
    }
    if c, i, d, k :| CrossedCancels(states, acts, j, id, c, i, d, k) {
      var m :| 0 <= m < |s.evidence| && s.evidence[m] == ControlCancelled(id, c);
      var n :| 0 <= n < |s.evidence| && s.evidence[n] == ControlCancelled(id, d);
      assert ControlRecord(s.evidence[m], id) && ControlRecord(s.evidence[n], id);
    }
  }

  // ---- the whole chain -------------------------------------------------------------

  /** The re-read at step i failed, or found the task not terminal in the store. */
  predicate InVain(states: seq<State>, acts: seq<Action>, i: nat, id: TaskId)
    requires i < |states| && i < |acts| && acts[i].Resume? && acts[i].step.Reread?
  {
    !acts[i].step.ok || id !in states[i].terminal
  }

  /** A cancel that came to an end without a failed save went all the way exactly when its re-read was in vain. */
  lemma ClosesIff(states: seq<State>, acts: seq<Action>, j: nat, c: nat, i: nat)
    requires IsRun(states, acts) && j < |states| && c < |states[j].cancels| && states[j].cancels[c].IsDone()
    requires i < j && RereadAt(acts, i, c)
    ensures states[j].cancels[c].phase == Closed <==> InVain(states, acts, i, states[j].cancels[c].task)
  {
    AfterReread(states, acts, i, j, c);
    CancelsPersist(states, acts, i, j, c);
  }

  /** Cancel c saw the task idle, re-read it in vain at step i, and came to its end. */
  ghost predicate ClosedInVain(states: seq<State>, acts: seq<Action>, j: nat, id: TaskId, c: nat, i: nat) {
    && j < |states| && i < j && RereadAt(acts, i, c) && InVain(states, acts, i, id)
    && c < |states[j].cancels| && states[j].cancels[c] == Cancel(id, false, Closed)
  }

  ghost predicate MoreThanOne(s: State, id: TaskId) {
    exists m, n :: 0 <= m < |s.evidence| && 0 <= n < |s.evidence| && m != n
      && s.evidence[m].task == id && s.evidence[n].task == id
  }

  /** A worker's record stands, and a cancel after it found no terminal status in the store. */
  ghost predicate WorkerThenCancel(states: seq<State>, acts: seq<Action>, j: nat, id: TaskId)
    requires j < |states|
  {
    WorkerCancelled(id) in states[j].evidence && exists c, i :: ClosedInVain(states, acts, j, id, c, i)
  }

  /** Exactly when a chain gets more than one cancelled record of a task. */
  lemma MoreThanOneIff(states: seq<State>, acts: seq<Action>, j: nat, id: TaskId)
    requires IsRun(states, acts) && j < |states|
    ensures MoreThanOne(states[j], id) <==> CrossedPair(states, acts, j, id) || WorkerThenCancel(states, acts, j, id)
  {
    RunKeepsInv(states, acts, j);
    TwoControlRecordsIff(states, acts, j, id);
    var s := states[j];
    if MoreThanOne(s, id) && !TwoControlRecords(s, id) {
      var c := MixedRecords(s, id);
      var i := RereadOf(states, acts, j, c);
      ClosesIff(states, acts, j, c, i);
      assert ClosedInVain(states, acts, j, id, c, i);
    }
    if WorkerThenCancel(states, acts, j, id) {
      var c, i :| ClosedInVain(states, acts, j, id, c, i);
      BothRecords(s, id, c);
    }
  }

  /** Two records that are not both control-side are the worker's and one of a cancel. */
  lemma MixedRecords(s: State, id: TaskId) returns (c: nat)
    requires Inv(s) && MoreThanOne(s, id) && !TwoControlRecords(s, id)
    ensures WorkerCancelled(id) in s.evidence && ControlCancelled(id, c) in s.evidence
    ensures c < |s.cancels| && s.cancels[c].task == id && !s.cancels[c].sawRunning && s.cancels[c].phase == Closed
  {
    var m, n :| 0 <= m < |s.evidence| && 0 <= n < |s.evidence| && m != n
      && s.evidence[m].task == id && s.evidence[n].task == id;
    assert s.evidence[m] != s.evidence[n];
    var control := if ControlRecord(s.evidence[m], id) then m else n;
    assert Attributed(s, s.evidence[control]);
    c := s.evidence[control].cancel;
  }

  lemma BothRecords(s: State, id: TaskId, c: nat)
    requires WorkerCancelled(id) in s.evidence && ControlCancelled(id, c) in s.evidence
    ensures MoreThanOne(s, id)
  {
    var m :| 0 <= m < |s.evidence| && s.evidence[m] == WorkerCancelled(id);
    var n :| 0 <= n < |s.evidence| && s.evidence[n] == ControlCancelled(id, c);
    assert m != n;
  }

  // ---- the pair alone --------------------------------------------------------------

  /** Step m stores a terminal status for the task. */
  predicate StoresTerminal(states: seq<State>, acts: seq<Action>, m: nat, id: TaskId) {
    && m < |acts| && m < |states|
    && (acts[m] == Work(id, Store(true))
        || (acts[m].Resume? && acts[m].step == Save(true)
            && acts[m].c < |states[m].cancels| && states[m].cancels[acts[m].c].task == id))
  }

  /** Nobody but c and d has made the stored task terminal. */
  ghost predicate OnlyTheyStore(states: seq<State>, acts: seq<Action>, j: nat, id: TaskId, c: nat, d: nat) {
    forall m: nat | m < j && StoresTerminal(states, acts, m, id) ::
      acts[m] == Resume(c, Save(true)) || acts[m] == Resume(d, Save(true))
  }

  lemma {:induction false} TerminalWasStored(
      states: seq<State>, acts: seq<Action>, j: nat, i: nat, id: TaskId, c: nat, d: nat)
    requires IsRun(states, acts) && i <= j < |states| && OnlyTheyStore(states, acts, j, id, c, d)
    requires id in states[i].terminal
    ensures SavedBy(states, i, c) || SavedBy(states, i, d)
    decreases i
  {
    var s, a := states[i - 1], acts[i - 1];
    assert Enabled(s, a) && states[i] == Step(s, a);
    if id in s.terminal {
      TerminalWasStored(states, acts, j, i - 1, id, c, d);
      var e := if SavedBy(states, i - 1, c) then c else d;
      CancelsPersist(states, acts, i - 1, i, e);
    } else {
      assert StoresTerminal(states, acts, i - 1, id);
    }
  }

  /**
   With no one else making the task terminal, two cancels that saw it idle and ran without a failed save
   both write exactly when each re-read it before the other's save, or its re-read failed.
   */
  lemma BothWriteIff(states: seq<State>, acts: seq<Action>, j: nat, id: TaskId, c: nat, i: nat, d: nat, k: nat)
    requires IsRun(states, acts) && j < |states| && IdlePair(states[j], id, c, d)
    requires states[j].cancels[c].IsDone() && states[j].cancels[d].IsDone()
    requires i < j && k < j && RereadAt(acts, i, c) && RereadAt(acts, k, d)
    requires OnlyTheyStore(states, acts, j, id, c, d)
    ensures BothClosed(states[j], id, c, d) <==> Crossed(states, acts, c, i, d, k)
  {
    if BothClosed(states[j], id, c, d) {
      ClosedPairCrossed(states, acts, j, id, c, i, d, k);
    } else if Crossed(states, acts, c, i, d, k) {
      CrossedCloses(states, acts, j, id, c, i, d, k);
      CrossedCloses(states, acts, j, id, d, k, c, i);
    }
  }

  lemma CrossedCloses(states: seq<State>, acts: seq<Action>, j: nat, id: TaskId, c: nat, i: nat, d: nat, k: nat)
    requires IsRun(states, acts) && j < |states| && IdlePair(states[j], id, c, d) && states[j].cancels[c].IsDone()
    requires i < j && RereadAt(acts, i, c) && RereadAt(acts, k, d) && Crossed(states, acts, c, i, d, k)
    requires OnlyTheyStore(states, acts, j, id, c, d)
    ensures states[j].cancels[c].phase == Closed
  {
    AfterReread(states, acts, i, j, c);
    CancelsPersist(states, acts, i, j, c);
    if acts[i].step.ok && id in states[i].terminal { TerminalWasStored(states, acts, j, i, id, c, d); }
  }

  /** The two cancels of the witness, side by side. */
  predicate Pair(s: State, id: TaskId, first: CancelPhase, second: CancelPhase) {
    s.cancels == [Cancel(id, false, first), Cancel(id, false, second)]
  }

  lemma TwoBegun(id: TaskId) returns (states: seq<State>, acts: seq<Action>)
    ensures IsRun(states, acts) && acts == [Arrive(Own(id)), BeginCancel(id), BeginCancel(id)]
    ensures Pair(states[3], id, Begun, Begun) && states[3].terminal == {} && states[3].evidence == []
  {
    states, acts := [Init()], [];
    states, acts := Extended(states, acts, Arrive(Own(id)));
    states, acts := Extended(states, acts, BeginCancel(id));
    states, acts := Extended(states, acts, BeginCancel(id));
  }

  /** The same step of both cancels, one after the other. */
  lemma BothTake(states: seq<State>, acts: seq<Action>, id: TaskId, phase: CancelPhase, step: CancelStep)
    returns (longer: seq<State>, acts': seq<Action>)
    requires IsRun(states, acts) && Pair(states[|acts|], id, phase, phase) && phase == PhaseBefore(step)
    requires step == Reread(true) ==> states[|acts|].terminal == {}
    requires step in {Reread(true), Save(true), Cleanup}
    ensures IsRun(longer, acts') && acts' == acts + [Resume(0, step)] + [Resume(1, step)]
    ensures var s, s', next := states[|acts|], longer[|acts'|], if phase == Begun then Proceeding else
        if phase == Proceeding then Saved else Closed;
      && Pair(s', id, next, next)
      && s'.evidence == s.evidence + if step == Cleanup then [ControlCancelled(id, 0), ControlCancelled(id, 1)] else []
  {
    longer, acts' := Extended(states, acts, Resume(0, step));
    longer, acts' := Extended(longer, acts', Resume(1, step));
  }

  /** It happens: two cancels of a queued task, each past its re-read before either saves. */
  lemma TwoIdleCancelsCanBothWrite(id: TaskId) returns (states: seq<State>, acts: seq<Action>)
    ensures IsRun(states, acts)
    ensures states[|acts|].evidence == [ControlCancelled(id, 0), ControlCancelled(id, 1)]
    ensures |acts| == 9
    ensures acts[3..5] == [Resume(0, Reread(true)), Resume(1, Reread(true))]
    ensures acts[5..7] == [Resume(0, Save(true)), Resume(1, Save(true))]
  {
    states, acts := TwoBegun(id);
    states, acts := BothTake(states, acts, id, Begun, Reread(true));
    states, acts := BothTake(states, acts, id, Proceeding, Save(true));
    states, acts := BothTake(states, acts, id, Saved, Cleanup);
  }

  lemma JustAdmitted(id: TaskId) returns (states: seq<State>, acts: seq<Action>)
    ensures IsRun(states, acts) && |acts| == 4
    ensures var s := states[4];
      && s.inHand == map[id := Admitted] && s.t.running == {id} && s.known == {id}
      && s.cancels == [] && s.terminal == {} && s.evidence == []
  {
    states, acts := [Init()], [];
    states, acts := Extended(states, acts, Arrive(Own(id)));
    states, acts := Extended(states, acts, Arrive(Put(id)));
    states, acts := Extended(states, acts, Arrive(Pop));
    states, acts := Extended(states, acts, Work(id, TryAdmit));
  }

  lemma WorkingCancelled(id: TaskId) returns (states: seq<State>, acts: seq<Action>)
    ensures IsRun(states, acts) && |acts| == 7
    ensures var s := states[7];
      && s.inHand == map[id := Working] && id in s.t.cancelled && s.t.running == {id} && s.known == {id}
      && s.cancels == [Cancel(id, true, Begun)] && s.terminal == {} && s.evidence == []
  {
    states, acts := JustAdmitted(id);
    states, acts := Extended(states, acts, Work(id, Clear));
    states, acts := Extended(states, acts, Work(id, Start));
    states, acts := Extended(states, acts, BeginCancel(id));
  }

  lemma NotedAndGone(id: TaskId) returns (states: seq<State>, acts: seq<Action>)
    ensures IsRun(states, acts) && |acts| == 11
    ensures var s := states[11];
      && s.cancels == [Cancel(id, true, Begun), Cancel(id, false, Begun)]
      && s.terminal == {} && s.evidence == [WorkerCancelled(id)]
  {
    states, acts := WorkingCancelled(id);
    states, acts := Extended(states, acts, Work(id, NoteCancelled));
    states, acts := Extended(states, acts, Work(id, End));
    states, acts := Extended(states, acts, Work(id, DropRunning));
    states, acts := Extended(states, acts, BeginCancel(id));
  }

  /** It happens too: a worker writes its record and ends with the status unsaved; the next cancel writes another. */
  lemma CancelAfterNoteCanWrite(id: TaskId) returns (states: seq<State>, acts: seq<Action>)
    ensures IsRun(states, acts)
    ensures states[|acts|].evidence == [WorkerCancelled(id), ControlCancelled(id, 1)]
  {
    states, acts := NotedAndGone(id);
    states, acts := Extended(states, acts, Resume(1, Reread(true)));
    states, acts := Extended(states, acts, Resume(1, Save(true)));
    states, acts := Extended(states, acts, Resume(1, Cleanup));
  }
}
