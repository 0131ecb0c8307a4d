/**
 What the dispatch loop and the control side have done, read off the steps alone: which tasks were
 popped, who was cancelled, which signal a run saw, which lines it was handed
 (core/crates/control/src/dispatch.rs).
 */
module DispatchLog {
  import opened Texts
  import opened DispatchTables
  import opened DispatchProtocol
  import Cancellation
  import FollowUps

  // ---- the queue ----------------------------------------------------------------------

  /** The tasks put among the first k steps, in order. */
  function PutIds(acts: seq<Action>, k: nat): seq<TaskId>
    requires k <= |acts|
  {
    if k == 0 then [] else
    PutIds(acts, k - 1) + if acts[k - 1].Arrive? && acts[k - 1].arrival.Put? then [acts[k - 1].arrival.id] else []
  }

  /** The tasks that came into a worker's hand by one step: those it holds now and did not before. */
  ghost predicate Takes(s: State, next: State, id: TaskId) { id !in s.inHand && id in next.inHand }

  /** The tasks taken up by pops among the first k steps, in order. */
  function TakenIds(states: seq<State>, acts: seq<Action>, k: nat): seq<TaskId>
    requires k <= |acts| && k < |states|
  {
    if k == 0 then [] else
    var s := states[k - 1];
    TakenIds(states, acts, k - 1) + if acts[k - 1] == Arrive(Pop) && s.queue != [] then [s.queue[0]] else []
  }

  lemma QueueStep(s: State, a: Action)
    requires Enabled(s, a)
    ensures a == Arrive(Pop) ==> s.queue != [] && s.queue == [s.queue[0]] + Step(s, a).queue
    ensures a.Arrive? && a.arrival.Put? ==> Step(s, a).queue == s.queue + [a.arrival.id]
    ensures a != Arrive(Pop) && !(a.Arrive? && a.arrival.Put?) ==> Step(s, a).queue == s.queue
  {
  }

  lemma TakenStep(taken: seq<TaskId>, before: seq<TaskId>, took: seq<TaskId>, put: seq<TaskId>, after: seq<TaskId>)
    requires before + put == took + after
    ensures (taken + before) + put == (taken + took) + after
  {
    Assoc(taken, before, put);
    Assoc(taken, took, after);
  }

  lemma {:induction false} PutsAreTakenOrQueued(states: seq<State>, acts: seq<Action>, k: nat)
    requires IsRun(states, acts) && k < |states|
    ensures PutIds(acts, k) == TakenIds(states, acts, k) + states[k].queue
    decreases k
  {
    if k > 0 {
      PutsAreTakenOrQueued(states, acts, k - 1);
      var s, a := states[k - 1], acts[k - 1];
      assert Enabled(s, a) && states[k] == Step(s, a);
      QueueStep(s, a);
      var put := if a.Arrive? && a.arrival.Put? then [a.arrival.id] else [];
      var took := if a == Arrive(Pop) then [s.queue[0]] else [];
      assert s.queue + put == took + states[k].queue;
      TakenStep(TakenIds(states, acts, k - 1), s.queue, took, put, states[k].queue);
    }
  }

  /** A pop takes the task that was put first among those not taken yet, and hands it to a worker. */
  lemma PopTakesFirstPut(states: seq<State>, acts: seq<Action>, k: nat)
    requires IsRun(states, acts) && k < |acts| && acts[k] == Arrive(Pop)
    ensures var n := |TakenIds(states, acts, k)|;
      && n < |PutIds(acts, k)|
      && var s, next := states[k], states[k + 1];
      forall id :: Takes(s, next, id) <==> id == PutIds(acts, k)[n]
  {
    PutsAreTakenOrQueued(states, acts, k);
    RunKeepsInv(states, acts, k);
    var s := states[k];
    assert Enabled(s, acts[k]) && states[k + 1] == Step(s, acts[k]);
    assert s.queue[0] in s.queue;
  }

  // ---- cancelling and signalling ----------------------------------------------------------

  /** A task is marked cancelled exactly when some cancel of it has begun. */
  lemma {:induction false} CancelledIff(states: seq<State>, acts: seq<Action>, k: nat, id: TaskId)
    requires IsRun(states, acts) && k < |states|
    ensures id in states[k].t.cancelled <==> exists j :: 0 <= j < k && acts[j] == BeginCancel(id)
    decreases k
  {
    if k > 0 {
      CancelledIff(states, acts, k - 1, id);
      assert Enabled(states[k - 1], acts[k - 1]) && states[k] == Step(states[k - 1], acts[k - 1]);
      CancelledStep(states[k - 1], acts[k - 1], id);
    }
  }

  lemma CancelledStep(s: State, a: Action, id: TaskId)
    requires Enabled(s, a)
    ensures id in Step(s, a).t.cancelled <==> id in s.t.cancelled || a == BeginCancel(id)
  {
  }

  /** A task is refused at admission exactly when a cancel of it had begun, and is running from then on if not. */
  lemma AdmittedIff(states: seq<State>, acts: seq<Action>, k: nat, id: TaskId)
    requires IsRun(states, acts) && k < |acts| && acts[k] == Work(id, TryAdmit)
    ensures id in states[k + 1].t.running <==> forall j | 0 <= j < k :: acts[j] != BeginCancel(id)
    ensures id in states[k + 1].inHand
    ensures states[k + 1].inHand[id]
      == if exists j :: 0 <= j < k && acts[j] == BeginCancel(id) then Finishing else Admitted
  {
    CancelledIff(states, acts, k, id);
    RunKeepsInv(states, acts, k);
    assert Guard(states[k], id);
    assert Enabled(states[k], acts[k]) && states[k + 1] == Step(states[k], acts[k]);
  }

  /** Between steps j and k the task's worker neither registered for a signal nor let its entry go. */
  predicate KeepsEntry(acts: seq<Action>, j: nat, k: nat, id: TaskId)
    requires k <= |acts|
  {
    forall i | j <= i < k :: acts[i] != Work(id, Start) && acts[i] != Work(id, DropAbandon)
  }

  ghost predicate SignalledSince(acts: seq<Action>, k: nat, id: TaskId)
    requires k <= |acts|
  {
    exists j :: 0 <= j < k && acts[j] == Signal(id) && KeepsEntry(acts, j, k, id)
  }

  lemma SignalStep(s: State, a: Action, id: TaskId)
    requires Enabled(s, a)
    ensures var t := Step(s, a).t.abandon;
      && (id in t <==> a == Work(id, Start) || (id in s.t.abandon && a != Work(id, DropAbandon)))
      && (id in t ==> (t[id] <==> a == Signal(id) || (a != Work(id, Start) && s.t.abandon[id])))
  {
  }

  lemma SignalledStep(acts: seq<Action>, k: nat, id: TaskId)
    requires 0 < k <= |acts|
    ensures var a := acts[k - 1];
      SignalledSince(acts, k, id) <==>
        a == Signal(id) || (a != Work(id, Start) && a != Work(id, DropAbandon) && SignalledSince(acts, k - 1, id))
  {
    if j :| 0 <= j < k - 1 && acts[j] == Signal(id) && KeepsEntry(acts, j, k - 1, id) {
      if acts[k - 1] != Work(id, Start) && acts[k - 1] != Work(id, DropAbandon) {
        assert KeepsEntry(acts, j, k, id);
      }
    }
    if acts[k - 1] == Signal(id) { assert KeepsEntry(acts, k - 1, k, id); }
    if j :| 0 <= j < k && acts[j] == Signal(id) && KeepsEntry(acts, j, k, id) {
      assert j < k - 1 ==> KeepsEntry(acts, j, k - 1, id);
    }
  }

  /** A registered worker's signal is sent exactly when one came since it registered. */
  lemma {:induction false} SentIffSignalled(states: seq<State>, acts: seq<Action>, k: nat, id: TaskId)
    requires IsRun(states, acts) && k < |states|
    ensures id in states[k].t.abandon ==> (states[k].t.abandon[id] <==> SignalledSince(acts, k, id))
    decreases k
  {
    if k > 0 {
      SentIffSignalled(states, acts, k - 1, id);
      assert Enabled(states[k - 1], acts[k - 1]) && states[k] == Step(states[k - 1], acts[k - 1]);
      SignalStep(states[k - 1], acts[k - 1], id);
      SignalledStep(acts, k, id);
    }
  }

  /** A worker can be abandoned exactly when it was signalled since it registered; earlier signals are lost. */
  lemma AbandonedIff(states: seq<State>, acts: seq<Action>, k: nat, id: TaskId)
    requires IsRun(states, acts) && k < |states| && InWorker(states[k], id)
    ensures Enabled(states[k], Work(id, Abandon)) <==> SignalledSince(acts, k, id)
  {
    SentIffSignalled(states, acts, k, id);
    RunKeepsInv(states, acts, k);
    assert Guard(states[k], id);
  }

  // ---- steering lines ---------------------------------------------------------------------

  /** The step takes the task's lines away: its worker drains or drops them, or its finish guard does. */
  predicate TakesLines(a: Action, id: TaskId) {
    a == Drain(id) || a == Work(id, Clear) || a == Work(id, DropFinish)
  }

  /** The texts pushed to the task among the first k steps since its lines were last taken, in order. */
  function PushedSince(states: seq<State>, acts: seq<Action>, k: nat, id: TaskId): seq<string>
    requires k <= |acts| && k < |states|
  {
    if k == 0 || TakesLines(acts[k - 1], id) then [] else
    var s, a := states[k - 1], acts[k - 1];
    PushedSince(states, acts, k - 1, id)
    + if a.Push? && a.f < |s.followUps| && s.followUps[a.f].target == id then [s.followUps[a.f].text] else []
  }

  lemma LinesStep(s: State, a: Action, id: TaskId)
    requires Enabled(s, a)
    ensures FollowUps.Lines(Step(s, a), id) ==
      if TakesLines(a, id) then []
      else FollowUps.Lines(s, id) + if a.Push? && s.followUps[a.f].target == id then [s.followUps[a.f].text] else []
  {
  }

  /** What waits for a task is what was pushed to it since its lines were last taken. */
  lemma {:induction false} WaitingArePushed(states: seq<State>, acts: seq<Action>, k: nat, id: TaskId)
    requires IsRun(states, acts) && k < |states|
    ensures FollowUps.Lines(states[k], id) == PushedSince(states, acts, k, id)
    decreases k
  {
    if k > 0 {
      WaitingArePushed(states, acts, k - 1, id);
      assert Enabled(states[k - 1], acts[k - 1]) && states[k] == Step(states[k - 1], acts[k - 1]);
      LinesStep(states[k - 1], acts[k - 1], id);
    }
  }

  /** A worker that drains is handed every text pushed since its lines were last taken, each once and in order. */
  lemma DrainHandsBack(states: seq<State>, acts: seq<Action>, k: nat, id: TaskId)
    requires IsRun(states, acts) && k < |acts| && acts[k] == Drain(id)
    ensures states[k].t.DrainSteer(id).1 == PushedSince(states, acts, k, id)
    ensures PushedSince(states, acts, k + 1, id) == []
    ensures id !in states[k + 1].t.steer
  {
    WaitingArePushed(states, acts, k, id);
    assert Enabled(states[k], acts[k]) && states[k + 1] == Step(states[k], acts[k]);
  }

  // ---- the course of a task -------------------------------------------------------------------

  /** How far a task has got: -1 before a worker has it, 9 once the worker has let it go. */
  function Place(s: State, id: TaskId): int {
    if id in s.inHand then
      match s.inHand[id]
      case Fetching => 0
      case Admitted => 1
      case Cleared => 2
      case Working => 3
      case Settling => 4
      case Ended => 5
      case Released => 6
      case Finishing => 7
      case Counting => 8
    else if id in s.queue || id in s.entering || id !in s.known then -1
    else 9
  }

  /** What only a running worker does with its task. */
  predicate WorkerActs(a: Action, id: TaskId) {
    a == Drain(id) || (a.Work? && a.id == id && (a.move.Store? || a.move in {NoteCancelled, Abandon, End}))
  }

  lemma ArrivalAdvances(s: State, a: Arrival, id: TaskId)
    requires Placed(s) && Enabled(s, Arrive(a))
    ensures Place(Arrived(s, a), id) >= Place(s, id)
  {
    if a.Pop? { assert s.queue == [s.queue[0]] + s.queue[1..] && s.queue[0] in s.queue; }
  }

  lemma MoveAdvances(s: State, w: TaskId, m: Move, id: TaskId)
    requires Placed(s) && WorkEnabled(s, w, m)
    ensures Place(Worked(s, w, m), id) >= Place(s, id)
    ensures w == id && !m.Store? ==> Place(Worked(s, w, m), id) > Place(s, id)
    ensures w == id && m in {Abandon, End} ==> At(Worked(s, w, m), id, Ended)
  {
  }

  lemma StepAdvances(s: State, a: Action, id: TaskId)
    requires Placed(s) && Enabled(s, a)
    ensures Place(Step(s, a), id) >= Place(s, id)
    ensures WorkerActs(a, id) ==> 3 <= Place(s, id) <= 4
  {
    match a
    case Arrive(arrival) => ArrivalAdvances(s, arrival, id);
    case Work(w, m) => MoveAdvances(s, w, m, id);
    case _ =>
  }

  lemma RunAdvances(states: seq<State>, acts: seq<Action>, j: nat, id: TaskId)
    requires IsRun(states, acts) && j < |acts|
    ensures Place(states[j + 1], id) >= Place(states[j], id)
    ensures WorkerActs(acts[j], id) ==> 3 <= Place(states[j], id) <= 4
  {
    RunKeepsInv(states, acts, j);
    StepAdvances(states[j], acts[j], id);
  }

  lemma {:induction false} Growing(places: seq<int>, i: nat, j: nat)
    requires i <= j < |places| && forall k | 0 < k < |places| :: places[k - 1] <= places[k]
    ensures places[i] <= places[j]
    decreases j
  {
    if i < j { Growing(places, i, j - 1); }
  }

  /** A task only ever moves on. */
  lemma PlaceGrows(states: seq<State>, acts: seq<Action>, i: nat, j: nat, id: TaskId)
    requires IsRun(states, acts) && i <= j < |states|
    ensures Place(states[i], id) <= Place(states[j], id)
  {
    var places := seq(|states|, k requires 0 <= k < |states| => Place(states[k], id));
    forall k | 0 < k < |places| ensures places[k - 1] <= places[k] { RunAdvances(states, acts, k - 1, id); }
    Growing(places, i, j);
  }

  lemma EndsNow(states: seq<State>, acts: seq<Action>, k: nat, id: TaskId)
    requires IsRun(states, acts) && k < |acts| && acts[k] in {Work(id, Abandon), Work(id, End)}
    ensures At(states[k + 1], id, Ended)
  {
    RunKeepsInv(states, acts, k);
    MoveAdvances(states[k], id, acts[k].move, id);
  }

  /** So an ended or abandoned worker does nothing more with its task. */
  lemma EndedForGood(states: seq<State>, acts: seq<Action>, k: nat, j: nat, id: TaskId)
    requires IsRun(states, acts) && k < j < |acts| && acts[k] in {Work(id, Abandon), Work(id, End)}
    ensures At(states[k + 1], id, Ended) && !WorkerActs(acts[j], id)
  {
    EndsNow(states, acts, k, id);
    PlaceGrows(states, acts, k + 1, j, id);
    RunAdvances(states, acts, j, id);
  }

  /** A follow-up is pushed at most once. */
  lemma {:induction false} PushedOnce(states: seq<State>, acts: seq<Action>, i: nat, j: nat, f: nat)
    requires IsRun(states, acts) && i < j < |states| && acts[i] == Push(f)
    ensures f < |states[j].followUps| && states[j].followUps[f].pushed
    ensures j < |acts| ==> acts[j] != Push(f)
    decreases j
  {
    assert Enabled(states[j - 1], acts[j - 1]) && states[j] == Step(states[j - 1], acts[j - 1]);
    if j > i + 1 { PushedOnce(states, acts, i, j - 1, f); }
    if j < |acts| { assert Enabled(states[j], acts[j]); }
  }

  // ---- the stored status ----------------------------------------------------------------------

  ghost predicate StoredSince(states: seq<State>, acts: seq<Action>, k: nat, id: TaskId) {
    exists j :: 0 <= j < k && Cancellation.StoresTerminal(states, acts, j, id) && NotUndone(acts, j, k, id)
  }

  predicate NotUndone(acts: seq<Action>, j: nat, k: nat, id: TaskId) {
    forall i | j <= i < k && i < |acts| :: acts[i] != Work(id, Store(false))
  }

  lemma StoredStep(states: seq<State>, acts: seq<Action>, k: nat, id: TaskId)
    requires 0 < k <= |acts| && |states| == |acts| + 1
    ensures StoredSince(states, acts, k, id) <==>
      Cancellation.StoresTerminal(states, acts, k - 1, id)
      || (acts[k - 1] != Work(id, Store(false)) && StoredSince(states, acts, k - 1, id))
  {
    if j :| 0 <= j < k - 1 && Cancellation.StoresTerminal(states, acts, j, id) && NotUndone(acts, j, k - 1, id) {
      if acts[k - 1] != Work(id, Store(false)) { assert NotUndone(acts, j, k, id); }
    }
    if Cancellation.StoresTerminal(states, acts, k - 1, id) { assert NotUndone(acts, k - 1, k, id); }
    if j :| 0 <= j < k && Cancellation.StoresTerminal(states, acts, j, id) && NotUndone(acts, j, k, id) {
      assert j < k - 1 ==> NotUndone(acts, j, k - 1, id);
    }
  }

  lemma TerminalStep(s: State, a: Action, id: TaskId)
    requires Enabled(s, a)
    ensures id in Step(s, a).terminal <==>
      || a == Work(id, Store(true))
      || (a.Resume? && a.step == Save(true) && s.cancels[a.c].task == id)
      || (a != Work(id, Store(false)) && id in s.terminal)
  {
  }

  /** The stored status is terminal exactly when the last status stored for the task was. */
  lemma {:induction false} TerminalIffStored(states: seq<State>, acts: seq<Action>, k: nat, id: TaskId)
    requires IsRun(states, acts) && k < |states|
    ensures id in states[k].terminal <==> StoredSince(states, acts, k, id)
    decreases k
  {
    if k > 0 {
      TerminalIffStored(states, acts, k - 1, id);
      assert Enabled(states[k - 1], acts[k - 1]) && states[k] == Step(states[k - 1], acts[k - 1]);
      StoredStep(states, acts, k, id);
      TerminalStep(states[k - 1], acts[k - 1], id);
    }
  }
}
