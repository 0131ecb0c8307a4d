/**
 Task admission, cancellation and the drop guards (core/crates/control/src/dispatch.rs).

 `Tables` holds what the locks protect; each of its functions is one critical section, and
 `ControlTables` is the mutable object whose methods are those sections. `Step` interleaves any
 number of workers, cancels, aborts and follow-ups, one critical section at a time.
 */
module DispatchTables {
  type TaskId = string

  datatype Tables = Tables(
    cancelled: set<TaskId>,
    running: set<TaskId>,
    owned: set<TaskId>,
    abandon: map<TaskId, bool>,      // registered signal and whether it was sent
    steer: map<TaskId, seq<string>>)
  {
    /** Checking `cancelled` and registering in `running` under one lock. */
    function Admit(id: TaskId): (Tables, bool) {
      if id in cancelled then (this, false) else (this.(running := running + {id}), true)
    }

    /** Reading `running` and writing `cancelled` under one lock. */
    function BeginCancel(id: TaskId): (Tables, bool) {
      (this.(cancelled := cancelled + {id}), id in running)
    }

    function Own(id: TaskId): Tables { this.(owned := owned + {id}) }

    function RegisterAbandon(id: TaskId): Tables { this.(abandon := abandon[id := false]) }

    function SignalAbandon(id: TaskId): Tables {
      if id in abandon then this.(abandon := abandon[id := true]) else this
    }

    function PushSteer(id: TaskId, text: string): Tables {
      this.(steer := steer[id := (if id in steer then steer[id] else []) + [text]])
    }

    function DrainSteer(id: TaskId): (Tables, seq<string>) {
      (this.(steer := steer - {id}), if id in steer then steer[id] else [])
    }

    function EndRunning(id: TaskId): Tables { this.(running := running - {id}) }

    function EndAbandon(id: TaskId): Tables { this.(abandon := abandon - {id}) }

    /** Both containers are cleared in the same critical section. */
    function Finish(id: TaskId): Tables { this.(steer := steer - {id}, owned := owned - {id}) }
  }

  class ControlTables {
    var cancelled: set<TaskId>
    var running: set<TaskId>
    var owned: set<TaskId>
    var abandon: map<TaskId, bool>
    var steer: map<TaskId, seq<string>>

    ghost function View(): Tables reads this {
      Tables(cancelled, running, owned, abandon, steer)
    }

    constructor ()
      ensures View() == Tables({}, {}, {}, map[], map[])
    {
      cancelled, running, owned, abandon, steer := {}, {}, {}, map[], map[];
    }

    method Admit(id: TaskId) returns (admitted: bool)
      modifies this
      ensures (View(), admitted) == old(View()).Admit(id)
      ensures admitted <==> id !in old(cancelled)
      ensures running == if id in old(cancelled) then old(running) else old(running) + {id}
      ensures unchanged(this`cancelled, this`owned, this`abandon, this`steer)
    {
      if id in cancelled {
        admitted := false;
      } else {
        running := running + {id};
        admitted := true;
      }
    }

    method BeginCancel(id: TaskId) returns (sawRunning: bool)
      modifies this
      ensures (View(), sawRunning) == old(View()).BeginCancel(id)
      ensures cancelled == old(cancelled) + {id} && (sawRunning <==> id in old(running))
      ensures unchanged(this`running, this`owned, this`abandon, this`steer)
    {
      sawRunning := id in running;
      cancelled := cancelled + {id};
    }

    method EnterAndOwn(id: TaskId)
      modifies this
      ensures View() == old(View()).Own(id)
      ensures owned == old(owned) + {id} && unchanged(this`cancelled, this`running, this`abandon, this`steer)
    {
      owned := owned + {id};
    }

    method RegisterAbandon(id: TaskId)
      modifies this
      ensures View() == old(View()).RegisterAbandon(id)
      ensures abandon == old(abandon)[id := false] && unchanged(this`cancelled, this`running, this`owned, this`steer)
    {
      abandon := abandon[id := false];
    }

    /** The first half of `abandon_running`: no entry, no signal. */
    method SignalAbandon(id: TaskId) returns (sent: bool)
      modifies this
      ensures View() == old(View()).SignalAbandon(id)
      ensures sent <==> id in old(abandon)
      ensures abandon == if sent then old(abandon)[id := true] else old(abandon)
      ensures unchanged(this`cancelled, this`running, this`owned, this`steer)
    {
      sent := id in abandon;
      if sent { abandon := abandon[id := true]; }
    }

    method PushSteer(id: TaskId, text: string)
      modifies this
      ensures View() == old(View()).PushSteer(id, text)
      ensures steer.Keys == old(steer).Keys + {id} && steer - {id} == old(steer) - {id}
      ensures steer[id] == (if id in old(steer) then old(steer)[id] else []) + [text]
      ensures unchanged(this`cancelled, this`running, this`owned, this`abandon)
    {
      steer := steer[id := (if id in steer then steer[id] else []) + [text]];
    }

    method DrainSteer(id: TaskId) returns (lines: seq<string>)
      modifies this
      ensures (View(), lines) == old(View()).DrainSteer(id)
      ensures lines == if id in old(steer) then old(steer)[id] else []
      ensures steer == old(steer) - {id} && unchanged(this`cancelled, this`running, this`owned, this`abandon)
    {
      lines := if id in steer then steer[id] else [];
      steer := steer - {id};
    }

    method DropRunningGuard(id: TaskId)
      modifies this
      ensures View() == old(View()).EndRunning(id)
      ensures running == old(running) - {id} && unchanged(this`cancelled, this`owned, this`abandon, this`steer)
    {
      running := running - {id};
    }

    method DropAbandonGuard(id: TaskId)
      modifies this
      ensures View() == old(View()).EndAbandon(id)
      ensures abandon == old(abandon) - {id} && unchanged(this`cancelled, this`running, this`owned, this`steer)
    {
      abandon := abandon - {id};
    }

    method DropFinishGuard(id: TaskId)
      modifies this
      ensures View() == old(View()).Finish(id)
      ensures steer == old(steer) - {id} && owned == old(owned) - {id}
      ensures unchanged(this`cancelled, this`running, this`abandon)
    {
      steer := steer - {id};
      owned := owned - {id};
    }
  }
}

module DispatchProtocol {
  import opened Texts
  import opened DispatchTables
  import opened SteerTargets

  /** How far one `run_one` has got with its task. */
  datatype Stage =
    | Fetching      // popped; the completion and finish guards are armed; reading the store
    | Admitted      // inside `running`, follow-ups queued before the run not yet dropped
    | Cleared       // those dropped, the abandon signal not yet registered
    | Working       // the worker runs
    | Settling      // the worker has written its cancelled record and is about to return
    | Ended         // the worker returned, was abandoned or aborted; the running guard drops next
    | Released      // out of `running`; the abandon guard drops next
    | Finishing     // the finish guard drops next
    | Counting      // the completion guard drops next

  /** One call of `cancel_task_by`, from its critical section on. */
  datatype CancelPhase = Begun | Settled | Proceeding | SaveFailed | Saved | Closed

  datatype Cancel = Cancel(task: TaskId, sawRunning: bool, phase: CancelPhase) {
    /** `Cancelled` is in the store by this cancel's doing. */
    predicate HasSaved() { phase == Saved || phase == Closed }

    predicate IsDone() { phase == Settled || phase == Closed }
  }

  /** A follow-up: its target picked, its text pushed later. */
  datatype FollowUp = FollowUp(target: TaskId, text: string, pushed: bool)

  datatype Note =
    | WorkerCancelled(task: TaskId)               // written by the worker, which then returns
    | ControlCancelled(task: TaskId, cancel: nat) // the cleanup branch of one cancel: evidence, card, sandbox

  datatype State = State(
    t: Tables,
    entering: set<TaskId>,        // owned, not yet put on the queue
    queue: seq<TaskId>,
    inHand: map<TaskId, Stage>,
    unfinished: nat,
    puts: nat,
    dones: nat,
    known: set<TaskId>,
    terminal: set<TaskId>,        // tasks whose stored status is terminal
    cancels: seq<Cancel>,
    followUps: seq<FollowUp>,
    evidence: seq<Note>)

  /** Arrival: `start_task` owns, then enqueues; the dispatch loop pops. */
  datatype Arrival = Own(id: TaskId) | Put(id: TaskId) | Pop

  /** What one worker does with the task in its hand. */
  datatype Move =
    | Miss            // store miss, no worker, or an abort while reading
    | TryAdmit
    | Clear
    | Start
    | Store(terminal: bool) // the worker saves the task's status
    | NoteCancelled   // the worker polls `is_cancelled`, finds it true and writes its record
    | Abandon         // the abandon signal is seen
    | End             // the run returns or is aborted
    | DropRunning | DropAbandon | DropFinish | DropDone

  /** What a cancel does after its critical section, one await at a time. */
  datatype CancelStep =
    | Reread(ok: bool) // the task by id from the store; not ok when that fails or finds no row
    | Save(ok: bool)   // `Cancelled` to the store
    | Cleanup          // the rest; the cleanup branch runs when the task was not running

  datatype Action =
    | Arrive(arrival: Arrival)
    | Work(id: TaskId, move: Move)
    | BeginCancel(task: TaskId)
    | Resume(c: nat, step: CancelStep)
    | Signal(target: TaskId)
    | Choose(active: seq<Candidate>, text: string) // picks the target under `owned` and `running`
    | Push(f: nat)                                  // queues the text under `steer`
    | Drain(target: TaskId)

  function Init(): State {
    State(Tables({}, {}, {}, map[], map[]), {}, [], map[], 0, 0, 0, {}, {}, [], [], [])
  }

  predicate At(s: State, id: TaskId, stage: Stage) {
    id in s.inHand && s.inHand[id] == stage
  }

  /** The stages in which the worker holds the task. */
  predicate InWorker(s: State, id: TaskId) { At(s, id, Working) || At(s, id, Settling) }

  function StageOf(m: Move): Stage {
    match m
    case Miss => Fetching
    case TryAdmit => Fetching
    case Clear => Admitted
    case Start => Cleared
    case DropRunning => Ended
    case DropAbandon => Released
    case DropFinish => Finishing
    case DropDone => Counting
    case _ => Working
  }

  predicate WorkEnabled(s: State, id: TaskId, m: Move) {
    match m
    case Store(_) => InWorker(s, id)
    case NoteCancelled => At(s, id, Working) && id in s.t.cancelled
    case Abandon => InWorker(s, id) && id in s.t.abandon && s.t.abandon[id]
    case End => InWorker(s, id)
    case _ => At(s, id, StageOf(m))
  }

  function PhaseBefore(step: CancelStep): CancelPhase {
    match step
    case Reread(_) => Begun
    case Save(_) => Proceeding
    case Cleanup => Saved
  }

  predicate Enabled(s: State, a: Action) {
    match a
    case Arrive(Own(id)) => id !in s.known
    case Arrive(Put(id)) => id in s.entering
    case Arrive(Pop) => s.queue != []
    case Work(id, m) => WorkEnabled(s, id, m)
    case BeginCancel(id) => id in s.known
    case Resume(c, step) => c < |s.cancels| && s.cancels[c].phase == PhaseBefore(step)
    case Signal(_) => true
    case Choose(active, _) => SteerTarget(active, s.t.owned, s.t.running).Some?
    case Push(f) => f < |s.followUps| && !s.followUps[f].pushed
    case Drain(id) => At(s, id, Working)
  }

  function Arrived(s: State, a: Arrival): State
    requires Enabled(s, Arrive(a))
  {
    match a
    case Own(id) => s.(t := s.t.Own(id), entering := s.entering + {id}, known := s.known + {id})
    case Put(id) =>
      s.(entering := s.entering - {id}, queue := s.queue + [id], unfinished := s.unfinished + 1, puts := s.puts + 1)
    case Pop => s.(queue := s.queue[1..], inHand := s.inHand[s.queue[0] := Fetching])
  }

  function Worked(s: State, id: TaskId, m: Move): State
    requires WorkEnabled(s, id, m)
  {
    match m
    case Miss => s.(inHand := s.inHand[id := Finishing])
    case TryAdmit =>
      var (t, admitted) := s.t.Admit(id);
      s.(t := t, inHand := s.inHand[id := if admitted then Admitted else Finishing])
    case Clear => s.(t := s.t.DrainSteer(id).0, inHand := s.inHand[id := Cleared])
    case Start => s.(t := s.t.RegisterAbandon(id), inHand := s.inHand[id := Working])
    case Store(terminal) => s.(terminal := if terminal then s.terminal + {id} else s.terminal - {id})
    case NoteCancelled => s.(evidence := s.evidence + [WorkerCancelled(id)], inHand := s.inHand[id := Settling])
    case Abandon => s.(inHand := s.inHand[id := Ended])
    case End => s.(inHand := s.inHand[id := Ended])
    case DropRunning => s.(t := s.t.EndRunning(id), inHand := s.inHand[id := Released])
    case DropAbandon => s.(t := s.t.EndAbandon(id), inHand := s.inHand[id := Finishing])
    case DropFinish => s.(t := s.t.Finish(id), inHand := s.inHand[id := Counting])
    case DropDone =>
      s.(inHand := s.inHand - {id}, dones := s.dones + 1,
         unfinished := if s.unfinished > 0 then s.unfinished - 1 else 0)
  }

  function WithPhase(s: State, c: nat, phase: CancelPhase): State
    requires c < |s.cancels|
  {
    s.(cancels := s.cancels[c := s.cancels[c].(phase := phase)])
  }

  function Resumed(s: State, c: nat, step: CancelStep): State
    requires Enabled(s, Resume(c, step))
  {
    var k := s.cancels[c];
    match step
    case Reread(ok) => WithPhase(s, c, if ok && k.task in s.terminal then Settled else Proceeding)
    case Save(ok) =>
      if ok then WithPhase(s, c, Saved).(terminal := s.terminal + {k.task}) else WithPhase(s, c, SaveFailed)
    case Cleanup =>
      WithPhase(s, c, Closed).(
        evidence := if k.sawRunning then s.evidence else s.evidence + [ControlCancelled(k.task, c)])
  }

  function Chosen(s: State, active: seq<Candidate>, text: string): FollowUp
    requires Enabled(s, Choose(active, text))
  {
    FollowUp(SteerTarget(active, s.t.owned, s.t.running).value.id, text, false)
  }

  function Step(s: State, a: Action): State
    requires Enabled(s, a)
  {
    match a
    case Arrive(arrival) => Arrived(s, arrival)
    case Work(id, m) => Worked(s, id, m)
    case BeginCancel(id) =>
      var (t, saw) := s.t.BeginCancel(id);
      s.(t := t, cancels := s.cancels + [Cancel(id, saw, Begun)])
    case Resume(c, step) => Resumed(s, c, step)
    case Signal(id) => s.(t := s.t.SignalAbandon(id))
    case Choose(active, text) => s.(followUps := s.followUps + [Chosen(s, active, text)])
    case Push(f) =>
      var u := s.followUps[f];
      s.(t := s.t.PushSteer(u.target, u.text), followUps := s.followUps[f := u.(pushed := true)])
    case Drain(id) => s.(t := s.t.DrainSteer(id).0)
  }

  ghost predicate IsRun(states: seq<State>, acts: seq<Action>) {
    && |states| == |acts| + 1 && states[0] == Init()
    && forall i | 0 <= i < |acts| :: Enabled(states[i], acts[i]) && states[i + 1] == Step(states[i], acts[i])
  }

  // ---- the invariant -------------------------------------------------------

  predicate HoldsRunning(stage: Stage) {
    stage == Admitted || stage == Cleared || stage == Working || stage == Settling || stage == Ended
  }

  predicate HoldsAbandon(stage: Stage) {
    stage == Working || stage == Settling || stage == Ended || stage == Released
  }

  /** The worker can still write a cancelled record for a task in this stage. */
  predicate MayNote(stage: Stage) {
    stage == Fetching || stage == Admitted || stage == Cleared || stage == Working
  }

  /** Who holds a task: every id is in at most one place, and every place is accounted for. */
  ghost predicate Placed(s: State) {
    && (forall i, j | 0 <= i < j < |s.queue| :: s.queue[i] != s.queue[j])
    && (forall id | id in s.queue :: id !in s.inHand && id !in s.entering)
    && (forall id | id in s.entering :: id !in s.inHand)
    && (forall id | id in s.queue || id in s.inHand || id in s.entering :: id in s.known)
  }

  /** A table holds a task exactly while the guard that clears it is armed. */
  predicate Guard(s: State, id: TaskId) {
    && (id in s.t.running <==> id in s.inHand && HoldsRunning(s.inHand[id]))
    && (id in s.t.abandon <==> id in s.inHand && HoldsAbandon(s.inHand[id]))
    && (id in s.t.owned <==> id in s.entering || id in s.queue || (id in s.inHand && s.inHand[id] != Counting))
  }

  ghost predicate Guarded(s: State) {
    forall id :: Guard(s, id)
  }

  /** The completion count is exact, and the saturating subtraction never saturates. */
  ghost predicate Counted(s: State) {
    s.unfinished == |s.queue| + |s.inHand| && s.puts == s.unfinished + s.dones
  }

  /** A cancel that saw its task idle keeps it idle, and what it saves stays saved. */
  predicate CancelOk(s: State, k: Cancel) {
    && k.task in s.t.cancelled
    && (!k.sawRunning ==> k.task !in s.t.running && (k.HasSaved() ==> k.task in s.terminal))
  }

  ghost predicate Cancelling(s: State) {
    && (forall c | 0 <= c < |s.cancels| :: CancelOk(s, s.cancels[c]))
    && (forall id | id in s.t.cancelled :: exists c :: 0 <= c < |s.cancels| && s.cancels[c].task == id)
  }

  /** Where a task's worker record leaves the task: known, past the point of writing another, never queued again. */
  predicate Noted(s: State, id: TaskId) {
    id !in s.entering && id !in s.queue && (id in s.inHand ==> !MayNote(s.inHand[id])) && id in s.known
  }

  /** Every record is owed to a cancel of its kind, or to a run that can write no other. */
  ghost predicate Attributed(s: State, n: Note) {
    match n
    case WorkerCancelled(id) =>
      && Noted(s, id)
      && exists c :: 0 <= c < |s.cancels| && s.cancels[c].task == id && s.cancels[c].sawRunning
    case ControlCancelled(id, c) =>
      c < |s.cancels| && s.cancels[c].task == id && !s.cancels[c].sawRunning && s.cancels[c].phase == Closed
  }

  ghost predicate Distinct(evidence: seq<Note>) {
    forall m, n | 0 <= m < n < |evidence| :: evidence[m] != evidence[n]
  }

  ghost predicate Recorded(s: State) {
    && (forall n | 0 <= n < |s.evidence| :: Attributed(s, s.evidence[n]))
    && Distinct(s.evidence)
    && (forall c | 0 <= c < |s.cancels| && s.cancels[c].phase == Closed && !s.cancels[c].sawRunning ::
          ControlCancelled(s.cancels[c].task, c) in s.evidence)
  }

  ghost predicate Steering(s: State) {
    && (forall id | id in s.t.steer :: id in s.known)
    && (forall f | 0 <= f < |s.followUps| :: s.followUps[f].target in s.known)
  }

  ghost predicate Inv(s: State) {
    Placed(s) && Guarded(s) && Counted(s) && Cancelling(s) && Recorded(s) && Steering(s)
  }

  lemma ArrivalKeepsPlaces(s: State, a: Arrival)
    requires Placed(s) && Guarded(s) && Counted(s) && Enabled(s, Arrive(a))
    ensures Placed(Arrived(s, a)) && Guarded(Arrived(s, a)) && Counted(Arrived(s, a))
  {
    if a.Pop? {
      assert s.queue == [s.queue[0]] + s.queue[1..];
      assert s.queue[0] in s.queue;
    }
    forall x ensures Guard(Arrived(s, a), x) {
      assert Guard(s, x);
    }
  }

  lemma WorkKeepsGuards(s: State, id: TaskId, m: Move)
    requires Placed(s) && Guarded(s) && WorkEnabled(s, id, m)
    ensures Guarded(Worked(s, id, m))
  {
    assert Guard(s, id);
    forall x ensures Guard(Worked(s, id, m), x) {
      assert Guard(s, x);
    }
  }

  lemma WorkKeepsPlaces(s: State, id: TaskId, m: Move)
    requires Placed(s) && WorkEnabled(s, id, m)
    ensures Placed(Worked(s, id, m))
  {
    assert Worked(s, id, m).inHand.Keys <= s.inHand.Keys;
  }

  lemma WorkKeepsCount(s: State, id: TaskId, m: Move)
    requires Counted(s) && WorkEnabled(s, id, m)
    ensures Counted(Worked(s, id, m))
  {
    var s' := Worked(s, id, m);
    if m == DropDone {
      assert s.inHand.Keys == s'.inHand.Keys + {id};
    } else {
      assert s'.inHand.Keys == s.inHand.Keys;
    }
  }

  lemma OthersKeepPlaces(s: State, a: Action)
    requires Placed(s) && Guarded(s) && Counted(s) && Enabled(s, a) && !a.Arrive? && !a.Work?
    ensures Placed(Step(s, a)) && Guarded(Step(s, a)) && Counted(Step(s, a))
  {
    forall x ensures Guard(Step(s, a), x) {
      assert Guard(s, x);
    }
  }

  /** Cancels are only added, and keep their task, what they saw, and having saved or closed. */
  predicate SameCancels(s: State, s': State) {
    && |s.cancels| <= |s'.cancels|
    && forall c | 0 <= c < |s.cancels| ::
         && s'.cancels[c].task == s.cancels[c].task && s'.cancels[c].sawRunning == s.cancels[c].sawRunning
         && (s.cancels[c].HasSaved() ==> s'.cancels[c].HasSaved())
         && (s.cancels[c].IsDone() ==> s'.cancels[c].phase == s.cancels[c].phase)
  }

  lemma StepKeepsCancels(s: State, a: Action)
    requires Enabled(s, a)
    ensures SameCancels(s, Step(s, a))
  {
  }

  lemma StepKeepsCancelling(s: State, a: Action)
    requires Guarded(s) && Cancelling(s) && Enabled(s, a)
    ensures Cancelling(Step(s, a))
  {
    var s' := Step(s, a);
    StepKeepsCancels(s, a);
    forall c | 0 <= c < |s'.cancels| ensures CancelOk(s', s'.cancels[c]) {
      if c < |s.cancels| {
        assert Guard(s, s.cancels[c].task);
        StepKeepsCancelOk(s, a, c);
      }
    }
    forall id | id in s'.t.cancelled ensures exists c :: 0 <= c < |s'.cancels| && s'.cancels[c].task == id {
      if id in s.t.cancelled {
        var c :| 0 <= c < |s.cancels| && s.cancels[c].task == id;
        assert s'.cancels[c].task == id;
      } else {
        assert s'.cancels[|s.cancels|].task == id;
      }
    }
  }

  lemma StepKeepsCancelOk(s: State, a: Action, c: nat)
    requires Enabled(s, a) && c < |s.cancels| && CancelOk(s, s.cancels[c]) && Guard(s, s.cancels[c].task)
    ensures c < |Step(s, a).cancels| && CancelOk(Step(s, a), Step(s, a).cancels[c])
  {
  }

  lemma ArrivalKeepsNoted(s: State, a: Arrival, id: TaskId)
    requires Placed(s) && Enabled(s, Arrive(a)) && Noted(s, id)
    ensures Noted(Arrived(s, a), id)
  {
    if a.Pop? { assert s.queue[0] in s.queue && s.queue == [s.queue[0]] + s.queue[1..]; }
  }

  lemma WorkKeepsNoted(s: State, w: TaskId, m: Move, id: TaskId)
    requires WorkEnabled(s, w, m) && Noted(s, id)
    ensures Noted(Worked(s, w, m), id)
  {
  }

  lemma NotedStays(s: State, a: Action, id: TaskId)
    requires Placed(s) && Enabled(s, a) && Noted(s, id)
    ensures Noted(Step(s, a), id)
  {
    match a
    case Arrive(arrival) => ArrivalKeepsNoted(s, arrival, id);
    case Work(w, m) => WorkKeepsNoted(s, w, m, id);
    case _ =>
  }

  lemma NoteStays(s: State, a: Action, n: Note)
    requires Placed(s) && Enabled(s, a) && Attributed(s, n)
    ensures Attributed(Step(s, a), n)
  {
    StepKeepsCancels(s, a);
    if n.WorkerCancelled? {
      NotedStays(s, a, n.task);
      var c :| 0 <= c < |s.cancels| && s.cancels[c].task == n.task && s.cancels[c].sawRunning;
      assert Step(s, a).cancels[c].task == n.task && Step(s, a).cancels[c].sawRunning;
    }
  }

  /** A worker that finds its task cancelled was seen running by the cancel that did it. */
  lemma WorkerSeesARunningCancel(s: State, id: TaskId)
    requires Cancelling(s) && Guarded(s) && At(s, id, Working) && id in s.t.cancelled
    ensures exists c :: 0 <= c < |s.cancels| && s.cancels[c].task == id && s.cancels[c].sawRunning
  {
    var c :| 0 <= c < |s.cancels| && s.cancels[c].task == id;
    assert Guard(s, id) && CancelOk(s, s.cancels[c]);
  }

  /** Steps that write no record. */
  predicate WritesNothing(s: State, a: Action)
    requires Enabled(s, a)
  {
    Step(s, a).evidence == s.evidence
  }

  lemma NewRecord(s: State, a: Action)
    requires Inv(s) && Enabled(s, a) && !WritesNothing(s, a)
    ensures var s' := Step(s, a);
      && |s'.evidence| == |s.evidence| + 1 && s'.evidence[..|s.evidence|] == s.evidence
      && Attributed(s', s'.evidence[|s.evidence|]) && s'.evidence[|s.evidence|] !in s.evidence
  {
    var s' := Step(s, a);
    assert forall x | x in s.evidence :: Attributed(s, x);
    if a.Work? {
      WorkerSeesARunningCancel(s, a.id);
      assert s'.evidence[|s.evidence|] == WorkerCancelled(a.id) && MayNote(s.inHand[a.id]);
    }
  }

  lemma StepKeepsNotes(s: State, a: Action)
    requires Inv(s) && Enabled(s, a)
    ensures forall n | 0 <= n < |Step(s, a).evidence| :: Attributed(Step(s, a), Step(s, a).evidence[n])
    ensures Distinct(Step(s, a).evidence)
  {
    var s' := Step(s, a);
    forall n | 0 <= n < |s.evidence| ensures Attributed(s', s.evidence[n]) { NoteStays(s, a, s.evidence[n]); }
    if !WritesNothing(s, a) {
      NewRecord(s, a);
      assert s'.evidence == s.evidence + [s'.evidence[|s.evidence|]];
    }
  }

  lemma StepKeepsRecorded(s: State, a: Action)
    requires Inv(s) && Enabled(s, a)
    ensures Recorded(Step(s, a))
  {
    var s' := Step(s, a);
    StepKeepsNotes(s, a);
    forall c | 0 <= c < |s'.cancels| && s'.cancels[c].phase == Closed && !s'.cancels[c].sawRunning
      ensures ControlCancelled(s'.cancels[c].task, c) in s'.evidence
    {
      ClosedHasRecord(s, a, c);
    }
  }

  lemma ClosedHasRecord(s: State, a: Action, c: nat)
    requires Recorded(s) && Enabled(s, a) && c < |Step(s, a).cancels|
    requires Step(s, a).cancels[c].phase == Closed && !Step(s, a).cancels[c].sawRunning
    ensures ControlCancelled(Step(s, a).cancels[c].task, c) in Step(s, a).evidence
  {
    if a == Resume(c, Cleanup) {
      assert Step(s, a).evidence[|s.evidence|] == ControlCancelled(s.cancels[c].task, c);
    } else {
      assert s.cancels[c].phase == Closed && Step(s, a).cancels[c].task == s.cancels[c].task;
      assert ControlCancelled(s.cancels[c].task, c) in s.evidence;
    }
  }

  lemma StepKeepsSteering(s: State, a: Action)
    requires Guarded(s) && Placed(s) && Steering(s) && Enabled(s, a)
    ensures Steering(Step(s, a))
  {
    if a.Choose? { ChosenIsOwned(s, a.active, a.text); }
  }

  /** The target of a follow-up was owned when it was picked. */
  lemma ChosenIsOwned(s: State, active: seq<Candidate>, text: string)
    requires Enabled(s, Choose(active, text))
    ensures Chosen(s, active, text).target in s.t.owned
    ensures Guarded(s) && Placed(s) ==> Chosen(s, active, text).target in s.known
  {
    TargetIsNewestEligible(active, s.t.owned, s.t.running);
    assert Guard(s, Chosen(s, active, text).target) || !Guarded(s);
  }

  lemma {:induction false} RunKeepsInv(states: seq<State>, acts: seq<Action>, k: nat)
    requires IsRun(states, acts) && k < |states|
    ensures Inv(states[k])
    decreases k
  {
    if k > 0 {
      RunKeepsInv(states, acts, k - 1);
      var s, a := states[k - 1], acts[k - 1];
      match a {
        case Arrive(arrival) => ArrivalKeepsPlaces(s, arrival);
        case Work(id, m) => WorkKeepsGuards(s, id, m); WorkKeepsPlaces(s, id, m); WorkKeepsCount(s, id, m);
        case _ => OthersKeepPlaces(s, a);
      }
      StepKeepsCancelling(s, a);
      StepKeepsRecorded(s, a);
      StepKeepsSteering(s, a);
    }
  }

  // ---- what holds over whole runs ------------------------------------------

  lemma OneStepKeepsCancels(states: seq<State>, acts: seq<Action>, i: nat)
    requires IsRun(states, acts) && i < |acts|
    ensures SameCancels(states[i], states[i + 1])
  {
    StepKeepsCancels(states[i], acts[i]);
  }

  /** Cancels are only added, keep their task and what they saw, and never undo a save or an end. */
  lemma {:induction false} CancelsPersist(states: seq<State>, acts: seq<Action>, i: nat, j: nat, c: nat)
    requires IsRun(states, acts) && i <= j < |states| && c < |states[i].cancels|
    ensures c < |states[j].cancels|
    ensures states[j].cancels[c].task == states[i].cancels[c].task
    ensures states[j].cancels[c].sawRunning == states[i].cancels[c].sawRunning
    ensures states[i].cancels[c].HasSaved() ==> states[j].cancels[c].HasSaved()
    ensures states[i].cancels[c].IsDone() ==> states[j].cancels[c].phase == states[i].cancels[c].phase
    decreases j - i
  {
    if i < j {
      CancelsPersist(states, acts, i, j - 1, c);
      OneStepKeepsCancels(states, acts, j - 1);
    }
  }

  /** Once a cancel saw its task idle, it stays cancelled and idle, and no worker starts it or notes the cancel. */
  lemma IdleCancelIsFinal(states: seq<State>, acts: seq<Action>, i: nat, j: nat, c: nat)
    requires IsRun(states, acts) && i <= j < |states|
    requires c < |states[i].cancels| && !states[i].cancels[c].sawRunning
    ensures var id := states[i].cancels[c].task;
      && id in states[j].t.cancelled && id !in states[j].t.running
      && (j < |acts| ==> acts[j] != Work(id, Start) && acts[j] != Work(id, NoteCancelled))
      && (j < |acts| && acts[j] == Work(id, TryAdmit) ==> At(states[j + 1], id, Finishing))
  {
    CancelsPersist(states, acts, i, j, c);
    RunKeepsInv(states, acts, j);
    assert CancelOk(states[j], states[j].cancels[c]);
    assert Guard(states[j], states[i].cancels[c].task);
    if j < |acts| { assert Enabled(states[j], acts[j]); }
  }

  /** A cancel that saw its task running never runs the cleanup branch, and every later poll answers cancelled. */
  lemma RunningCancelWritesNothing(states: seq<State>, acts: seq<Action>, i: nat, j: nat, c: nat)
    requires IsRun(states, acts) && i <= j < |states|
    requires c < |states[i].cancels| && states[i].cancels[c].sawRunning
    ensures var id := states[i].cancels[c].task;
      && id in states[j].t.cancelled
      && (forall n | 0 <= n < |states[j].evidence| :: states[j].evidence[n] != ControlCancelled(id, c))
  {
    CancelsPersist(states, acts, i, j, c);
    RunKeepsInv(states, acts, j);
    var s := states[j];
    assert CancelOk(s, s.cancels[c]);
    forall n | 0 <= n < |s.evidence| ensures s.evidence[n] != ControlCancelled(states[i].cancels[c].task, c) {
      assert Attributed(s, s.evidence[n]);
    }
  }

  /** What the critical section reads is the truth: running exactly between admission and the running guard's drop. */
  lemma CancelSeesTheWorker(states: seq<State>, acts: seq<Action>, i: nat, id: TaskId)
    requires IsRun(states, acts) && i < |acts| && acts[i] == BeginCancel(id)
    ensures var k := states[i + 1].cancels[|states[i].cancels|];
      k == Cancel(id, id in states[i].inHand && HoldsRunning(states[i].inHand[id]), Begun)
  {
    RunKeepsInv(states, acts, i);
    assert Guard(states[i], id);
  }

  /** At every moment puts = queued + in hand + done; a task out of hand has left the tables its guards clear. */
  lemma CompletionCountIsExact(states: seq<State>, acts: seq<Action>, j: nat)
    requires IsRun(states, acts) && j < |states|
    ensures states[j].puts == |states[j].queue| + |states[j].inHand| + states[j].dones
    ensures states[j].unfinished == 0 <==> states[j].queue == [] && states[j].inHand == map[]
    ensures forall id | id !in states[j].queue && id !in states[j].inHand && id !in states[j].entering ::
      Gone(states[j], id)
  {
    RunKeepsInv(states, acts, j);
    var s := states[j];
    forall id | id !in s.queue && id !in s.inHand && id !in s.entering ensures Gone(s, id) {
      assert Guard(s, id);
    }
  }

  /** A run goes on with any step enabled at its end. */
  lemma Extended(states: seq<State>, acts: seq<Action>, a: Action) returns (longer: seq<State>, acts': seq<Action>)
    requires IsRun(states, acts) && Enabled(states[|acts|], a)
    ensures IsRun(longer, acts') && acts' == acts + [a] && longer == states + [Step(states[|acts|], a)]
  {
    longer, acts' := states + [Step(states[|acts|], a)], acts + [a];
  }

  predicate Gone(s: State, id: TaskId) {
    id !in s.t.running && id !in s.t.abandon && id !in s.t.owned
  }
}
