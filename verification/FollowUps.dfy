/**
 When a follow-up is never delivered: its target is picked in one critical section
 (core/crates/control/src/routing/mod.rs) and its text queued in a later one, and the finish guard of
 dispatch.rs may drop in between.
 */
module FollowUps {
  import opened Texts
  import opened DispatchTables
  import opened SteerTargets
  import opened DispatchProtocol

  function Lines(s: State, id: TaskId): seq<string> { if id in s.t.steer then s.t.steer[id] else [] }

  /** Step p queues a text under a task nobody owns. */
  predicate LatePush(states: seq<State>, acts: seq<Action>, p: nat, id: TaskId)
    requires p < |states| && p < |acts|
  {
    && acts[p].Push? && acts[p].f < |states[p].followUps|
    && states[p].followUps[acts[p].f].target == id && id !in states[p].t.owned
  }

  /** The texts queued under the task when nobody owned it, in order. */
  function LateLines(states: seq<State>, acts: seq<Action>, j: nat, id: TaskId): seq<string>
    requires j <= |acts| && j < |states|
  {
    if j == 0 then [] else
    LateLines(states, acts, j - 1, id)
    + if LatePush(states, acts, j - 1, id) then [states[j - 1].followUps[acts[j - 1].f].text] else []
  }

  lemma WorkLines(s: State, w: TaskId, m: Move, id: TaskId)
    requires Guard(s, id) && Guard(s, w) && WorkEnabled(s, w, m) && id !in Worked(s, w, m).t.owned
    ensures id !in s.t.owned ==> Lines(Worked(s, w, m), id) == Lines(s, id)
    ensures id in s.t.owned ==> Lines(Worked(s, w, m), id) == []
  {
  }

  lemma LinesStep(s: State, a: Action, id: TaskId)
    requires Guarded(s) && Steering(s) && Enabled(s, a) && id !in Step(s, a).t.owned
    ensures id !in s.t.owned && id in s.known ==>
      Lines(Step(s, a), id)
        == Lines(s, id) + if a.Push? && s.followUps[a.f].target == id then [s.followUps[a.f].text] else []
    ensures id in s.t.owned ==> Lines(Step(s, a), id) == [] && !a.Push?
    ensures id !in s.known ==> Lines(Step(s, a), id) == [] && id !in Step(s, a).known
  {
    assert Guard(s, id);
    match a
    case Work(w, m) =>
      assert Guard(s, w);
      WorkLines(s, w, m, id);
    case Drain(target) => assert Guard(s, target);
    case _ =>
  }

  lemma OwnedIsKnown(s: State, id: TaskId)
    requires Inv(s)
    ensures id in s.t.owned ==> id in s.known
  {
    assert Guard(s, id);
  }

  /** Nobody delivers, reorders or repeats what is queued under a task nobody owns: it is just the late texts. */
  lemma {:induction false} UndeliveredAreLate(states: seq<State>, acts: seq<Action>, j: nat, id: TaskId)
    requires IsRun(states, acts) && j < |states|
    ensures id !in states[j].t.owned ==> Lines(states[j], id) == LateLines(states, acts, j, id)
    ensures id in states[j].t.owned || id !in states[j].known ==> LateLines(states, acts, j, id) == []
    decreases j
  {
    if j > 0 {
      var s, a := states[j - 1], acts[j - 1];
      assert Enabled(s, a) && states[j] == Step(s, a);
      UndeliveredAreLate(states, acts, j - 1, id);
      RunKeepsInv(states, acts, j - 1);
      OwnedIsKnown(s, id);
      if id !in states[j].t.owned { LinesStep(s, a, id); } else { OwnedStep(s, a, id); }
      if a.Push? { assert s.followUps[a.f].target in s.known; }
    }
  }

  /** A task is owned from the start of its life, and never again once let go. */
  lemma OwnedStep(s: State, a: Action, id: TaskId)
    requires Inv(s) && Enabled(s, a)
    ensures id in Step(s, a).t.owned ==> id in s.t.owned || id !in s.known
    ensures id in s.t.owned ==> (id in Step(s, a).t.owned <==> a != Work(id, DropFinish))
    ensures id in s.known ==> id in Step(s, a).known
  {
  }

  /** An owned task stays so exactly until its finish guard drops. */
  lemma {:induction false} OwnedUntilFinish(states: seq<State>, acts: seq<Action>, i: nat, p: nat, id: TaskId)
    requires IsRun(states, acts) && i <= p < |states| && id in states[i].t.owned
    ensures id in states[p].known
    ensures id !in states[p].t.owned <==> exists m :: i <= m < p && acts[m] == Work(id, DropFinish)
    decreases p - i
  {
    if i < p {
      OwnedUntilFinish(states, acts, i, p - 1, id);
      RunKeepsInv(states, acts, p - 1);
      assert Enabled(states[p - 1], acts[p - 1]);
      OwnedStep(states[p - 1], acts[p - 1], id);
    } else {
      RunKeepsInv(states, acts, i);
      OwnedIsKnown(states[i], id);
    }
  }

  lemma {:induction false} FollowUpStays(states: seq<State>, acts: seq<Action>, i: nat, p: nat, f: nat)
    requires IsRun(states, acts) && i <= p < |states| && f < |states[i].followUps|
    ensures f < |states[p].followUps|
    ensures states[p].followUps[f].target == states[i].followUps[f].target
    ensures states[p].followUps[f].text == states[i].followUps[f].text
    decreases p - i
  {
    if i < p {
      FollowUpStays(states, acts, i, p - 1, f);
      assert Enabled(states[p - 1], acts[p - 1]);
    }
  }

  lemma {:induction false} ChoiceOf(states: seq<State>, acts: seq<Action>, p: nat, f: nat) returns (i: nat)
    requires IsRun(states, acts) && p < |states| && f < |states[p].followUps|
    ensures i < p && acts[i].Choose? && |states[i].followUps| == f
    decreases p
  {
    assert Enabled(states[p - 1], acts[p - 1]);
    if f < |states[p - 1].followUps| { i := ChoiceOf(states, acts, p - 1, f); } else { i := p - 1; }
  }

  /** Follow-up f was chosen at step i for this task and pushed at step p. */
  predicate Follows(states: seq<State>, acts: seq<Action>, i: nat, p: nat, id: TaskId) {
    && i < p < |acts| && p < |states| && acts[i].Choose? && acts[p] == Push(|states[i].followUps|)
    && |states[i].followUps| < |states[p].followUps| && states[p].followUps[|states[i].followUps|].target == id
  }

  /** A push is late exactly when the finish guard of its target dropped after the target was picked. */
  lemma LateIff(states: seq<State>, acts: seq<Action>, i: nat, p: nat, id: TaskId)
    requires IsRun(states, acts) && Follows(states, acts, i, p, id)
    ensures LatePush(states, acts, p, id) <==> exists m :: i < m < p && acts[m] == Work(id, DropFinish)
  {
    var f := |states[i].followUps|;
    assert Enabled(states[i], acts[i]);
    FollowUpStays(states, acts, i + 1, p, f);
    ChosenIsOwned(states[i], acts[i].active, acts[i].text);
    assert states[i + 1].t == states[i].t;
    OwnedUntilFinish(states, acts, i + 1, p, id);
  }

  lemma {:induction false} LateLinesHave(states: seq<State>, acts: seq<Action>, j: nat, id: TaskId)
    requires j <= |acts| && j < |states|
    ensures LateLines(states, acts, j, id) != [] <==> exists p :: 0 <= p < j && LatePush(states, acts, p, id)
  {
    if j > 0 { LateLinesHave(states, acts, j - 1, id); }
  }

  lemma {:induction false} QueuedIsNotEmpty(states: seq<State>, acts: seq<Action>, j: nat, id: TaskId)
    requires IsRun(states, acts) && j < |states| && id in states[j].t.steer
    ensures states[j].t.steer[id] != []
    decreases j
  {
    assert j > 0 && Enabled(states[j - 1], acts[j - 1]);
    if id in states[j - 1].t.steer { QueuedIsNotEmpty(states, acts, j - 1, id); }
  }

  /** The finish guard of the task dropped between the picking of a follow-up's target and its push. */
  ghost predicate Stranding(states: seq<State>, acts: seq<Action>, j: nat, id: TaskId, i: nat, m: nat, p: nat) {
    j <= |acts| && i < m < p < j && Follows(states, acts, i, p, id) && acts[m] == Work(id, DropFinish)
  }

  /** A follow-up lies under a task nobody owns, for good, exactly when that happened. */
  lemma StrandedIff(states: seq<State>, acts: seq<Action>, j: nat, id: TaskId)
    requires IsRun(states, acts) && j < |states|
    ensures (id in states[j].t.steer && id !in states[j].t.owned)
      <==> exists i, m, p :: Stranding(states, acts, j, id, i, m, p)
  {
    UndeliveredAreLate(states, acts, j, id);
    LateLinesHave(states, acts, j, id);
    if id in states[j].t.steer && id !in states[j].t.owned {
      QueuedIsNotEmpty(states, acts, j, id);
      var p: nat :| p < j && LatePush(states, acts, p, id);
      var i := ChoiceOf(states, acts, p, acts[p].f);
      LateIff(states, acts, i, p, id);
      var m :| i < m < p && acts[m] == Work(id, DropFinish);
      assert Stranding(states, acts, j, id, i, m, p);
    }
    if i, m, p :| Stranding(states, acts, j, id, i, m, p) {
      LateIff(states, acts, i, p, id);
      StrandedStays(states, acts, p, j, id);
    }
  }

  lemma StrandedStays(states: seq<State>, acts: seq<Action>, p: nat, j: nat, id: TaskId)
    requires IsRun(states, acts) && p < j < |states| && LatePush(states, acts, p, id)
    ensures id !in states[j].t.owned
  {
    RunKeepsInv(states, acts, p);
    NeverOwnedAgain(states, acts, p, j, id);
  }

  lemma {:induction false} NeverOwnedAgain(states: seq<State>, acts: seq<Action>, p: nat, j: nat, id: TaskId)
    requires IsRun(states, acts) && p <= j < |states| && id in states[p].known && id !in states[p].t.owned
    ensures id in states[j].known && id !in states[j].t.owned
    decreases j - p
  {
    if p < j {
      NeverOwnedAgain(states, acts, p, j - 1, id);
      RunKeepsInv(states, acts, j - 1);
      assert Enabled(states[j - 1], acts[j - 1]);
      OwnedStep(states[j - 1], acts[j - 1], id);
    }
  }

  lemma ChosenWhileFetched(id: TaskId, text: string) returns (states: seq<State>, acts: seq<Action>)
    ensures IsRun(states, acts) && |acts| == 4 && acts[3] == Choose([Candidate(id, 0)], text)
    ensures states[3].followUps == [] && states[4].followUps == [FollowUp(id, text, false)]
    ensures states[4].t == Tables({}, {}, {id}, map[], map[]) && states[4].inHand == map[id := Fetching]
    ensures states[4].unfinished == 1
  {
    var active := [Candidate(id, 0)];
    states, acts := [Init()], [];
    states, acts := Extended(states, acts, Arrive(Own(id)));
    states, acts := Extended(states, acts, Arrive(Put(id)));
    states, acts := Extended(states, acts, Arrive(Pop));
    OnlyCandidate(id);
    states, acts := Extended(states, acts, Choose(active, text));
  }

  lemma OnlyCandidate(id: TaskId)
    ensures SteerTarget([Candidate(id, 0)], {id}, {}) == Some(Candidate(id, 0))
  {
  }

  lemma FinishedAround(states: seq<State>, acts: seq<Action>, id: TaskId)
    returns (longer: seq<State>, acts': seq<Action>)
    requires IsRun(states, acts) && states[|acts|].inHand == map[id := Fetching] && states[|acts|].unfinished == 1
    requires states[|acts|].t == Tables({}, {}, {id}, map[], map[])
    ensures IsRun(longer, acts') && |longer| >= |states| && longer[..|states|] == states
    ensures acts' == acts + [Work(id, Miss)] + [Work(id, DropFinish)] + [Work(id, DropDone)]
    ensures var s := longer[|acts'|];
      s.t == Tables({}, {}, {}, map[], map[]) && s.unfinished == 0 && s.followUps == states[|acts|].followUps
  {
    longer, acts' := Extended(states, acts, Work(id, Miss));
    longer, acts' := Extended(longer, acts', Work(id, DropFinish));
    longer, acts' := Extended(longer, acts', Work(id, DropDone));
  }

  /** It happens: the target is picked while the task is read from the store, and queued after it is done. */
  lemma FollowUpCanBeStranded(id: TaskId, text: string) returns (states: seq<State>, acts: seq<Action>)
    ensures IsRun(states, acts)
    ensures Stranding(states, acts, 8, id, 3, 5, 7)
    ensures states[8].t.steer == map[id := [text]] && states[8].t.owned == {} && states[8].unfinished == 0
  {
    states, acts := ChosenWhileFetched(id, text);
    var before := states;
    states, acts := FinishedAround(states, acts, id);
    assert states[..5] == before && states[3] == before[3] && states[4] == before[4];
    assert acts[3].Choose? && acts[5] == Work(id, DropFinish) && states[7].followUps == before[4].followUps;
    states, acts := Extended(states, acts, Push(0));
    assert Follows(states, acts, 3, 7, id);
    assert [] + [text] == [text] && states[8].t.steer == map[][id := [text]];
  }
}
