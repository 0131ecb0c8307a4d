/**
 What keeps the DingTalk dispatcher going and what ends it (edge/internal/dingtalk/stream.go): tokens
 against bot messages, how a queued frame comes to be handled, and what still happens after closing.
 */
module DingtalkProgress {
  import opened Texts
  import opened DingtalkQueue
  import opened DingtalkStream

  // ---- what the dispatcher may do ----------------------------------------------------------

  /** The dispatcher's next step, wherever it stands. */
  lemma NextStepIs(s: State)
    ensures Enabled(s, PassCheck) <==> s.consumer == Checking && !s.closed
    ensures Enabled(s, ExitCheck) <==> s.consumer == Checking && s.closed
    ensures Enabled(s, Take) <==> s.consumer == Dequeuing
    ensures Enabled(s, Wake) <==> s.consumer == Sleeping && s.wake
    ensures Enabled(s, ExitSleep) <==> s.consumer == Sleeping && s.closed
    ensures forall ok :: Enabled(s, Return(ok)) <==> s.consumer.Handling?
    ensures Enabled(s, Reply) <==> s.consumer.Replying?
    ensures Enabled(s, SendToken) <==> s.producer == Appended
    ensures Enabled(s, Close)
  {
  }

  ghost predicate Took(acts: seq<Action>, k: nat, a: Action) {
    exists j :: 0 <= j < k <= |acts| && acts[j] == a
  }

  lemma TookStep(acts: seq<Action>, k: nat, a: Action)
    requires 0 < k <= |acts|
    ensures Took(acts, k, a) <==> Took(acts, k - 1, a) || acts[k - 1] == a
  {
  }

  /** The connection is closed from its closing on, and the dispatcher gone from its leaving on. */
  lemma {:induction false} ClosedAndExitedIff(states: seq<State>, acts: seq<Action>, k: nat)
    requires IsRun(states, acts) && k < |states|
    ensures states[k].closed <==> Took(acts, k, Close)
    ensures states[k].consumer == Exited <==> Took(acts, k, ExitCheck) || Took(acts, k, ExitSleep)
    ensures states[k].consumer == Exited ==> states[k].closed
    decreases k
  {
    if k > 0 {
      ClosedAndExitedIff(states, acts, k - 1);
      assert Enabled(states[k - 1], acts[k - 1]) && states[k] == Step(states[k - 1], acts[k - 1]);
      TookStep(acts, k, Close);
      TookStep(acts, k, ExitCheck);
      TookStep(acts, k, ExitSleep);
    }
  }

  // ---- tokens -------------------------------------------------------------------------------

  /** A token sent at step j that no wake-up has used before step k. */
  predicate Unused(acts: seq<Action>, j: nat, k: nat) {
    j < k <= |acts| && acts[j] == SendToken && forall i | j < i < k :: acts[i] != Wake
  }

  ghost predicate TokenWaits(acts: seq<Action>, k: nat) { exists j :: Unused(acts, j, k) }

  lemma TokenStep(acts: seq<Action>, k: nat)
    requires 0 < k <= |acts|
    ensures TokenWaits(acts, k) <==> acts[k - 1] == SendToken || (acts[k - 1] != Wake && TokenWaits(acts, k - 1))
  {
    var before := k - 1;
    if acts[before] == SendToken { assert Unused(acts, before, k); }
    if j: nat :| Unused(acts, j, before) { assert acts[before] != Wake ==> Unused(acts, j, k); }
    if j: nat :| Unused(acts, j, k) { assert j < before ==> Unused(acts, j, before); }
  }

  /** The wake slot is full exactly when a token was sent since the last wake-up, however many were. */
  lemma {:induction false} SlotIsFullIff(states: seq<State>, acts: seq<Action>, k: nat)
    requires IsRun(states, acts) && k < |states|
    ensures states[k].wake <==> TokenWaits(acts, k)
    decreases k
  {
    if k > 0 {
      SlotIsFullIff(states, acts, k - 1);
      assert Enabled(states[k - 1], acts[k - 1]) && states[k] == Step(states[k - 1], acts[k - 1]);
      TokenStep(acts, k);
    }
  }

  function TokensSent(acts: seq<Action>, k: nat): nat
    requires k <= |acts|
  {
    if k == 0 then 0 else TokensSent(acts, k - 1) + if acts[k - 1] == SendToken then 1 else 0
  }

  /** One token for each bot message, the last perhaps still to be sent. */
  lemma {:induction false} TokensMatchBots(states: seq<State>, acts: seq<Action>, k: nat)
    requires IsRun(states, acts) && k < |states|
    ensures |Bots(states[k].received)| == TokensSent(acts, k) + if states[k].producer == Appended then 1 else 0
    decreases k
  {
    if k > 0 {
      TokensMatchBots(states, acts, k - 1);
      var s, a := states[k - 1], acts[k - 1];
      assert Enabled(s, a) && states[k] == Step(s, a);
      if a.Receive? { assert states[k].received[..|s.received|] == s.received; }
    }
  }

  // ---- a queued frame comes to be handled ----------------------------------------------------

  /** `more` can be taken from s, one after the other. */
  predicate CanTake(s: State, more: seq<Action>)
    decreases |more|
  {
    more == [] || (Enabled(s, more[0]) && CanTake(Step(s, more[0]), more[1..]))
  }

  function After(s: State, more: seq<Action>): State
    requires CanTake(s, more)
    decreases |more|
  {
    if more == [] then s else After(Step(s, more[0]), more[1..])
  }

  lemma First(s: State, a: Action, more: seq<Action>)
    requires Enabled(s, a) && CanTake(Step(s, a), more)
    ensures CanTake(s, [a] + more) && After(s, [a] + more) == After(Step(s, a), more)
  {
    assert ([a] + more)[1..] == more;
  }

  lemma FromDequeuing(s: State) returns (more: seq<Action>)
    requires s.consumer == Dequeuing && s.queue != []
    ensures |more| <= 1 && CanTake(s, more) && After(s, more).consumer == Handling(s.queue[0])
    ensures After(s, more).queue == s.queue[1..]
  {
    more := [Take];
    First(s, Take, []);
    assert [Take] + [] == more;
  }

  lemma FromChecking(s: State) returns (more: seq<Action>)
    requires s.consumer == Checking && s.queue != [] && !s.closed
    ensures |more| <= 2 && CanTake(s, more) && After(s, more).consumer == Handling(s.queue[0])
    ensures After(s, more).queue == s.queue[1..]
  {
    var rest := FromDequeuing(Step(s, PassCheck));
    First(s, PassCheck, rest);
    more := [PassCheck] + rest;
  }

  lemma FromSleeping(s: State) returns (more: seq<Action>)
    requires s.consumer == Sleeping && s.queue != [] && !s.closed && (s.wake || s.producer == Appended)
    ensures |more| <= 4 && CanTake(s, more) && After(s, more).consumer == Handling(s.queue[0])
    ensures After(s, more).queue == s.queue[1..]
  {
    if s.wake {
      var rest := FromChecking(Step(s, Wake));
      First(s, Wake, rest);
      more := [Wake] + rest;
    } else {
      var s' := Step(s, SendToken);
      var rest := FromChecking(Step(s', Wake));
      First(s', Wake, rest);
      First(s, SendToken, [Wake] + rest);
      more := [SendToken] + ([Wake] + rest);
    }
  }

  lemma FromReplying(s: State) returns (more: seq<Action>)
    requires s.consumer.Replying? && s.queue != [] && !s.closed
    ensures |more| <= 3 && CanTake(s, more) && After(s, more).consumer == Handling(s.queue[0])
    ensures After(s, more).queue == s.queue[1..]
  {
    var rest := FromChecking(Step(s, Reply));
    First(s, Reply, rest);
    more := [Reply] + rest;
  }

  lemma FromHandling(s: State, ok: bool) returns (more: seq<Action>)
    requires s.consumer.Handling? && s.queue != [] && !s.closed
    ensures |more| <= 4 && CanTake(s, more) && After(s, more).consumer == Handling(s.queue[0])
    ensures After(s, more).queue == s.queue[1..]
  {
    var rest := FromReplying(Step(s, Return(ok)));
    First(s, Return(ok), rest);
    more := [Return(ok)] + rest;
  }

  /** On an open connection the oldest queued frame can always be brought to its handler, in four steps at most. */
  lemma QueuedIsHandled(states: seq<State>, acts: seq<Action>, k: nat) returns (more: seq<Action>)
    requires IsRun(states, acts) && k < |states| && states[k].queue != [] && !states[k].closed
    ensures |more| <= 4 && CanTake(states[k], more)
    ensures After(states[k], more).consumer == Handling(states[k].queue[0])
    ensures After(states[k], more).queue == states[k].queue[1..]
  {
    RunKeepsInv(states, acts, k);
    ClosedAndExitedIff(states, acts, k);
    match states[k].consumer
    case Checking => more := FromChecking(states[k]);
    case Dequeuing => more := FromDequeuing(states[k]);
    case Sleeping => more := FromSleeping(states[k]);
    case Replying(_, _) => more := FromReplying(states[k]);
    case Handling(_) => more := FromHandling(states[k], true);
    case Exited =>
  }

  // ---- after closing ------------------------------------------------------------------------

  /** Frames that have come as far as the handler. */
  function Taken(s: State): nat { |s.handled| + |InHand(s.consumer)| }

  /** The dispatcher has passed its check and not yet looked at the queue. */
  function PastCheck(s: State): nat { if s.consumer == Dequeuing then 1 else 0 }

  lemma TakenStep(s: State, a: Action)
    requires Enabled(s, a)
    ensures Step(s, a).closed <==> s.closed || a == Close
    ensures s.closed ==> Taken(Step(s, a)) + PastCheck(Step(s, a)) <= Taken(s) + PastCheck(s)
    ensures a == Take && s.queue != [] ==> Taken(Step(s, a)) == Taken(s) + 1
    ensures a != Take ==> Taken(Step(s, a)) == Taken(s)
  {
  }

  /** Once closed, at most one more frame is taken, and none unless the dispatcher had just passed its check. */
  lemma {:induction false} ClosedTakesOneMore(states: seq<State>, acts: seq<Action>, i: nat, k: nat)
    requires IsRun(states, acts) && i <= k < |states| && states[i].closed
    ensures states[k].closed && Taken(states[k]) <= Taken(states[i]) + PastCheck(states[i])
    ensures Taken(states[k]) + PastCheck(states[k]) <= Taken(states[i]) + PastCheck(states[i])
    decreases k
  {
    if i < k {
      ClosedTakesOneMore(states, acts, i, k - 1);
      assert Enabled(states[k - 1], acts[k - 1]) && states[k] == Step(states[k - 1], acts[k - 1]);
      TakenStep(states[k - 1], acts[k - 1]);
    }
  }

  lemma LeavesFromCheck(s: State) returns (more: seq<Action>)
    requires s.consumer in {Checking, Sleeping} && s.closed
    ensures |more| <= 1 && CanTake(s, more) && After(s, more).consumer == Exited
  {
    var a := if s.consumer == Checking then ExitCheck else ExitSleep;
    First(s, a, []);
    more := [a] + [];
  }

  lemma LeavesFromReply(s: State) returns (more: seq<Action>)
    requires s.consumer.Replying? && s.closed
    ensures |more| <= 2 && CanTake(s, more) && After(s, more).consumer == Exited
  {
    var rest := LeavesFromCheck(Step(s, Reply));
    First(s, Reply, rest);
    more := [Reply] + rest;
  }

  lemma LeavesFromHandler(s: State, ok: bool) returns (more: seq<Action>)
    requires s.consumer.Handling? && s.closed
    ensures |more| <= 3 && CanTake(s, more) && After(s, more).consumer == Exited
  {
    var rest := LeavesFromReply(Step(s, Return(ok)));
    First(s, Return(ok), rest);
    more := [Return(ok)] + rest;
  }

  /** A dispatcher of a closed connection can always leave, in four steps at most and whatever is queued. */
  lemma ClosedCanLeave(s: State, ok: bool) returns (more: seq<Action>)
    requires s.closed && s.consumer != Exited
    ensures |more| <= 4 && CanTake(s, more) && After(s, more).consumer == Exited
  {
    match s.consumer
    case Replying(_, _) => more := LeavesFromReply(s);
    case Handling(_) => more := LeavesFromHandler(s, ok);
    case Dequeuing =>
      var s' := Step(s, Take);
      var rest;
      if s.queue == [] { rest := LeavesFromCheck(s'); } else { rest := LeavesFromHandler(s', ok); }
      First(s, Take, rest);
      more := [Take] + rest;
    case _ => more := LeavesFromCheck(s);
  }
}
