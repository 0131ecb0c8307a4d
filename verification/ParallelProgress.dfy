/**
 That the parallel dispatcher goes on: what each of its steps waits for, what ends its wait, and that
 queued work it could run is run (`dispatch_loop_parallel` in core/crates/control/src/dispatch.rs).
 */
module ParallelProgress {
  import opened Texts
  import opened DispatchQueues
  import opened ParallelDispatch

  /** The first item whose session is not in flight. */
  ghost predicate IsFirstFree(items: seq<Item>, inFlight: seq<Item>, i: nat) {
    && i < |items| && (forall x | x in inFlight :: x.key != items[i].key)
    && forall j | 0 <= j < i :: exists x :: x in inFlight && x.key == items[j].key
  }

  ghost predicate HasFreeItem(s: State) { exists i :: IsFirstFree(s.items, s.inFlight, i) }

  lemma KeysAreOfItems(items: seq<Item>, key: string)
    ensures key in KeysOf(items) <==> exists x :: x in items && x.key == key
  {
    if key in KeysOf(items) {
      var i :| 0 <= i < |items| && items[i].key == key;
      assert items[i] in items;
    }
    if x :| x in items && x.key == key {
      var i :| 0 <= i < |items| && items[i] == x;
      assert items[i].key == key;
    }
  }

  lemma FirstFreeIs(s: State)
    ensures var at := FirstFree(s.items, KeysOf(s.inFlight));
      && (at < |s.items| <==> HasFreeItem(s)) && (at < |s.items| ==> IsFirstFree(s.items, s.inFlight, at))
    ensures forall i | IsFirstFree(s.items, s.inFlight, i) :: i == FirstFree(s.items, KeysOf(s.inFlight))
  {
    var at := FirstFree(s.items, KeysOf(s.inFlight));
    forall key ensures key in KeysOf(s.inFlight) <==> exists x :: x in s.inFlight && x.key == key {
      KeysAreOfItems(s.inFlight, key);
    }
    if at < |s.items| { assert IsFirstFree(s.items, s.inFlight, at); }
    forall i: nat | IsFirstFree(s.items, s.inFlight, i) ensures i == at {
      assert i >= at by { assert forall j | 0 <= j < at :: s.items[j].key in KeysOf(s.inFlight); }
    }
  }

  // ---- what each step waits for --------------------------------------------------

  /** The dispatcher always has just one thing to do, until it is aborted. */
  lemma NextStepIs(s: State, n: nat)
    ensures Enabled(s, Register, n) <==> s.phase == Top
    ensures Enabled(s, PopOne, n) <==> s.phase == Filling && |s.inFlight| < n && HasFreeItem(s)
    ensures Enabled(s, StopFilling, n) <==> s.phase == Filling && !(|s.inFlight| < n && HasFreeItem(s))
    ensures forall finished :: Enabled(s, Poll(finished), n) <==>
      s.phase == Waiting && forall key | key in finished :: exists x :: x in s.inFlight && x.key == key
    ensures Enabled(s, Abort, n) <==> s.phase == Waiting
    ensures forall item :: Enabled(s, Append(item), n)
  {
    FirstFreeIs(s);
    forall key ensures key in KeysOf(s.inFlight) <==> exists x :: x in s.inFlight && x.key == key {
      KeysAreOfItems(s.inFlight, key);
    }
  }

  /** Starting an item takes the first free one out of the queue and leaves the rest as it stood. */
  lemma PopStartsFirstFree(s: State, n: nat, i: nat)
    requires Enabled(s, PopOne, n) && IsFirstFree(s.items, s.inFlight, i)
    ensures var s' := Step(s, PopOne, n);
      && s'.starts == s.starts + [s.items[i]] && s'.inFlight == s.inFlight + [s.items[i]]
      && s'.items == s.items[..i] + s.items[i + 1..] && s'.phase == Filling
  {
    FirstFreeIs(s);
  }

  // ---- what ends the wait --------------------------------------------------------

  /** A poll ends the wait exactly when a task has finished or a notification has come. */
  lemma PollEndsWaitIff(states: seq<State>, acts: seq<Action>, n: nat, k: nat, finished: set<string>)
    requires IsRun(states, acts, n) && k < |acts| && acts[k] == Poll(finished)
    ensures states[k + 1].phase == Top <==> finished != {} || states[k].arrival == Fired
    ensures states[k + 1].phase == Top || states[k + 1] == states[k]
    ensures forall x :: x in states[k + 1].inFlight <==> x in states[k].inFlight && x.key !in finished
    ensures states[k + 1].items == states[k].items && states[k + 1].starts == states[k].starts
    ensures states[k + 1].permit == states[k].permit
    ensures states[k + 1].arrival ==
      if finished == {} && states[k].arrival == Fired then Unarmed else states[k].arrival
  {
    RunKeepsInv(states, acts, n, k);
    var s := states[k];
    assert Enabled(s, acts[k], n);
    UnfinishedKeeps(s.inFlight, finished);
    UnfinishedAre(s.inFlight, finished);
    if finished != {} {
      var key :| key in finished;
      assert key in KeysOf(s.inFlight) && key !in KeysOf(Unfinished(s.inFlight, finished));
    } else {
      NothingFinished(s.inFlight);
    }
  }

  lemma {:induction false} UnfinishedAre(items: seq<Item>, finished: set<string>)
    ensures forall x :: x in Unfinished(items, finished) <==> x in items && x.key !in finished
  {
    if items != [] {
      UnfinishedAre(items[1..], finished);
      assert items == [items[0]] + items[1..];
    }
  }

  lemma {:induction false} NothingFinished(items: seq<Item>)
    ensures Unfinished(items, {}) == items
  {
    if items != [] {
      NothingFinished(items[1..]);
      assert items == [items[0]] + items[1..];
    }
  }

  // ---- notifications ----------------------------------------------------------------

  /** A poll that wakes for a notification alone, and so uses it up. */
  predicate UsesNotification(states: seq<State>, acts: seq<Action>, m: nat)
    requires m < |acts| && m + 1 < |states|
  {
    acts[m] == Poll({}) && states[m + 1].phase == Top
  }

  predicate Pending(s: State) { s.permit || s.arrival == Fired }

  function Tokens(s: State): nat { (if s.permit then 1 else 0) + if s.arrival == Fired then 1 else 0 }

  /** A notification sent at step m, and not used up by step k, is still there. */
  lemma {:induction false} NotificationStays(states: seq<State>, acts: seq<Action>, n: nat, m: nat, k: nat)
    requires IsRun(states, acts, n) && m < k < |states| && acts[m] == Notify
    requires forall x | m < x < k :: !UsesNotification(states, acts, x)
    ensures Pending(states[k])
    decreases k
  {
    assert Enabled(states[k - 1], acts[k - 1], n);
    if m + 1 < k {
      NotificationStays(states, acts, n, m, k - 1);
      assert !UsesNotification(states, acts, k - 1);
      if acts[k - 1].Poll? { PollEndsWaitIff(states, acts, n, k - 1, acts[k - 1].finished); }
    }
  }

  /** How many polls have used up a notification by step k. */
  function Used(states: seq<State>, acts: seq<Action>, k: nat): nat
    requires k <= |acts| && k < |states|
  {
    if k == 0 then 0 else Used(states, acts, k - 1) + if UsesNotification(states, acts, k - 1) then 1 else 0
  }

  /** No wake-up for nothing: what was used up and what is still there was all sent. */
  lemma {:induction false} WakesArePaid(states: seq<State>, acts: seq<Action>, n: nat, k: nat)
    requires IsRun(states, acts, n) && k < |states|
    ensures Used(states, acts, k) + Tokens(states[k]) <= Sent(acts, k)
    decreases k
  {
    if k > 0 {
      WakesArePaid(states, acts, n, k - 1);
      assert Enabled(states[k - 1], acts[k - 1], n);
      if acts[k - 1].Poll? { PollEndsWaitIff(states, acts, n, k - 1, acts[k - 1].finished); }
    }
  }

  /** How many notifications the producers have sent by step k. */
  function Sent(acts: seq<Action>, k: nat): nat
    requires k <= |acts|
  {
    if k == 0 then 0 else Sent(acts, k - 1) + if acts[k - 1] == Notify then 1 else 0
  }

  /** Every put is notified of once: at every moment puts = notifications sent + still to be sent. */
  lemma {:induction false} EveryPutIsNotified(states: seq<State>, acts: seq<Action>, n: nat, k: nat)
    requires IsRun(states, acts, n) && k < |states|
    ensures |states[k].puts| == Sent(acts, k) + states[k].notifying
    ensures Enabled(states[k], Notify, n) <==> Sent(acts, k) < |states[k].puts|
    decreases k
  {
    if k > 0 {
      EveryPutIsNotified(states, acts, n, k - 1);
      assert Enabled(states[k - 1], acts[k - 1], n);
    }
  }

  // ---- the work gets done --------------------------------------------------------

  /** A new round starts with the notifications kept so far, and with nothing else changed. */
  lemma RegisterStartsRound(s: State, n: nat)
    requires Enabled(s, Register, n)
    ensures var s' := Step(s, Register, n);
      && s' == s.(permit := false, arrival := s'.arrival, phase := Filling)
      && (if Pending(s) then s'.arrival == Fired else s'.arrival == Armed)
  {
  }

  /** From the top of the loop, with a free slot and an item of a free session, the first such item is started. */
  lemma RoundStartsFirstFree(s: State, n: nat, i: nat)
    requires s.phase == Top && |s.inFlight| < n && IsFirstFree(s.items, s.inFlight, i)
    ensures Enabled(s, Register, n) && Enabled(Step(s, Register, n), PopOne, n)
    ensures var s' := Step(Step(s, Register, n), PopOne, n);
      s'.starts == s.starts + [s.items[i]] && s'.items == s.items[..i] + s.items[i + 1..]
  {
    RegisterStartsRound(s, n);
    var r := Step(s, Register, n);
    NextStepIs(s, n);
    NextStepIs(r, n);
    PopStartsFirstFree(r, n, i);
  }

  lemma Extended(states: seq<State>, acts: seq<Action>, n: nat, a: Action)
    returns (longer: seq<State>, acts': seq<Action>)
    requires IsRun(states, acts, n) && Enabled(states[|acts|], a, n)
    ensures IsRun(longer, acts', n) && acts' == acts + [a] && longer == states + [Step(states[|acts|], a, n)]
  {
    longer, acts' := states + [Step(states[|acts|], a, n)], acts + [a];
  }

  /** A dispatcher waiting with a free slot over an item of a free session has a notification, or is about to. */
  lemma WaitingIsNotified(states: seq<State>, acts: seq<Action>, n: nat, i: nat)
    requires IsRun(states, acts, n)
    requires states[|acts|].phase == Waiting && |states[|acts|].inFlight| < n
    requires IsFirstFree(states[|acts|].items, states[|acts|].inFlight, i)
    ensures states[|acts|].arrival == Fired || (states[|acts|].arrival == Armed && states[|acts|].notifying > 0)
  {
    var s := states[|acts|];
    RunKeepsInv(states, acts, n, |acts|);
    FirstFreeIs(s);
  }

  /**
   It never sleeps on work: from there on the run can go on to a state at the top of the loop, with the
   queue as it was, by the pending notification and one poll.
   */
  lemma WaitEnds(states: seq<State>, acts: seq<Action>, n: nat, i: nat) returns (longer: seq<State>, acts': seq<Action>)
    requires IsRun(states, acts, n)
    requires states[|acts|].phase == Waiting && |states[|acts|].inFlight| < n
    requires IsFirstFree(states[|acts|].items, states[|acts|].inFlight, i)
    ensures IsRun(longer, acts', n) && (acts' == acts + [Notify] + [Poll({})] || acts' == acts + [Poll({})])
    ensures var s, s' := states[|acts|], longer[|acts'|];
      s'.phase == Top && s'.items == s.items && s'.inFlight == s.inFlight && s'.starts == s.starts
  {
    WaitingIsNotified(states, acts, n, i);
    longer, acts' := states, acts;
    if states[|acts|].arrival != Fired {
      EveryPutIsNotified(states, acts, n, |acts|);
      longer, acts' := Extended(longer, acts', n, Notify);
    }
    var s := longer[|acts'|];
    NextStepIs(s, n);
    NothingFinished(s.inFlight);
    longer, acts' := Extended(longer, acts', n, Poll({}));
    PollEndsWaitIff(longer, acts', n, |acts'| - 1, {});
  }

  /** And there the first such item is started. */
  lemma WaitingWorkIsStarted(states: seq<State>, acts: seq<Action>, n: nat, i: nat)
    returns (longer: seq<State>, acts': seq<Action>)
    requires IsRun(states, acts, n)
    requires states[|acts|].phase == Waiting && |states[|acts|].inFlight| < n
    requires IsFirstFree(states[|acts|].items, states[|acts|].inFlight, i)
    ensures IsRun(longer, acts', n) && |acts| + 3 <= |acts'| <= |acts| + 4 && acts <= acts'
    ensures longer[|acts'|].starts == states[|acts|].starts + [states[|acts|].items[i]]
  {
    var s := states[|acts|];
    longer, acts' := WaitEnds(states, acts, n, i);
    var top := longer[|acts'|];
    RoundStartsFirstFree(top, n, i);
    longer, acts' := Extended(longer, acts', n, Register);
    longer, acts' := Extended(longer, acts', n, PopOne);
  }

  /** When nothing more can be started the dispatcher waits, without having touched the queue. */
  lemma StopFillingWaits(s: State, n: nat)
    requires s.phase == Filling && !(|s.inFlight| < n && HasFreeItem(s))
    ensures Enabled(s, StopFilling, n) && Step(s, StopFilling, n) == s.(phase := Waiting)
  {
    NextStepIs(s, n);
  }
}
