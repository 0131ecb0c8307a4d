/**
 The dispatch queue and the parallel dispatcher: one session at a time, at most n tasks in flight
 (core/crates/control/src/queue.rs and `dispatch_loop_parallel` in dispatch.rs).
 */
module DispatchQueues {
  import opened Texts

  /** A queued task and the session it belongs to. */
  datatype Item = Item(id: string, key: string)

  /** The first position whose session is free; |items| when there is none. */
  function FirstFree(items: seq<Item>, busy: set<string>): (at: nat)
    ensures at <= |items|
    ensures forall i | 0 <= i < at :: items[i].key in busy
    ensures at < |items| ==> items[at].key !in busy
  {
    if items == [] || items[0].key !in busy then 0 else 1 + FirstFree(items[1..], busy)
  }

  function Without(items: seq<Item>, at: nat): seq<Item>
    requires at < |items|
  {
    items[..at] + items[at + 1..]
  }

  class DispatchQueue {
    var items: seq<Item>
    var unfinished: nat

    constructor ()
      ensures items == [] && unfinished == 0
    {
      items, unfinished := [], 0;
    }

    method PutKeyed(item: Item)
      modifies this
      ensures items == old(items) + [item] && unfinished == old(unfinished) + 1
    {
      items := items + [item];
      unfinished := unfinished + 1;
    }

    /** Takes the first item of a free session and leaves the order of the rest alone. */
    method TryPopWhere(busy: set<string>) returns (popped: Option<Item>)
      modifies this
      ensures unfinished == old(unfinished)
      ensures var at := FirstFree(old(items), busy);
        if at == |old(items)| then popped == None && items == old(items)
        else popped == Some(old(items)[at]) && items == Without(old(items), at)
    {
      var at := 0;
      while at < |items| && items[at].key in busy
        invariant at <= |items|
        invariant FirstFree(items, busy) == at + FirstFree(items[at..], busy)
      {
        assert items[at..][1..] == items[at + 1..];
        at := at + 1;
      }
      if at == |items| {
        popped := None;
      } else {
        popped := Some(items[at]);
        items := items[..at] + items[at + 1..];
      }
    }

    method TaskDone() returns (idle: bool)
      modifies this
      ensures items == old(items)
      ensures unfinished == if old(unfinished) > 0 then old(unfinished) - 1 else 0
      ensures idle <==> unfinished == 0
    {
      unfinished := if unfinished > 0 then unfinished - 1 else 0;
      idle := unfinished == 0;
    }

    /** The inner loop of the dispatcher: start free items until n are in flight or none is free. */
    method FillSlots(inFlight: seq<Item>, n: nat) returns (filled: seq<Item>)
      requires |inFlight| <= n && DistinctKeys(inFlight)
      modifies this
      ensures (items, filled) == Fill(old(items), inFlight, n)
      ensures unfinished == old(unfinished)
    {
      filled := inFlight;
      while |filled| < n
        invariant |filled| <= n && DistinctKeys(filled)
        invariant unfinished == old(unfinished)
        invariant Fill(items, filled, n) == Fill(old(items), inFlight, n)
        decreases n - |filled|
      {
        var popped := TryPopWhere(KeysOf(filled));
        if popped == None { break; }
        filled := filled + [popped.value];
      }
    }
  }

  function KeysOf(items: seq<Item>): set<string> {
    set i | 0 <= i < |items| :: items[i].key
  }

  ghost predicate DistinctKeys(items: seq<Item>) {
    forall i, j | 0 <= i < j < |items| :: items[i].key != items[j].key
  }

  ghost function Fill(items: seq<Item>, inFlight: seq<Item>, n: nat): (r: (seq<Item>, seq<Item>))
    requires |inFlight| <= n && DistinctKeys(inFlight)
    ensures |r.1| <= n && DistinctKeys(r.1)
    ensures |r.0| + |r.1| == |items| + |inFlight|
    ensures |r.1| == n || forall i | 0 <= i < |r.0| :: r.0[i].key in KeysOf(r.1)
    decreases n - |inFlight|
  {
    var at := FirstFree(items, KeysOf(inFlight));
    if |inFlight| == n || at == |items| then (items, inFlight)
    else
      assert DistinctKeys(inFlight + [items[at]]);
      Fill(Without(items, at), inFlight + [items[at]], n)
  }
}

module ParallelDispatch {
  import opened DispatchQueues

  datatype Phase = Top | Filling | Waiting | Aborted

  /** The dispatcher's registration with the queue's notification. */
  datatype Arrival = Unarmed | Armed | Fired

  datatype State = State(
    items: seq<Item>,
    unfinished: nat,
    permit: bool,             // a notification kept because nobody was registered
    arrival: Arrival,
    notifying: nat,           // producers between appending and notifying
    inFlight: seq<Item>,
    phase: Phase,
    puts: seq<Item>,          // everything ever put, in order
    starts: seq<Item>,        // everything ever started, in order
    done: nat)

  datatype Action =
    | Append(item: Item)
    | Notify
    | Register                       // a fresh registration, enabled; a fired one hands its permit on
    | PopOne
    | StopFilling
    | Poll(finished: set<string>)    // sessions whose future completes in this poll
    | Abort

  function Init(): State { State([], 0, false, Unarmed, 0, [], Top, [], [], 0) }

  predicate Enabled(s: State, a: Action, n: nat) {
    match a
    case Append(_) => true
    case Notify => s.notifying > 0
    case Register => s.phase == Top
    case PopOne => s.phase == Filling && |s.inFlight| < n && FirstFree(s.items, KeysOf(s.inFlight)) < |s.items|
    case StopFilling => s.phase == Filling && (|s.inFlight| >= n || FirstFree(s.items, KeysOf(s.inFlight)) == |s.items|)
    case Poll(finished) => s.phase == Waiting && finished <= KeysOf(s.inFlight)
    case Abort => s.phase == Waiting  // the loop's only await
  }

  function Unfinished(inFlight: seq<Item>, finished: set<string>): seq<Item> {
    if inFlight == [] then []
    else if inFlight[0].key in finished then Unfinished(inFlight[1..], finished)
    else [inFlight[0]] + Unfinished(inFlight[1..], finished)
  }

  /** `task_done` k times. */
  function Minus(unfinished: nat, k: nat): nat {
    if k == 0 then unfinished else Minus(if unfinished > 0 then unfinished - 1 else 0, k - 1)
  }

  function Step(s: State, a: Action, n: nat): State
    requires Enabled(s, a, n)
  {
    match a
    case Append(item) =>
      s.(items := s.items + [item], unfinished := s.unfinished + 1, puts := s.puts + [item],
         notifying := s.notifying + 1)
    case Notify =>
      if s.arrival == Armed then s.(notifying := s.notifying - 1, arrival := Fired)
      else s.(notifying := s.notifying - 1, permit := true)
    case Register =>
      var permit := s.permit || s.arrival == Fired;
      s.(permit := false, arrival := if permit then Fired else Armed, phase := Filling)
    case PopOne =>
      var at := FirstFree(s.items, KeysOf(s.inFlight));
      var item := s.items[at];
      s.(items := Without(s.items, at), inFlight := s.inFlight + [item], starts := s.starts + [item])
    case StopFilling => s.(phase := Waiting)
    case Poll(finished) =>
      var left := Unfinished(s.inFlight, finished);
      var ended := |s.inFlight| - |left|;
      if ended > 0 then
        s.(inFlight := left, done := s.done + ended, unfinished := Minus(s.unfinished, ended), phase := Top)
      else if s.arrival == Fired then s.(arrival := Unarmed, phase := Top)
      else s
    case Abort =>
      s.(inFlight := [], done := s.done + |s.inFlight|, unfinished := Minus(s.unfinished, |s.inFlight|),
         phase := Aborted)
  }

  ghost predicate IsRun(states: seq<State>, acts: seq<Action>, n: nat) {
    && |states| == |acts| + 1 && states[0] == Init()
    && forall i | 0 <= i < |acts| :: Enabled(states[i], acts[i], n) && states[i + 1] == Step(states[i], acts[i], n)
  }

  /** The items of one session, in order. */
  function Session(items: seq<Item>, key: string): seq<Item> {
    if items == [] then []
    else (if items[0].key == key then [items[0]] else []) + Session(items[1..], key)
  }

  /** Started and queued items of a session are exactly those put, in the order they were put. */
  ghost predicate InOrder(s: State) {
    forall key :: Session(s.starts, key) + Session(s.items, key) == Session(s.puts, key)
  }

  /** Nothing that could run is forgotten while the dispatcher waits. */
  ghost predicate NotStuck(s: State, n: nat) {
    s.phase == Waiting ==>
      || |s.inFlight| == n
      || s.arrival == Fired || s.notifying > 0
      || forall i | 0 <= i < |s.items| :: s.items[i].key in KeysOf(s.inFlight)
  }

  ghost predicate Inv(s: State, n: nat) {
    && |s.inFlight| <= n && DistinctKeys(s.inFlight)
    && s.unfinished == |s.items| + |s.inFlight|
    && |s.puts| == |s.items| + |s.inFlight| + s.done
    && (s.phase == Filling || s.phase == Waiting ==> s.arrival != Unarmed)
    && NotStuck(s, n)
    && InOrder(s)
  }

  lemma {:induction false} SessionOfAppend(a: seq<Item>, b: seq<Item>, key: string)
    ensures Session(a + b, key) == Session(a, key) + Session(b, key)
  {
    if a == [] {
      assert a + b == b;
    } else {
      var head := if a[0].key == key then [a[0]] else [];
      assert (a + b)[0] == a[0] && (a + b)[1..] == a[1..] + b;
      SessionOfAppend(a[1..], b, key);
      assert head + (Session(a[1..], key) + Session(b, key)) == (head + Session(a[1..], key)) + Session(b, key);
    }
  }

  lemma {:induction false} SessionOfBusy(a: seq<Item>, key: string)
    requires forall i | 0 <= i < |a| :: a[i].key != key
    ensures Session(a, key) == []
  {
    if a != [] { SessionOfBusy(a[1..], key); }
  }

  /** Taking the first free item moves it from the queue to the started ones, for its own session too. */
  lemma PopKeepsSession(items: seq<Item>, at: nat, busy: set<string>, key: string)
    requires at == FirstFree(items, busy) && at < |items|
    ensures Session([items[at]], key) + Session(Without(items, at), key) == Session(items, key)
  {
    var before, item, after := items[..at], items[at], items[at + 1..];
    assert items == before + ([item] + after);
    SessionOfAppend(before, [item] + after, key);
    SessionOfAppend([item], after, key);
    SessionOfAppend(before, after, key);
    var a, b, c := Session(before, key), Session([item], key), Session(after, key);
    if item.key == key {
      SessionOfBusy(before, key);
      assert [] + c == c && [] + (b + c) == b + c;
    } else {
      SessionOfBusy([item], key);
      assert [] + (a + c) == a + c && [] + c == c;
    }
  }

  lemma {:induction false} UnfinishedKeeps(inFlight: seq<Item>, finished: set<string>)
    requires DistinctKeys(inFlight)
    ensures var left := Unfinished(inFlight, finished);
      && |left| <= |inFlight| && DistinctKeys(left)
      && KeysOf(left) == KeysOf(inFlight) - finished
      && (|left| == |inFlight| ==> left == inFlight)
  {
    if inFlight != [] {
      var tail := inFlight[1..];
      UnfinishedKeeps(tail, finished);
      assert inFlight == [inFlight[0]] + tail;
      KeysOfCons(inFlight[0], tail);
      assert inFlight[0].key !in KeysOf(tail);
      var rest := Unfinished(tail, finished);
      KeysOfCons(inFlight[0], rest);
      if inFlight[0].key !in finished {
        var left := [inFlight[0]] + rest;
        forall i, j | 0 <= i < j < |left| ensures left[i].key != left[j].key {
          if i == 0 { assert left[j] == rest[j - 1]; assert left[j].key in KeysOf(rest); }
        }
      }
    }
  }

  lemma KeysOfCons(item: Item, items: seq<Item>)
    ensures KeysOf([item] + items) == {item.key} + KeysOf(items)
  {
    var all := [item] + items;
    forall k | k in {item.key} + KeysOf(items) ensures k in KeysOf(all) {
      if k == item.key {
        assert all[0].key == k;
      } else {
        var i :| 0 <= i < |items| && items[i].key == k;
        assert all[i + 1].key == k;
      }
    }
  }

  lemma {:induction false} MinusIsExact(unfinished: nat, k: nat)
    requires k <= unfinished
    ensures Minus(unfinished, k) == unfinished - k
    decreases k
  {
    if k > 0 { MinusIsExact(unfinished - 1, k - 1); }
  }

  lemma StepKeepsInv(s: State, a: Action, n: nat)
    requires Inv(s, n) && Enabled(s, a, n)
    ensures Inv(Step(s, a, n), n)
  {
    match a
    case Append(item) => AppendKeepsOrder(s, item, n);
    case PopOne => PopKeepsInv(s, n);
    case Poll(finished) =>
      UnfinishedKeeps(s.inFlight, finished);
      MinusIsExact(s.unfinished, |s.inFlight| - |Unfinished(s.inFlight, finished)|);
    case Abort => MinusIsExact(s.unfinished, |s.inFlight|);
    case _ =>
  }

  lemma AppendKeepsOrder(s: State, item: Item, n: nat)
    requires Inv(s, n)
    ensures InOrder(Step(s, Append(item), n))
  {
    forall key
      ensures var s' := Step(s, Append(item), n);
        Session(s'.starts, key) + Session(s'.items, key) == Session(s'.puts, key)
    {
      SessionOfAppend(s.items, [item], key);
      SessionOfAppend(s.puts, [item], key);
      assert Session(s.starts, key) + Session(s.items, key) == Session(s.puts, key);
    }
  }

  lemma PopKeepsInv(s: State, n: nat)
    requires Inv(s, n) && Enabled(s, PopOne, n)
    ensures Inv(Step(s, PopOne, n), n)
  {
    var s', at := Step(s, PopOne, n), FirstFree(s.items, KeysOf(s.inFlight));
    assert forall i | 0 <= i < |s.inFlight| :: s.inFlight[i].key in KeysOf(s.inFlight);
    forall key ensures Session(s'.starts, key) + Session(s'.items, key) == Session(s'.puts, key) {
      SessionOfAppend(s.starts, [s.items[at]], key);
      PopKeepsSession(s.items, at, KeysOf(s.inFlight), key);
      assert Session(s.starts, key) + Session(s.items, key) == Session(s.puts, key);
    }
  }

  lemma {:induction false} RunKeepsInv(states: seq<State>, acts: seq<Action>, n: nat, k: nat)
    requires IsRun(states, acts, n) && k < |states|
    ensures Inv(states[k], n)
    decreases k
  {
    if k > 0 {
      RunKeepsInv(states, acts, n, k - 1);
      StepKeepsInv(states[k - 1], acts[k - 1], n);
    }
  }

  // ---- what holds over whole runs ------------------------------------------

  lemma SerialPerSessionBoundedAcross(states: seq<State>, acts: seq<Action>, n: nat, k: nat)
    requires IsRun(states, acts, n) && k < |states|
    ensures |states[k].inFlight| <= n && DistinctKeys(states[k].inFlight)
    ensures k < |acts| && acts[k] == PopOne ==>
      states[k + 1].starts[|states[k].starts|].key !in KeysOf(states[k].inFlight)
  {
    RunKeepsInv(states, acts, n, k);
  }

  /** The i-th task a session starts is the i-th task put for it. */
  lemma StartsInPutOrder(states: seq<State>, acts: seq<Action>, n: nat, k: nat, key: string)
    requires IsRun(states, acts, n) && k < |states|
    ensures Session(states[k].starts, key) <= Session(states[k].puts, key)
    ensures states[k].items == [] ==> Session(states[k].starts, key) == Session(states[k].puts, key)
  {
    RunKeepsInv(states, acts, n, k);
    assert Session(states[k].starts, key) + Session(states[k].items, key) == Session(states[k].puts, key);
  }

  /** No wake-up is lost: waiting with a free slot and a queued item of a free session, a notification is pending. */
  lemma NeverSleepsOnWork(states: seq<State>, acts: seq<Action>, n: nat, k: nat, i: nat)
    requires IsRun(states, acts, n) && k < |states| && states[k].phase == Waiting
    requires i < |states[k].items| && states[k].items[i].key !in KeysOf(states[k].inFlight) && |states[k].inFlight| < n
    ensures states[k].arrival == Fired || states[k].notifying > 0
  {
    RunKeepsInv(states, acts, n, k);
  }

  /** puts = queued + in flight + done, after an abort as well, and zero unfinished means nothing is left. */
  lemma CompletionCountIsExact(states: seq<State>, acts: seq<Action>, n: nat, k: nat)
    requires IsRun(states, acts, n) && k < |states|
    ensures |states[k].puts| == |states[k].items| + |states[k].inFlight| + states[k].done
    ensures states[k].unfinished == 0 <==> states[k].items == [] && states[k].inFlight == []
    ensures k < |acts| && acts[k] == Abort ==> states[k + 1].unfinished == |states[k].items|
  {
    RunKeepsInv(states, acts, n, k);
    if k < |acts| { RunKeepsInv(states, acts, n, k + 1); }
  }
}
