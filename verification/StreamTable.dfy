/**
 Which streams the table holds and which the sweep visits, read off the steps of a run alone
 (edge/internal/wecom/stream.go).
 */
module StreamTable {
  import opened Texts
  import opened BoundedMaps
  import opened WecomStreamCells
  import opened WecomStreams

  /** The streams entered into the table among the first k steps, in order. */
  function EnteredIds(acts: seq<Action>, k: nat): seq<string>
    requires k <= |acts|
  {
    if k == 0 then [] else EnteredIds(acts, k - 1) + if acts[k - 1].Enter? then [acts[k - 1].id] else []
  }

  ghost predicate Opened(acts: seq<Action>, k: nat, id: string)
    requires k <= |acts|
  {
    exists j :: 0 <= j < k && acts[j].Open? && acts[j].id == id && acts[j].ok
  }

  lemma OpenedStep(acts: seq<Action>, k: nat, id: string)
    requires 0 < k <= |acts|
    ensures Opened(acts, k, id) <==>
      Opened(acts, k - 1, id) || (acts[k - 1].Open? && acts[k - 1].id == id && acts[k - 1].ok)
  {
  }

  lemma OpeningStep(s: State, a: Action, id: string)
    requires Enabled(s, a)
    ensures id in Step(s, a).opening <==>
      (id in s.opening && a != Enter(id)) || (a.Open? && a.id == id && a.ok)
    ensures id in Step(s, a).used <==> id in s.used || (a.Open? && a.id == id)
  {
  }

  /** A stream waits to be entered exactly from an opening whose send returned nil until it is entered, once. */
  lemma {:induction false} WaitsToEnterIff(states: seq<State>, acts: seq<Action>, k: nat, id: string)
    requires IsRun(states, acts) && k < |states|
    ensures Enabled(states[k], Enter(id)) <==> Opened(acts, k, id) && id !in EnteredIds(acts, k)
    ensures Opened(acts, k, id) ==> id in states[k].used
    ensures id in EnteredIds(acts, k) ==> Opened(acts, k, id)
    decreases k
  {
    if k > 0 {
      WaitsToEnterIff(states, acts, k - 1, id);
      assert Enabled(states[k - 1], acts[k - 1]) && states[k] == Step(states[k - 1], acts[k - 1]);
      OpeningStep(states[k - 1], acts[k - 1], id);
      OpenedStep(acts, k, id);
    }
  }

  function Last(ids: seq<string>, n: nat): seq<string> { if |ids| <= n then ids else ids[|ids| - n..] }

  lemma KeyInIds(es: Entries<()>, id: string)
    ensures HasKey(es, id) ==> id in Ids(es)
  {
    if HasKey(es, id) { assert Ids(es)[IndexOf(es, id)] == id; }
  }

  /** No stream is entered twice. */
  lemma {:induction false} EnteredOnce(states: seq<State>, acts: seq<Action>, k: nat)
    requires IsRun(states, acts) && k < |states|
    ensures forall i, j | 0 <= i < j < |EnteredIds(acts, k)| :: EnteredIds(acts, k)[i] != EnteredIds(acts, k)[j]
    decreases k
  {
    if k > 0 {
      EnteredOnce(states, acts, k - 1);
      assert Enabled(states[k - 1], acts[k - 1]);
      if acts[k - 1].Enter? { WaitsToEnterIff(states, acts, k - 1, acts[k - 1].id); }
    }
  }

  lemma AbsentPut(es: Entries<()>, id: string, entered: seq<string>)
    requires Ids(es) == Last(entered, TABLE_CAP) && id !in entered
    ensures Ids(Put(es, TABLE_CAP, id, ())) == Last(entered + [id], TABLE_CAP)
  {
    KeyInIds(es, id);
    var up := es + [(id, ())];
    assert Ids(up) == Ids(es) + [id];
    assert Ids(Newest(up, TABLE_CAP)) == Last(Ids(up), TABLE_CAP);
    assert Last(Last(entered, TABLE_CAP) + [id], TABLE_CAP) == Last(entered + [id], TABLE_CAP);
  }

  lemma TableStep(s: State, a: Action)
    requires Enabled(s, a)
    ensures Step(s, a).table == if a.Enter? then Put(s.table, TABLE_CAP, a.id, ()) else s.table
  {
  }

  /** The table holds the 4096 streams entered last, in the order they were. */
  lemma {:induction false} TableIsNewest(states: seq<State>, acts: seq<Action>, k: nat)
    requires IsRun(states, acts) && k < |states|
    ensures Ids(states[k].table) == Last(EnteredIds(acts, k), 4096)
    decreases k
  {
    if k > 0 {
      TableIsNewest(states, acts, k - 1);
      var a, entered := acts[k - 1], EnteredIds(acts, k - 1);
      assert Enabled(states[k - 1], a) && states[k] == Step(states[k - 1], a);
      TableStep(states[k - 1], a);
      if a.Enter? {
        WaitsToEnterIff(states, acts, k - 1, a.id);
        AbsentPut(states[k - 1].table, a.id, entered);
      } else {
        assert entered + [] == entered;
      }
    }
  }

  // ---- the sweep ----------------------------------------------------------------------------

  /** The streams visited after step i and before step k, in order. */
  function VisitedIds(states: seq<State>, acts: seq<Action>, i: nat, k: nat): seq<string>
    requires i < k <= |acts| && k < |states|
  {
    if k == i + 1 then [] else
    var w := states[k - 1].sweeper;
    VisitedIds(states, acts, i, k - 1)
    + if acts[k - 1].SweepNext? && w.Sweeping? && w.todo != [] then [w.todo[0]] else []
  }

  lemma VisitStep(s: State, a: Action)
    requires Enabled(s, a) && s.sweeper.Sweeping? && a != EndSweep
    ensures var w, w' := s.sweeper, Step(s, a).sweeper;
      w'.Sweeping? && (if a.SweepNext? then w.todo != [] && w.todo == [w.todo[0]] + w'.todo else w'.todo == w.todo)
  {
  }

  lemma {:induction false} VisitedAndToDo(states: seq<State>, acts: seq<Action>, i: nat, k: nat, now: int)
    requires IsRun(states, acts) && SweepRuns(acts, i, k, now)
    ensures states[k].sweeper.Sweeping?
    ensures VisitedIds(states, acts, i, k) + states[k].sweeper.todo == Ids(states[i].table)
    decreases k
  {
    assert Enabled(states[k - 1], acts[k - 1]) && states[k] == Step(states[k - 1], acts[k - 1]);
    if i + 1 < k {
      VisitedAndToDo(states, acts, i, k - 1, now);
      VisitStep(states[k - 1], acts[k - 1]);
      var visited, w := VisitedIds(states, acts, i, k - 1), states[k - 1].sweeper;
      if acts[k - 1].SweepNext? {
        Assoc(visited, [w.todo[0]], states[k].sweeper.todo);
      } else {
        assert visited + [] == visited;
      }
    }
  }

  /** A sweep that ends has visited the streams the table held at its start, each once, oldest first. */
  lemma SweepVisitsEach(states: seq<State>, acts: seq<Action>, i: nat, k: nat, now: int)
    requires IsRun(states, acts) && k < |acts| && SweepRuns(acts, i, k, now) && acts[k] == EndSweep
    ensures VisitedIds(states, acts, i, k) == Ids(states[i].table) == Last(EnteredIds(acts, i), 4096)
    ensures Enabled(states[k + 1], BeginSweep(now))
  {
    VisitedAndToDo(states, acts, i, k, now);
    assert Enabled(states[k], acts[k]) && states[k + 1] == Step(states[k], acts[k]);
    var visited := VisitedIds(states, acts, i, k);
    assert visited + [] == visited;
    TableIsNewest(states, acts, i);
  }
}
