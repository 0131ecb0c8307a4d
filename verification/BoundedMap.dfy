/**
 The bounded table of the WeCom adapter: insertion order, oldest evicted first, updating a key keeps
 its place (`boundedMap` in edge/internal/wecom/platform.go). The card table of the Feishu pacer is
 the same structure with another eviction test (`rememberCard` in edge/internal/feishu/outbound.go).
 */
module BoundedMaps {
  import opened Texts

  type Entries<V> = seq<(string, V)>

  ghost predicate DistinctKeys<V>(es: Entries<V>) {
    forall i, j | 0 <= i < j < |es| :: es[i].0 != es[j].0
  }

  /** The position of a key; |es| when it is absent. */
  function IndexOf<V>(es: Entries<V>, k: string): (i: nat)
    ensures i <= |es| && (i < |es| ==> es[i].0 == k)
    ensures forall j | 0 <= j < i :: es[j].0 != k
  {
    if es == [] || es[0].0 == k then 0 else 1 + IndexOf(es[1..], k)
  }

  function Upsert<V>(es: Entries<V>, k: string, v: V): Entries<V> {
    var i := IndexOf(es, k);
    if i < |es| then es[i := (k, v)] else es + [(k, v)]
  }

  /** The newest `cap` entries. */
  function Newest<V>(es: Entries<V>, cap: nat): Entries<V> {
    if |es| <= cap then es else es[|es| - cap..]
  }

  function Put<V>(es: Entries<V>, cap: nat, k: string, v: V): Entries<V> {
    Newest(Upsert(es, k, v), cap)
  }

  predicate HasKey<V>(es: Entries<V>, k: string) {
    IndexOf(es, k) < |es|
  }

  /**
   What a put leaves behind: at most `cap` entries; the key it put, unless nothing fits; every other
   entry in its old order, and only the oldest missing.
   */
  lemma PutKeepsNewest<V>(es: Entries<V>, cap: nat, k: string, v: V)
    requires DistinctKeys(es) && |es| <= cap
    ensures DistinctKeys(Put(es, cap, k, v)) && |Put(es, cap, k, v)| <= cap
    ensures cap > 0 ==> (k, v) in Put(es, cap, k, v)
    ensures HasKey(es, k) || |es| < cap ==> forall e | e in es && e.0 != k :: e in Put(es, cap, k, v)
    ensures !HasKey(es, k) && |es| == cap > 0 ==> Put(es, cap, k, v) == es[1..] + [(k, v)]
  {
    var up, i := Upsert(es, k, v), IndexOf(es, k);
    assert up[i] == (k, v);
    forall e | e in es && e.0 != k ensures e in up {
      var j :| 0 <= j < |es| && es[j] == e;
      assert up[j] == e;
    }
    if !HasKey(es, k) && |es| == cap > 0 { assert Newest(up, cap) == es[1..] + [(k, v)]; }
  }

  // ---- how long an entry stays -------------------------------------------------

  /** How many further puts the entry of k is sure to survive. */
  function Slack<V>(es: Entries<V>, cap: nat, k: string): int { cap - |es| + IndexOf(es, k) }

  function PutAll<V>(es: Entries<V>, cap: nat, puts: Entries<V>): Entries<V> {
    if puts == [] then es
    else Put(PutAll(es, cap, puts[..|puts| - 1]), cap, puts[|puts| - 1].0, puts[|puts| - 1].1)
  }

  /** The value last put for k, or the one it had. */
  function LastPut<V>(before: V, puts: Entries<V>, k: string): V {
    if puts == [] then before
    else if puts[|puts| - 1].0 == k then puts[|puts| - 1].1
    else LastPut(before, puts[..|puts| - 1], k)
  }

  lemma IndexIs<V>(es: Entries<V>, k: string, i: nat)
    requires DistinctKeys(es) && i < |es| && es[i].0 == k
    ensures IndexOf(es, k) == i
  {
  }

  /** One put costs the entry of k at most one place, and changes its value only when it is for k. */
  lemma PutCostsOne<V>(es: Entries<V>, cap: nat, k: string, k': string, v': V)
    requires DistinctKeys(es) && |es| <= cap && HasKey(es, k) && Slack(es, cap, k) > 0
    ensures var r := Put(es, cap, k', v');
      && DistinctKeys(r) && |r| <= cap && HasKey(r, k) && Slack(r, cap, k) >= Slack(es, cap, k) - 1
      && r[IndexOf(r, k)].1 == if k' == k then v' else es[IndexOf(es, k)].1
  {
    PutKeepsNewest(es, cap, k', v');
    if HasKey(es, k') || |es| < cap { RoomyPut(es, cap, k, k', v'); } else { EvictingPut(es, cap, k, k', v'); }
  }

  lemma RoomyPut<V>(es: Entries<V>, cap: nat, k: string, k': string, v': V)
    requires DistinctKeys(es) && |es| <= cap && HasKey(es, k) && (HasKey(es, k') || |es| < cap)
    requires DistinctKeys(Put(es, cap, k', v'))
    ensures var r := Put(es, cap, k', v');
      IndexOf(r, k) == IndexOf(es, k) < |r| && r[IndexOf(r, k)].1 == if k' == k then v' else es[IndexOf(es, k)].1
    ensures |Put(es, cap, k', v')| <= |es| + 1
  {
    var r, i, j := Put(es, cap, k', v'), IndexOf(es, k), IndexOf(es, k');
    assert r == Upsert(es, k', v');
    if k' != k && j < |es| { assert j != i; }
    assert r[i].0 == k;
    IndexIs(r, k, i);
  }

  lemma EvictingPut<V>(es: Entries<V>, cap: nat, k: string, k': string, v': V)
    requires DistinctKeys(es) && |es| == cap && HasKey(es, k) && !HasKey(es, k') && IndexOf(es, k) > 0
    requires DistinctKeys(Put(es, cap, k', v')) && Put(es, cap, k', v') == es[1..] + [(k', v')]
    ensures var r := Put(es, cap, k', v');
      IndexOf(r, k) == IndexOf(es, k) - 1 && r[IndexOf(r, k)] == es[IndexOf(es, k)] && |r| == |es|
  {
    var r, i := Put(es, cap, k', v'), IndexOf(es, k);
    assert r[i - 1] == es[i];
    IndexIs(r, k, i - 1);
  }

  /** An entry just added survives as many later puts as the table is long, less one, with the value last put for it. */
  lemma {:induction false} EntryStays<V>(es: Entries<V>, cap: nat, k: string, puts: Entries<V>)
    requires DistinctKeys(es) && |es| <= cap && HasKey(es, k) && |puts| <= Slack(es, cap, k)
    ensures var r := PutAll(es, cap, puts);
      && DistinctKeys(r) && |r| <= cap && HasKey(r, k) && Slack(r, cap, k) >= Slack(es, cap, k) - |puts|
      && r[IndexOf(r, k)].1 == LastPut(es[IndexOf(es, k)].1, puts, k)
  {
    if puts != [] {
      var front, last := puts[..|puts| - 1], puts[|puts| - 1];
      EntryStays(es, cap, k, front);
      PutCostsOne(PutAll(es, cap, front), cap, k, last.0, last.1);
    }
  }

  /** The slack of an entry just added. */
  lemma NewEntrySlack<V>(es: Entries<V>, cap: nat, k: string, v: V)
    requires DistinctKeys(es) && |es| <= cap && cap > 0 && !HasKey(es, k)
    ensures var r := Put(es, cap, k, v); HasKey(r, k) && Slack(r, cap, k) == cap - 1 && r[IndexOf(r, k)] == (k, v)
  {
    PutKeepsNewest(es, cap, k, v);
    var r := Put(es, cap, k, v);
    assert r[|r| - 1] == (k, v);
    IndexIs(r, k, |r| - 1);
  }

  class BoundedMap<V(0)> {
    const cap: nat
    var m: map<string, V>
    var order: seq<string>

    constructor (capacity: nat)
      ensures Valid() && View() == [] && cap == capacity
    {
      cap, m, order := capacity, map[], [];
    }

    ghost predicate Linked() reads this {
      && (forall i, j | 0 <= i < j < |order| :: order[i] != order[j])
      && (forall k :: k in m <==> k in order)
    }

    ghost predicate Valid() reads this { Linked() && |order| <= cap }

    ghost function View(): (es: Entries<V>)
      requires Linked()
      reads this
      ensures |es| == |order| && DistinctKeys(es)
    {
      seq(|order|, i requires 0 <= i < |order| && order[i] in m reads this => (order[i], m[order[i]]))
    }

    lemma SizeOfTable()
      requires Linked()
      ensures |m| == |order|
    {
      assert m.Keys == set k | k in order;
      CountDistinct(order);
    }

    method Get(k: string) returns (found: Option<V>)
      requires Valid()
      ensures found == if HasKey(View(), k) then Some(View()[IndexOf(View(), k)].1) else None
    {
      found := if k in m then Some(m[k]) else None;
      PositionOf(k);
    }

    lemma PositionOf(k: string)
      requires Linked()
      ensures HasKey(View(), k) <==> k in m
      ensures HasKey(View(), k) ==> order[IndexOf(View(), k)] == k
    {
      if k in order {
        var i :| 0 <= i < |order| && order[i] == k;
        assert View()[i].0 == k;
      }
      var j := IndexOf(View(), k);
      if j < |order| { assert View()[j].0 == order[j]; }
    }

    method PutEntry(k: string, v: V)
      requires Valid()
      modifies this
      ensures Valid() && View() == Put(old(View()), cap, k, v)
    {
      PositionOf(k);
      if k !in m { order := order + [k]; }
      m := m[k := v];
      assert View() == Upsert(old(View()), k, v);
      EvictOldest();
    }

    method EvictOne()
      requires Linked() && |order| > 0
      modifies this
      ensures Linked() && View() == old(View())[1..]
    {
      var oldest := order[0];
      order := order[1..];
      m := m - {oldest};
    }

    method EvictOldest()
      requires Linked()
      modifies this
      ensures Valid() && View() == Newest(old(View()), cap)
    {
      SizeOfTable();
      ghost var all := View();
      while |m| > cap && |order| > 0
        invariant Linked() && |m| == |order| <= |all|
        invariant View() == all[|all| - |order|..]
        invariant |order| >= cap || |order| == |all|
        decreases |order|
      {
        EvictOne();
        SizeOfTable();
      }
    }

    /** Visits the entries oldest first. */
    method Each() returns (visited: Entries<V>)
      requires Valid()
      ensures visited == View()
    {
      visited := [];
      for i := 0 to |order|
        invariant visited == View()[..i]
      {
        if order[i] in m { visited := visited + [(order[i], m[order[i]])]; }
      }
    }
  }

  lemma {:induction false} CountDistinct(ks: seq<string>)
    requires forall i, j | 0 <= i < j < |ks| :: ks[i] != ks[j]
    ensures |set k | k in ks| == |ks|
  {
    if ks != [] {
      var tail := ks[1..];
      CountDistinct(tail);
      assert (set k | k in ks) == {ks[0]} + set k | k in tail by { assert ks == [ks[0]] + tail; }
      assert ks[0] !in tail;
    }
  }
}
