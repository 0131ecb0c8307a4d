/** Which active task a follow-up is queued for (`steer_target` in core/crates/control/src/dispatch.rs). */
module SteerTargets {
  import opened Texts
  import opened CanonicalJson
  import CanonicalForm

  datatype Candidate = Candidate(id: string, createdAt: int)

  /** Order by creation time, then by id. */
  predicate Older(a: Candidate, b: Candidate) {
    a.createdAt < b.createdAt || (a.createdAt == b.createdAt && Before(a.id, b.id))
  }

  function Those(active: seq<Candidate>, ids: set<string>): (r: seq<Candidate>)
    ensures forall c :: c in r <==> c in active && c.id in ids
  {
    if active == [] then [] else
    assert forall c :: c in active <==> c == active[0] || c in active[1..] by {
      assert active == [active[0]] + active[1..];
    }
    (if active[0].id in ids then [active[0]] else []) + Those(active[1..], ids)
  }

  /** The last maximum, as `max_by` picks it. */
  function Newest(pool: seq<Candidate>): (r: Candidate)
    requires pool != []
    ensures r in pool
    ensures forall c | c in pool :: !Older(r, c)
  {
    if |pool| == 1 then OlderIsOrder(pool[0], pool[0], pool[0]); pool[0] else
    var r := Newest(pool[1..]);
    assert forall c :: c in pool <==> c == pool[0] || c in pool[1..] by { assert pool == [pool[0]] + pool[1..]; }
    if Older(r, pool[0]) then
      assert forall c | c in pool :: !Older(pool[0], c) by {
        forall c | c in pool ensures !Older(pool[0], c) { OlderIsOrder(pool[0], c, r); OlderIsOrder(r, pool[0], c); }
      }
      pool[0]
    else r
  }

  lemma OlderIsOrder(a: Candidate, b: Candidate, c: Candidate)
    ensures !(Older(a, b) && Older(b, a)) && (Older(a, b) || Older(b, a) || a == b)
    ensures Older(a, b) && Older(b, c) ==> Older(a, c)
  {
    BeforeIsTotal(a.id, b.id);
    if Before(a.id, b.id) && Before(b.id, c.id) { BeforeIsTransitive(a.id, b.id, c.id); }
  }

  function SteerTarget(active: seq<Candidate>, owned: set<string>, running: set<string>): Option<Candidate> {
    var ownedTasks := Those(active, owned);
    if ownedTasks == [] then None else
    var runningTasks := Those(ownedTasks, running);
    Some(Newest(if runningTasks == [] then ownedTasks else runningTasks))
  }

  /** The candidates a follow-up may go to: owned tasks, only the running ones if any runs. */
  ghost predicate Eligible(active: seq<Candidate>, owned: set<string>, running: set<string>, t: Candidate) {
    && t in active && t.id in owned
    && ((exists c :: c in active && c.id in owned && c.id in running) ==> t.id in running)
  }

  /** The target is the newest eligible task, and there is none exactly when nothing is eligible. */
  lemma TargetIsNewestEligible(active: seq<Candidate>, owned: set<string>, running: set<string>)
    ensures SteerTarget(active, owned, running) == None <==> forall t :: !Eligible(active, owned, running, t)
    ensures forall t :: SteerTarget(active, owned, running) == Some(t) <==>
      Eligible(active, owned, running, t) && forall u | Eligible(active, owned, running, u) :: !Older(t, u)
  {
    var ownedTasks := Those(active, owned);
    var runningTasks := Those(ownedTasks, running);
    if ownedTasks != [] {
      assert ownedTasks[0] in ownedTasks;
      var pool := if runningTasks == [] then ownedTasks else runningTasks;
      assert runningTasks != [] ==> runningTasks[0] in runningTasks;
      forall t ensures t in pool <==> Eligible(active, owned, running, t) {}
      var r := Newest(pool);
      assert Eligible(active, owned, running, r);
      forall t | Eligible(active, owned, running, t) && forall u | Eligible(active, owned, running, u) :: !Older(t, u)
        ensures t == r
      {
        OlderIsOrder(t, r, r);
      }
    } else {
      forall t ensures !Eligible(active, owned, running, t) { assert t !in ownedTasks; }
    }
  }

  /** The id of b parts from that of a above it: at that position a's id ends or has the smaller code point. */
  ghost predicate IdBelow(a: Candidate, b: Candidate) {
    exists k :: CanonicalForm.PartsBelow(a.id, b.id, k)
  }

  /** Every other eligible task was created earlier, or at the same time with the smaller id. */
  lemma OthersAreEarlier(active: seq<Candidate>, owned: set<string>, running: set<string>, t: Candidate, u: Candidate)
    requires SteerTarget(active, owned, running) == Some(t) && u != t
    requires u in active && u.id in owned
    requires t.id !in running || u.id in running
    ensures u.createdAt < t.createdAt || (u.createdAt == t.createdAt && IdBelow(u, t))
  {
    TargetIsNewestEligible(active, owned, running);
    assert Eligible(active, owned, running, u);
    OlderIsOrder(t, u, u);
    CanonicalForm.BeforeIsCodePointOrder(u.id, t.id);
  }

  /** The order the store listed the candidates in never matters. */
  lemma ListingOrderIsIrrelevant(a: seq<Candidate>, b: seq<Candidate>, owned: set<string>, running: set<string>)
    requires forall c :: c in a <==> c in b
    ensures SteerTarget(a, owned, running) == SteerTarget(b, owned, running)
  {
    TargetIsNewestEligible(a, owned, running);
    TargetIsNewestEligible(b, owned, running);
    forall t ensures Eligible(a, owned, running, t) <==> Eligible(b, owned, running, t) {}
    if SteerTarget(a, owned, running).Some? {
      assert Eligible(b, owned, running, SteerTarget(a, owned, running).value);
    }
  }
}
