/**
 One token bucket per chat (edge/internal/feishu/outbound.go): which buckets the table keeps, and
 when dropping one can be noticed by the chat it belonged to.
 */
module ChatPacers {
  import opened TokenBuckets
  import opened BoundedMaps

  const RATE_PER_MIN := 300
  const BURST := 5
  const MAX_BUCKETS := 1024
  const IDLE_SECONDS := 1.0

  datatype Slot = Slot(bucket: TokenBucket, lastUsed: real)

  type Table = map<string, Slot>

  predicate Live(slot: Slot, now: real) { now - slot.lastUsed < IDLE_SECONDS }

  ghost function LiveIds(before: Table, now: real): set<string> {
    set id | id in before && Live(before[id], now)
  }

  ghost predicate Kept(before: Table, after: Table) {
    after.Keys <= before.Keys && forall id | id in after :: after[id] == before[id]
  }

  /** No dropped chat among `ids` was used later than a kept one. */
  ghost predicate OldestFirst(before: Table, ids: set<string>, after: Table) {
    forall gone, kept | gone in ids && gone in before && gone !in after && kept in after && kept in before ::
      before[gone].lastUsed <= before[kept].lastUsed
  }

  /** What eviction promises: all live chats stay when they fit below the cap, otherwise exactly the newest do. */
  ghost predicate Evicted(before: Table, after: Table, now: real) {
    var live := LiveIds(before, now);
    && Kept(before, after) && after.Keys <= live
    && (|live| < MAX_BUCKETS ==> after.Keys == live)
    && (|live| >= MAX_BUCKETS ==> |after| == MAX_BUCKETS - 1 && OldestFirst(before, live, after))
  }

  class ChatPacer {
    var buckets: Table

    /** Every chat has its own bucket of five tokens refilled at five a second. */
    ghost predicate Valid() reads this {
      && |buckets| <= MAX_BUCKETS && "" !in buckets
      && (forall id | id in buckets :: buckets[id].bucket.perSec == 5.0 && buckets[id].bucket.capacity == BURST)
      && (forall i, j | i in buckets && j in buckets && i != j :: buckets[i].bucket != buckets[j].bucket)
    }

    constructor ()
      ensures Valid() && buckets == map[]
    {
      buckets := map[];
    }

    method Oldest() returns (oldestId: string)
      requires buckets != map[] && "" !in buckets
      ensures oldestId in buckets && forall id | id in buckets :: buckets[oldestId].lastUsed <= buckets[id].lastUsed
    {
      oldestId := "";
      var todo, oldest := buckets.Keys, 0.0;
      while todo != {}
        invariant todo <= buckets.Keys
        invariant oldestId == "" ==> todo == buckets.Keys
        invariant oldestId != "" ==> oldestId in buckets && oldest == buckets[oldestId].lastUsed
        invariant oldestId != "" ==> forall id | id in buckets && id !in todo :: oldest <= buckets[id].lastUsed
        decreases |todo|
      {
        var id :| id in todo;
        if oldestId == "" || buckets[id].lastUsed < oldest {
          oldestId, oldest := id, buckets[id].lastUsed;
        }
        todo := todo - {id};
      }
    }

    method DropIdle(now: real)
      modifies this
      ensures Kept(old(buckets), buckets) && buckets.Keys == LiveIds(old(buckets), now)
    {
      var todo := buckets.Keys;
      while todo != {}
        invariant todo <= buckets.Keys && Kept(old(buckets), buckets)
        invariant forall id | id in old(buckets) && id !in todo :: id in buckets <==> Live(old(buckets)[id], now)
        decreases |todo|
      {
        var id :| id in todo;
        if now - buckets[id].lastUsed >= IDLE_SECONDS { buckets := buckets - {id}; }
        todo := todo - {id};
      }
    }

    method EvictLocked(now: real)
      requires "" !in buckets
      modifies this
      ensures Evicted(old(buckets), buckets, now)
    {
      DropIdle(now);
      ghost var live := LiveIds(old(buckets), now);
      assert |buckets| == |buckets.Keys|;
      while |buckets| >= MAX_BUCKETS
        invariant Kept(old(buckets), buckets) && buckets.Keys <= live
        invariant |live| < MAX_BUCKETS ==> buckets.Keys == live
        invariant |live| >= MAX_BUCKETS ==> |buckets| >= MAX_BUCKETS - 1
        invariant OldestFirst(old(buckets), live, buckets)
        decreases |buckets|
      {
        var id := Oldest();
        assert |buckets.Keys - {id}| == |buckets.Keys| - 1;
        buckets := buckets - {id};
      }
    }

    method BucketFor(chatId: string, now: real) returns (bucket: TokenBucket)
      requires Valid() && chatId != ""
      modifies this
      ensures Valid() && chatId in buckets && buckets[chatId] == Slot(bucket, now)
      ensures chatId in old(buckets) ==> bucket == old(buckets)[chatId].bucket
      ensures chatId in old(buckets) ==> buckets == old(buckets)[chatId := Slot(bucket, now)]
      ensures chatId !in old(buckets) ==> fresh(bucket) && bucket.View() == Full(now)
      ensures chatId !in old(buckets) && |old(buckets)| < MAX_BUCKETS ==>
        buckets == old(buckets)[chatId := Slot(bucket, now)]
      ensures chatId !in old(buckets) && |old(buckets)| >= MAX_BUCKETS ==>
        Evicted(old(buckets), buckets - {chatId}, now)
    {
      if chatId in buckets {
        bucket := buckets[chatId].bucket;
        buckets := buckets[chatId := Slot(bucket, now)];
        assert buckets.Keys == old(buckets).Keys;
        return;
      }
      if |buckets| >= MAX_BUCKETS { EvictLocked(now); }
      SizeBelowCap(old(buckets), buckets, now);
      bucket := AddBucket(chatId, now);
    }

    method AddBucket(chatId: string, now: real) returns (bucket: TokenBucket)
      requires Valid() && chatId != "" && chatId !in buckets && |buckets| < MAX_BUCKETS
      modifies this
      ensures Valid() && fresh(bucket) && bucket.View() == Full(now)
      ensures buckets == old(buckets)[chatId := Slot(bucket, now)] && buckets - {chatId} == old(buckets)
    {
      bucket := new TokenBucket(RATE_PER_MIN, BURST, now);
      buckets := buckets[chatId := Slot(bucket, now)];
      assert buckets.Keys == old(buckets).Keys + {chatId};
      assert buckets - {chatId} == old(buckets);
    }

    /** A send to a chat takes one token of that chat's bucket and no other's; without a chat nothing is taken. */
    method Acquire(chatId: string, w: World) returns (outcome: Outcome)
      requires Valid()
      modifies this, w, set id | id in buckets :: buckets[id].bucket
      ensures Valid()
      ensures chatId == "" ==> outcome == Granted && buckets == old(buckets)
      ensures chatId == "" ==> w.now == old(w.now) && w.naps == old(w.naps)
      ensures chatId == "" ==> forall id | id in buckets :: buckets[id].bucket.View() == old(buckets[id].bucket.View())
      ensures chatId != "" ==> chatId in buckets && buckets[chatId].lastUsed == old(w.now)
      ensures chatId in old(buckets) ==>
        buckets == old(buckets)[chatId := Slot(old(buckets)[chatId].bucket, old(w.now))]
      ensures chatId in old(buckets) ==>
        (buckets[chatId].bucket.View(), w.now, w.naps, outcome)
          == AcquireFrom(old(buckets[chatId].bucket.View()), old(w.now), old(w.naps), 1)
      ensures chatId !in old(buckets) && chatId != "" ==>
        (buckets[chatId].bucket.View(), w.now, w.naps, outcome)
          == AcquireFrom(Full(old(w.now)), old(w.now), old(w.naps), 1)
      ensures forall id | id in buckets && id != chatId :: id in old(buckets) && buckets[id] == old(buckets)[id]
      ensures forall id | id in old(buckets) && id != chatId ::
        old(buckets)[id].bucket.View() == old(buckets[id].bucket.View())
    {
      if chatId == "" { return Granted; }
      var bucket := BucketFor(chatId, w.now);
      assert forall id | id in old(buckets) && id != chatId :: old(buckets)[id].bucket != bucket;
      var _, result := bucket.Acquire(w, 1);
      outcome := result;
    }
  }

  const MAX_CARDS := 4096

  /** Which chat a card was sent to: the same bounded table, first in first out. */
  class CardBook {
    const cards: BoundedMap<string>

    constructor ()
      ensures fresh(cards) && cards.Valid() && cards.View() == [] && cards.cap == MAX_CARDS
    {
      cards := new BoundedMap(MAX_CARDS);
    }

    method RememberCard(cardId: string, chatId: string)
      requires cards.Valid()
      modifies cards
      ensures cards.Valid()
      ensures cardId == "" || chatId == "" ==> cards.View() == old(cards.View())
      ensures cardId != "" && chatId != "" ==> cards.View() == Put(old(cards.View()), cards.cap, cardId, chatId)
    {
      if cardId == "" || chatId == "" { return; }
      cards.PutEntry(cardId, chatId);
    }

    /** The chat of a card; "" when it is not known. */
    method ChatOfCard(cardId: string) returns (chatId: string)
      requires cards.Valid()
      ensures chatId == if HasKey(cards.View(), cardId) then cards.View()[IndexOf(cards.View(), cardId)].1 else ""
    {
      var found := cards.Get(cardId);
      chatId := if found.Some? then found.value else "";
    }
  }

  lemma SizeBelowCap(before: Table, after: Table, now: real)
    requires if |before| >= MAX_BUCKETS then Evicted(before, after, now) else after == before
    ensures |after| < MAX_BUCKETS
  {
    assert |after| == |after.Keys|;
  }

  // ---- can a chat notice that its bucket was dropped? -----------------------

  function Full(now: real): Bucket { Bucket(5.0, BURST, 5.0, now) }

  ghost predicate OfChat(b: Bucket) { b.Valid() && b.perSec == 5.0 && b.capacity == BURST }

  /** Requests for one token each, none before `now`. */
  ghost predicate SendsFrom(ts: seq<Touch>, now: real) {
    forall i | 0 <= i < |ts| :: ts[i].now >= now && ts[i].want == 1
  }

  /** Whatever is sent from now on, the kept bucket and a new one grant the same tokens at the same times. */
  ghost predicate DropIsUnobservable(b: Bucket, now: real) {
    forall ts | SendsFrom(ts, now) :: Play(b, ts).1 == Play(Full(now), ts).1
  }

  ghost predicate RefilledBy(b: Bucket, now: real) { b.tokens + 5.0 * (now - b.updated) >= 5.0 }

  /** Dropping a bucket goes unnoticed exactly when it would have been full again. */
  lemma DropUnobservableIffRefilled(b: Bucket, now: real)
    requires OfChat(b) && b.updated <= now
    ensures DropIsUnobservable(b, now) <==> RefilledBy(b, now)
  {
    if RefilledBy(b, now) {
      forall ts | SendsFrom(ts, now) ensures Play(b, ts).1 == Play(Full(now), ts).1 {
        RefilledPlaysAsFull(b, now, ts);
      }
    } else {
      var ts := SendsAtOnce(BURST, now, [], now, now);
      GrantsAreFunded(b, ts, now, now);
      assert SendsFrom(ts, now);
    }
  }

  lemma RefilledPlaysAsFull(b: Bucket, now: real, ts: seq<Touch>)
    requires OfChat(b) && b.updated <= now && RefilledBy(b, now) && SendsFrom(ts, now)
    ensures Play(b, ts).1 == Play(Full(now), ts).1
  {
    if ts != [] && b != Full(now) {
      FillsUp(b, now, ts[0].now);
      FillsUp(Full(now), now, ts[0].now);
      assert TouchOnce(b, ts[0]) == TouchOnce(Full(now), ts[0]);
    }
  }

  lemma FillsUp(b: Bucket, now: real, later: real)
    requires OfChat(b) && b.updated <= now <= later && RefilledBy(b, now)
    ensures b.Refill(later) == Full(later)
  {
    if b.updated == later {
      assert b.tokens == 5.0;
    } else {
      assert (later - b.updated) * 5.0 >= 5.0 * (now - b.updated);
    }
  }

  function Held(k: nat, now: real): Bucket { Bucket(5.0, BURST, k as real, now) }

  /** A bucket holding k tokens grants k sends at once, and is empty for what comes after. */
  lemma SendsAtOnce(k: nat, now: real, tail: seq<Touch>, s: real, t: real) returns (ts: seq<Touch>)
    requires k <= BURST && SendsFrom(tail, now) && s <= now <= t
    ensures SendsFrom(ts, now)
    ensures Play(Held(k, now), ts).0 == Play(Held(0, now), tail).0
    ensures GrantedIn(Play(Held(k, now), ts).1, s, t) == k + GrantedIn(Play(Held(0, now), tail).1, s, t)
  {
    if k == 0 { return tail; }
    var rest := SendsAtOnce(k - 1, now, tail, s, t);
    var first := Touch(now, 1);
    ts := [first] + rest;
    assert ts[1..] == rest;
    assert TouchOnce(Held(k, now), first) == (Held(k - 1, now), [Grant(now, 1)]);
    GrantedInCons([Grant(now, 1)], Play(Held(k - 1, now), rest).1, s, t);
  }

  /** The idle rule is right for a bucket nobody drew from since it was last looked up. */
  lemma UntouchedIdleIsRefilled(b: Bucket, lastUsed: real, now: real)
    requires OfChat(b) && b.updated <= lastUsed && now - lastUsed >= IDLE_SECONDS
    ensures DropIsUnobservable(b, now)
  {
    DropUnobservableIffRefilled(b, now);
  }

  /**
   It is wrong for a bucket with senders still queueing: six sends look the bucket up at time 0, the
   sixth waits 0.2 s for its token; at time 1 the bucket counts as idle, yet holds four tokens. A new
   bucket then lets eleven sends through within one second, where five plus five is the limit.
   */
  lemma IdleButNotRefilled() returns (b: Bucket, early: seq<Touch>, late: seq<Touch>)
    ensures b == Play(Full(0.0), early).0 == Drained() && OfChat(b) && b.updated <= 1.0
    ensures NotNegative(early) && SendsFrom(early, 0.0) && SendsFrom(late, 1.0)
    ensures AcquireFrom(Held(0, 0.0), 0.0, [Nap(0.2, false)], 1) == (b, 0.2, [], Granted)
    ensures !DropIsUnobservable(b, 1.0)
    ensures GrantedIn(Play(Full(0.0), early).1, 0.0, 1.0) + GrantedIn(Play(Full(1.0), late).1, 0.0, 1.0) == 11
  {
    var sixth := Touch(0.2, 1);
    early := SendsAtOnce(BURST, 0.0, [sixth], 0.0, 1.0);
    late := SendsAtOnce(BURST, 1.0, [], 0.0, 1.0);
    assert Held(0, 0.0).Refill(0.2) == Bucket(5.0, BURST, 1.0, 0.2);
    b := Drained();
    assert TouchOnce(Held(0, 0.0), sixth) == (b, [Grant(0.2, 1)]);
    assert [sixth][1..] == [] && [Grant(0.2, 1)] + [] == [Grant(0.2, 1)];
    assert Play(Held(0, 0.0), [sixth]) == (b, [Grant(0.2, 1)]);
    DropUnobservableIffRefilled(b, 1.0);
    SixthWaits(0.2);
  }

  /** The bucket of that run after the sixth send. */
  function Drained(): Bucket { Bucket(5.0, BURST, 0.0, 0.2) }

  lemma SixthWaits(later: real)
    requires later == 0.2
    ensures AcquireFrom(Held(0, 0.0), 0.0, [Nap(later, false)], 1) == (Drained(), later, [], Granted)
  {
    var naps := [Nap(later, false)];
    assert Held(0, 0.0).Refill(0.0) == Held(0, 0.0) && naps[1..] == [];
    assert Held(0, 0.0).Refill(later) == Bucket(5.0, BURST, 1.0, later);
    assert AcquireFrom(Held(0, 0.0), 0.0, naps, 1) == AcquireFrom(Held(0, 0.0), later, [], 1);
  }

  lemma TakesOne(k: nat, naps: seq<Nap>)
    requires 0 < k <= BURST
    ensures AcquireFrom(Held(k, 0.0), 0.0, naps, 1) == (Held(k - 1, 0.0), 0.0, naps, Granted)
  {
    assert Held(k, 0.0).Refill(0.0) == Held(k, 0.0);
  }

  /** The same run on a pacer: the slot was looked up at time 0, is idle at time 1, and eviction drops it unrefilled. */
  method EvictUnrefilled(chatId: string) returns (pacer: ChatPacer, slot: Slot)
    requires chatId != ""
    ensures fresh(pacer) && chatId !in pacer.buckets
    ensures slot.lastUsed == 0.0 && !Live(slot, 1.0)
    ensures slot.bucket.View() == Drained() && !DropIsUnobservable(slot.bucket.View(), 1.0)
  {
    pacer := new ChatPacer();
    var w := new World(0.0, [Nap(0.2, false)]);
    var bucket := pacer.BucketFor(chatId, 0.0);
    var k := BURST;
    while k > 0
      invariant 0 <= k <= BURST && fresh(pacer) && fresh(w) && fresh(bucket) && pacer.Valid()
      invariant w.now == 0.0 && w.naps == [Nap(0.2, false)]
      invariant pacer.buckets == map[chatId := Slot(bucket, 0.0)] && bucket.View() == Held(k, 0.0)
    {
      TakesOne(k, w.naps);
      var granted := pacer.Acquire(chatId, w);
      k := k - 1;
    }
    SixthWaits(0.2);
    var waited := pacer.Acquire(chatId, w);
    slot := pacer.buckets[chatId];
    DropUnobservableIffRefilled(Drained(), 1.0);
    pacer.EvictLocked(1.0);
  }
}
