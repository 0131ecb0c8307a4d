/**
 The token bucket of the Feishu adapter (edge/internal/feishu/api.go), in exact arithmetic.
 Times are seconds. The clock and the sleeper are the caller's: a `World` carries the current time
 and, for each sleep to come, by how much it moves the clock and whether it was cancelled.
 */
module TokenBuckets {
  import opened Texts

  datatype Bucket = Bucket(perSec: real, capacity: int, tokens: real, updated: real) {
    ghost predicate Valid() {
      perSec > 0.0 && capacity > 0 && 0.0 <= tokens <= capacity as real
    }

    function Refill(now: real): Bucket {
      var elapsed := now - updated;
      if elapsed > 0.0 then
        this.(tokens := Filled(capacity, tokens, elapsed, perSec), updated := now)
      else this
    }
  }

  function Min(a: real, b: real): real { if a < b then a else b }

  function Filled(capacity: int, tokens: real, elapsed: real, perSec: real): real {
    Min(capacity as real, tokens + elapsed * perSec)
  }

  datatype Nap = Nap(advance: real, cancelled: bool)

  datatype Outcome = Granted | ExceedsCapacity | Cancelled

  /** `NewTokenBucket`: a non-positive capacity means the rate itself. */
  function Fresh(ratePerMin: int, capacity: int, now: real): Result<Bucket, string> {
    if ratePerMin <= 0 then Err("rate_per_min must be positive")
    else
      var cap := if capacity <= 0 then ratePerMin else capacity;
      Ok(Bucket(ratePerMin as real / 60.0, cap, cap as real, now))
  }

  /** One pass of the `Acquire` loop after another, over the naps still to come. */
  function AcquireFrom(b: Bucket, now: real, naps: seq<Nap>, want: int): (Bucket, real, seq<Nap>, Outcome)
    decreases |naps|
  {
    var b' := b.Refill(now);
    if b'.tokens >= want as real then (b'.(tokens := b'.tokens - want as real), now, naps, Granted)
    else if naps == [] then (b', now, naps, Cancelled)
    else if naps[0].cancelled then (b', now + naps[0].advance, naps[1..], Cancelled)
    else AcquireFrom(b', now + naps[0].advance, naps[1..], want)
  }

  /** How long those passes ask the sleeper to wait, cut short or not. */
  function WaitFrom(b: Bucket, now: real, naps: seq<Nap>, want: int): real
    requires b.perSec > 0.0
    decreases |naps|
  {
    var b' := b.Refill(now);
    if b'.tokens >= want as real then 0.0 else
    var delay := (want as real - b'.tokens) / b'.perSec;
    if naps == [] || naps[0].cancelled then delay
    else delay + WaitFrom(b', now + naps[0].advance, naps[1..], want)
  }

  class World {
    var now: real
    var naps: seq<Nap>

    constructor (start: real, naps: seq<Nap>)
      ensures now == start && this.naps == naps
    {
      now, this.naps := start, naps;
    }

    /** Returns true when the sleep was cancelled; with no nap left it is cancelled at once. */
    method Sleep(delay: real) returns (cancelled: bool)
      modifies this
      ensures old(naps) == [] ==> cancelled && now == old(now) && naps == []
      ensures old(naps) != [] ==>
        cancelled == old(naps)[0].cancelled && now == old(now) + old(naps)[0].advance && naps == old(naps)[1..]
    {
      if naps == [] { return true; }
      cancelled := naps[0].cancelled;
      now := now + naps[0].advance;
      naps := naps[1..];
    }
  }

  class TokenBucket {
    const perSec: real
    const capacity: int
    var tokens: real
    var updated: real

    ghost function View(): Bucket reads this { Bucket(perSec, capacity, tokens, updated) }

    constructor (ratePerMin: int, capacity: int, now: real)
      requires ratePerMin > 0
      ensures Fresh(ratePerMin, capacity, now) == Ok(View())
    {
      var cap := if capacity <= 0 then ratePerMin else capacity;
      perSec, this.capacity := ratePerMin as real / 60.0, cap;
      tokens, updated := cap as real, now;
    }

    method RefillNow(now: real)
      modifies this
      ensures View() == old(View()).Refill(now)
    {
      var elapsed := now - updated;
      if elapsed > 0.0 {
        tokens := Filled(capacity, tokens, elapsed, perSec);
        updated := now;
      }
    }

    method Acquire(w: World, want: int) returns (waited: real, outcome: Outcome)
      requires perSec > 0.0
      modifies this, w
      ensures want > capacity ==> outcome == ExceedsCapacity && waited == 0.0
      ensures want > capacity ==> View() == old(View()) && w.now == old(w.now) && w.naps == old(w.naps)
      ensures want <= capacity ==>
        (View(), w.now, w.naps, outcome) == AcquireFrom(old(View()), old(w.now), old(w.naps), want)
      ensures want <= capacity ==> waited == WaitFrom(old(View()), old(w.now), old(w.naps), want)
    {
      waited := 0.0;
      if want > capacity { return 0.0, ExceedsCapacity; }
      while true
        invariant AcquireFrom(View(), w.now, w.naps, want) == AcquireFrom(old(View()), old(w.now), old(w.naps), want)
        invariant waited + WaitFrom(View(), w.now, w.naps, want) == WaitFrom(old(View()), old(w.now), old(w.naps), want)
        decreases |w.naps|
      {
        RefillNow(w.now);
        if tokens >= want as real {
          tokens := tokens - want as real;
          return waited, Granted;
        }
        var delay := (want as real - tokens) / perSec;
        waited := waited + delay;
        var cancelled := w.Sleep(delay);
        if cancelled { return waited, Cancelled; }
      }
    }
  }

  // ---- refilling ---------------------------------------------------------------

  /** Tokens come back at the bucket's rate for the time passed, until the bucket is full and not beyond. */
  lemma RefillIs(b: Bucket, now: real)
    requires b.Valid()
    ensures var r, due := b.Refill(now), b.tokens + (now - b.updated) * b.perSec;
      && (now <= b.updated ==> r == b)
      && (now > b.updated && due <= b.capacity as real ==> r == b.(tokens := due, updated := now))
      && (now > b.updated && due >= b.capacity as real ==> r == b.(tokens := b.capacity as real, updated := now))
  {
  }

  /** Looking in between changes nothing. */
  lemma RefillTwiceIsOnce(b: Bucket, t: real, now: real)
    requires b.Valid() && b.updated <= t <= now
    ensures b.Refill(t).Refill(now) == b.Refill(now)
  {
    var rate, first, second := b.perSec, t - b.updated, now - t;
    assert (now - b.updated) * rate == first * rate + second * rate;
    assert first * rate >= 0.0 && second * rate >= 0.0;
  }

  function Slept(naps: seq<Nap>, n: nat): real
    requires n <= |naps|
  {
    if n == 0 then 0.0 else Slept(naps, n - 1) + naps[n - 1].advance
  }

  /** Sleeps are used in order, and the clock moves by just those used, the cancelled one included. */
  lemma {:induction false} AcquireClock(b: Bucket, now: real, naps: seq<Nap>, want: int) returns (n: nat)
    ensures var r := AcquireFrom(b, now, naps, want);
      && n <= |naps| && r.2 == naps[n..] && r.1 == now + Slept(naps, n)
      && (forall i | 0 <= i < n && naps[i].cancelled :: i == n - 1 && r.3 == Cancelled)
    decreases |naps|
  {
    if b.Refill(now).tokens >= want as real || naps == [] { return 0; }
    if naps[0].cancelled { return 1; }
    var m := AcquireClock(b.Refill(now), now + naps[0].advance, naps[1..], want);
    n := m + 1;
    SleptFirst(naps, m);
    assert forall i | 0 < i < n :: naps[i] == naps[1..][i - 1];
  }

  lemma {:induction false} SleptFirst(naps: seq<Nap>, m: nat)
    requires m < |naps|
    ensures Slept(naps, m + 1) == naps[0].advance + Slept(naps[1..], m)
  {
    if m > 0 { SleptFirst(naps, m - 1); }
  }

  /** A new bucket is full, and an empty one of r tokens a minute has r of them, or is full, a minute later. */
  lemma FreshRefillsInAMinute(ratePerMin: int, capacity: int, now: real)
    ensures Fresh(ratePerMin, capacity, now).Ok? <==> ratePerMin > 0
    ensures Fresh(ratePerMin, capacity, now).Ok? ==>
      var b, r := Fresh(ratePerMin, capacity, now).value, ratePerMin as real;
      && b.Valid() && b.tokens == b.capacity as real && b.updated == now
      && b.capacity == (if capacity > 0 then capacity else ratePerMin)
      && b.(tokens := 0.0).Refill(now + 60.0).tokens == if r <= b.capacity as real then r else b.capacity as real
  {
  }

  // ---- real arithmetic -----------------------------------------------------

  lemma Spread(rate: real, a: real, b: real, c: real)
    ensures rate * (c - a) == rate * (b - a) + rate * (c - b)
  {
  }

  lemma NonNegative(rate: real, a: real)
    requires rate > 0.0 && a >= 0.0
    ensures rate * a >= 0.0 && a * rate >= 0.0
  {
  }

  lemma DelayFills(rate: real, deficit: real, slept: real)
    requires rate > 0.0 && deficit > 0.0 && slept >= deficit / rate
    ensures slept * rate >= deficit && slept > 0.0
  {
    assert deficit / rate > 0.0;
    assert (deficit / rate) * rate == deficit;
    assert slept * rate - deficit == (slept - deficit / rate) * rate;
  }

  // ---- the loop ends -------------------------------------------------------

  lemma FilledKeeps(capacity: int, tokens: real, elapsed: real, perSec: real)
    requires 0.0 <= tokens <= capacity as real && elapsed > 0.0 && perSec > 0.0
    ensures tokens <= Filled(capacity, tokens, elapsed, perSec) <= capacity as real
    ensures Filled(capacity, tokens, elapsed, perSec) <= tokens + perSec * elapsed
  {
    NonNegative(perSec, elapsed);
  }

  lemma RefillKeepsValid(b: Bucket, now: real)
    requires b.Valid()
    ensures b.Refill(now).Valid() && b.Refill(now).Refill(now) == b.Refill(now)
    ensures b.Refill(now).updated == if now > b.updated then now else b.updated
    ensures b.Refill(now).tokens >= b.tokens
  {
    if now > b.updated { FilledKeeps(b.capacity, b.tokens, now - b.updated, b.perSec); }
  }

  /** Tokens stay within [0, capacity] whatever the clock does, for requests that are not negative. */
  lemma {:induction false} AcquireKeepsValid(b: Bucket, now: real, naps: seq<Nap>, want: int)
    requires b.Valid() && want >= 0
    ensures AcquireFrom(b, now, naps, want).0.Valid()
    decreases |naps|
  {
    RefillKeepsValid(b, now);
    if naps != [] { AcquireKeepsValid(b.Refill(now), now + naps[0].advance, naps[1..], want); }
  }

  /** A full bucket is overfilled exactly by a negative request: the code does not refuse one. */
  lemma NegativeRequestOverfills(b: Bucket, naps: seq<Nap>, want: int)
    requires b.Valid() && b.tokens == b.capacity as real && want <= b.capacity
    ensures AcquireFrom(b, b.updated, naps, want).0.Valid() <==> want >= 0
  {
  }

  /** If the sleeper advances the clock by at least the computed delay, one sleep is enough. */
  lemma OneSleepSuffices(b: Bucket, now: real, naps: seq<Nap>, want: int)
    requires b.Valid() && want <= b.capacity && now >= b.updated && naps != [] && !naps[0].cancelled
    requires var r := b.Refill(now); r.tokens < want as real ==> naps[0].advance >= (want as real - r.tokens) / b.perSec
    ensures AcquireFrom(b, now, naps, want).3 == Granted
    ensures AcquireFrom(b, now, naps, want).2 == naps || AcquireFrom(b, now, naps, want).2 == naps[1..]
    ensures WaitFrom(b, now, naps, want) ==
      if b.Refill(now).tokens >= want as real then 0.0 else (want as real - b.Refill(now).tokens) / b.perSec
  {
    var r := b.Refill(now);
    RefillKeepsValid(b, now);
    if r.tokens < want as real {
      var rate, slept := b.perSec, naps[0].advance;
      DelayFills(rate, want as real - r.tokens, slept);
      var later := now + slept;
      assert later - r.updated == slept;
      assert r.Refill(later).tokens == Filled(r.capacity, r.tokens, slept, rate);
    }
  }

  // ---- the rate bound ------------------------------------------------------

  /** One pass of the loop: refill at some time, then take if there is enough. */
  datatype Touch = Touch(now: real, want: int)

  datatype Grant = Grant(at: real, amount: int)

  function TouchOnce(b: Bucket, t: Touch): (Bucket, seq<Grant>) {
    var r := b.Refill(t.now);
    if r.tokens >= t.want as real then (r.(tokens := r.tokens - t.want as real), [Grant(r.updated, t.want)])
    else (r, [])
  }

  /** The grants of a run, each stamped with the latest time the bucket had seen. */
  function Play(b: Bucket, ts: seq<Touch>): (Bucket, seq<Grant>)
    decreases |ts|
  {
    if ts == [] then (b, []) else
    var (b', g) := TouchOnce(b, ts[0]);
    var (b'', gs) := Play(b', ts[1..]);
    (b'', g + gs)
  }

  /** Tokens granted in the closed interval [s, t]. */
  function GrantedIn(gs: seq<Grant>, s: real, t: real): int {
    if gs == [] then 0
    else (if s <= gs[0].at <= t then gs[0].amount else 0) + GrantedIn(gs[1..], s, t)
  }

  ghost predicate NotNegative(ts: seq<Touch>) {
    forall i | 0 <= i < |ts| :: ts[i].want >= 0
  }

  lemma GrantedInCons(g: seq<Grant>, gs: seq<Grant>, s: real, t: real)
    requires |g| <= 1
    ensures GrantedIn(g + gs, s, t) == GrantedIn(g, s, t) + GrantedIn(gs, s, t)
  {
    if g == [] { assert g + gs == gs; } else { assert (g + gs)[1..] == gs; assert GrantedIn(g[1..], s, t) == 0; }
  }

  /** What one touch may do: keep the bucket sound, and grant no more than was held or flowed in. */
  ghost predicate Funded(b: Bucket, b': Bucket, g: seq<Grant>) {
    && b'.Valid() && b'.perSec == b.perSec && b'.capacity == b.capacity && b'.updated >= b.updated
    && |g| <= 1 && (forall x | x in g :: x.at == b'.updated && x.amount >= 0)
    && b'.tokens + Amount(g) <= b.tokens + b.perSec * (b'.updated - b.updated)
  }

  function Amount(g: seq<Grant>): real { if g == [] then 0.0 else g[0].amount as real }

  lemma TouchIsFunded(b: Bucket, t: Touch)
    requires b.Valid() && t.want >= 0
    ensures Funded(b, TouchOnce(b, t).0, TouchOnce(b, t).1)
    ensures TouchOnce(b, t).0.updated == if t.now > b.updated then t.now else b.updated
  {
    RefillKeepsValid(b, t.now);
    if t.now > b.updated {
      assert (t.now - b.updated) * b.perSec == b.perSec * (t.now - b.updated);
    }
  }

  /** At most what the bucket holds plus what flows in until t. */
  ghost predicate WithinFlow(b: Bucket, gs: seq<Grant>, s: real, t: real) {
    && (b.updated > t ==> GrantedIn(gs, s, t) == 0)
    && (b.updated <= t ==> GrantedIn(gs, s, t) as real <= b.tokens + b.perSec * (t - b.updated))
  }

  /** The sums behind `FundedStep`, with `inflow` before and `later` after the first touch. */
  lemma AddFlows(g: seq<Grant>, gs: seq<Grant>, s: real, t: real, held: real, held': real, inflow: real, later: real)
    requires |g| <= 1 && (forall x | x in g :: x.amount >= 0)
    requires held' + Amount(g) <= held + inflow
    requires GrantedIn(gs, s, t) as real <= held' + later
    ensures GrantedIn(g + gs, s, t) as real <= held + inflow + later
  {
    GrantedInCons(g, gs, s, t);
    OneGrant(g, s, t);
    var first, rest := GrantedIn(g, s, t), GrantedIn(gs, s, t);
    assert first as real <= Amount(g);
    assert (first + rest) as real == first as real + rest as real;
  }

  lemma FundedStep(b: Bucket, b': Bucket, g: seq<Grant>, gs: seq<Grant>, s: real, t: real)
    requires b.Valid() && Funded(b, b', g) && WithinFlow(b', gs, s, t)
    ensures WithinFlow(b, g + gs, s, t)
  {
    if b'.updated <= t {
      var inflow, later := b.perSec * (b'.updated - b.updated), b.perSec * (t - b'.updated);
      AddFlows(g, gs, s, t, b.tokens, b'.tokens, inflow, later);
      Spread(b.perSec, b.updated, b'.updated, t);
    } else {
      GrantedInCons(g, gs, s, t);
      OneGrant(g, s, t);
      if b.updated <= t { NonNegative(b.perSec, t - b.updated); }
    }
  }

  lemma {:induction false} GrantsAreFunded(b: Bucket, ts: seq<Touch>, s: real, t: real)
    requires b.Valid() && NotNegative(ts)
    ensures WithinFlow(b, Play(b, ts).1, s, t)
    decreases |ts|
  {
    if ts == [] {
      if b.updated <= t { NonNegative(b.perSec, t - b.updated); }
    } else {
      var (b', g) := TouchOnce(b, ts[0]);
      TouchIsFunded(b, ts[0]);
      GrantsAreFunded(b', ts[1..], s, t);
      FundedStep(b, b', g, Play(b', ts[1..]).1, s, t);
    }
  }

  lemma OneGrant(g: seq<Grant>, s: real, t: real)
    requires |g| <= 1 && forall x | x in g :: x.amount >= 0
    ensures 0 <= GrantedIn(g, s, t) <= if g == [] then 0 else g[0].amount
    ensures g == [] || g[0].at < s || g[0].at > t ==> GrantedIn(g, s, t) == 0
  {
    if g != [] { assert g[0] in g && g[1..] == []; }
  }

  ghost predicate WithinRate(capacity: int, perSec: real, gs: seq<Grant>, s: real, t: real) {
    GrantedIn(gs, s, t) as real <= capacity as real + perSec * (t - s)
  }

  /** In every interval [s, t], over every run, at most capacity + rate * (t - s) tokens are granted. */
  lemma {:induction false} RateBound(b: Bucket, ts: seq<Touch>, s: real, t: real)
    requires b.Valid() && NotNegative(ts) && s <= t
    ensures WithinRate(b.capacity, b.perSec, Play(b, ts).1, s, t)
    decreases |ts|
  {
    if b.updated >= s {
      LateRateBound(b, ts, s, t);
    } else if ts == [] {
      NonNegative(b.perSec, t - s);
    } else if ts[0].now >= s {
      var r := RefillFirst(b, ts);
      LateRateBound(r, ts, s, t);
    } else {
      var b', g := FirstTouch(b, ts);
      RateBound(b', ts[1..], s, t);
      EarlierGrant(b, g, Play(b', ts[1..]).1, s, t);
    }
  }

  lemma FirstTouch(b: Bucket, ts: seq<Touch>) returns (b': Bucket, g: seq<Grant>)
    requires b.Valid() && NotNegative(ts) && ts != []
    ensures Play(b, ts).1 == g + Play(b', ts[1..]).1
    ensures b'.Valid() && b'.perSec == b.perSec && b'.capacity == b.capacity
    ensures b'.updated == if ts[0].now > b.updated then ts[0].now else b.updated
    ensures |g| <= 1 && forall x | x in g :: x.at == b'.updated && x.amount >= 0
  {
    TouchIsFunded(b, ts[0]);
    b', g := TouchOnce(b, ts[0]).0, TouchOnce(b, ts[0]).1;
  }

  lemma LateRateBound(b: Bucket, ts: seq<Touch>, s: real, t: real)
    requires b.Valid() && NotNegative(ts) && s <= t && b.updated >= s
    ensures WithinRate(b.capacity, b.perSec, Play(b, ts).1, s, t)
  {
    GrantsAreFunded(b, ts, s, t);
    FlowIsWithinRate(b, Play(b, ts).1, s, t);
  }

  lemma EarlierGrant(b: Bucket, g: seq<Grant>, gs: seq<Grant>, s: real, t: real)
    requires |g| <= 1 && (forall x | x in g :: x.at < s && x.amount >= 0) && WithinRate(b.capacity, b.perSec, gs, s, t)
    ensures WithinRate(b.capacity, b.perSec, g + gs, s, t)
  {
    GrantedInCons(g, gs, s, t);
    OneGrant(g, s, t);
  }

  /** Refilling ahead of a touch that would refill anyway changes nothing. */
  lemma RefillFirst(b: Bucket, ts: seq<Touch>) returns (r: Bucket)
    requires b.Valid() && ts != []
    ensures r.Valid() && r.updated >= ts[0].now && r.perSec == b.perSec && r.capacity == b.capacity
    ensures Play(b, ts) == Play(r, ts)
  {
    r := b.Refill(ts[0].now);
    RefillKeepsValid(b, ts[0].now);
    assert TouchOnce(b, ts[0]) == TouchOnce(r, ts[0]);
  }

  lemma FlowIsWithinRate(b: Bucket, gs: seq<Grant>, s: real, t: real)
    requires b.Valid() && s <= t && s <= b.updated && WithinFlow(b, gs, s, t)
    ensures WithinRate(b.capacity, b.perSec, gs, s, t)
  {
    NonNegative(b.perSec, t - s);
    if b.updated <= t {
      Spread(b.perSec, s, b.updated, t);
      NonNegative(b.perSec, b.updated - s);
    }
  }

  /** With a clock that does not go back, a grant is stamped with the moment it was made. */
  lemma StampIsNow(b: Bucket, t: Touch)
    requires t.now >= b.updated
    ensures forall g | g in TouchOnce(b, t).1 :: g.at == t.now
  {
  }

  ghost predicate NoneBack(naps: seq<Nap>) { forall i | 0 <= i < |naps| :: naps[i].advance >= 0.0 }

  /** What one `Acquire` grants, stamped with the clock when it returns. */
  function GrantOf(end: real, want: int, outcome: Outcome): seq<Grant> {
    if outcome == Granted then [Grant(end, want)] else []
  }

  /**
   An `Acquire` is a run of touches: the same final bucket, and a grant exactly when it was granted; with
   a clock that does not go back, the grant is stamped with the time at which `Acquire` returned.
   */
  lemma {:induction false} AcquireIsTouches(b: Bucket, now: real, naps: seq<Nap>, want: int) returns (ts: seq<Touch>)
    ensures forall i | 0 <= i < |ts| :: ts[i].want == want
    ensures Play(b, ts).0 == AcquireFrom(b, now, naps, want).0
    ensures |Play(b, ts).1| <= 1 && (forall g | g in Play(b, ts).1 :: g.amount == want)
    ensures |Play(b, ts).1| == 1 <==> AcquireFrom(b, now, naps, want).3 == Granted
    ensures now >= b.updated && NoneBack(naps) ==>
      var (b', end, _, outcome) := AcquireFrom(b, now, naps, want);
      Play(b, ts).1 == GrantOf(end, want, outcome) && b'.updated <= end && now <= end
    decreases |naps|
  {
    var r, first := b.Refill(now), Touch(now, want);
    if r.tokens >= want as real || naps == [] || naps[0].cancelled {
      ts := [first];
      assert Play(b, ts).1 == TouchOnce(b, first).1 + [];
    } else {
      var rest := AcquireIsTouches(r, now + naps[0].advance, naps[1..], want);
      ts := [first] + rest;
      assert ts[1..] == rest;
      assert Play(b, ts).1 == [] + Play(r, rest).1;
    }
  }

  // ---- runs of Acquire -----------------------------------------------------

  /** One `Acquire`, made `gap` seconds after the one before it let go of the bucket. */
  datatype Call = Call(gap: real, want: int, naps: seq<Nap>)

  /** The bucket, the clock and the grants after one call. */
  function CallOnce(b: Bucket, now: real, call: Call): (Bucket, real, seq<Grant>) {
    if call.want > b.capacity then (b, now + call.gap, []) else
    var (b', end, _, outcome) := AcquireFrom(b, now + call.gap, call.naps, call.want);
    (b', end, GrantOf(end, call.want, outcome))
  }

  /** The grants of a run of calls, at the clock times they were made. */
  function CallAll(b: Bucket, now: real, calls: seq<Call>): seq<Grant>
    decreases |calls|
  {
    if calls == [] then [] else
    var (b', now', gs) := CallOnce(b, now, calls[0]);
    gs + CallAll(b', now', calls[1..])
  }

  /** Requests are not negative and the clock never goes back. */
  ghost predicate SoundCalls(calls: seq<Call>) {
    forall i | 0 <= i < |calls| :: calls[i].gap >= 0.0 && calls[i].want >= 0 && NoneBack(calls[i].naps)
  }

  lemma {:induction false} PlayAppend(b: Bucket, first: seq<Touch>, rest: seq<Touch>)
    ensures Play(b, first + rest).1 == Play(b, first).1 + Play(Play(b, first).0, rest).1
    decreases |first|
  {
    if first == [] {
      assert first + rest == rest && Play(b, first).1 + Play(b, rest).1 == Play(b, rest).1;
    } else {
      var (b', g) := TouchOnce(b, first[0]);
      assert (first + rest)[0] == first[0] && (first + rest)[1..] == first[1..] + rest;
      PlayAppend(b', first[1..], rest);
      Assoc(g, Play(b', first[1..]).1, Play(Play(b', first[1..]).0, rest).1);
    }
  }

  /** One call is a run of touches that grants the same at the same time. */
  lemma CallIsTouches(b: Bucket, now: real, call: Call) returns (ts: seq<Touch>)
    requires b.Valid() && b.updated <= now && call.gap >= 0.0 && call.want >= 0 && NoneBack(call.naps)
    ensures NotNegative(ts) && Play(b, ts).0 == CallOnce(b, now, call).0 && Play(b, ts).1 == CallOnce(b, now, call).2
    ensures var (b', now', _) := CallOnce(b, now, call); b'.Valid() && b'.updated <= now'
    ensures CallOnce(b, now, call).0.capacity == b.capacity && CallOnce(b, now, call).0.perSec == b.perSec
  {
    if call.want > b.capacity { return []; }
    ts := AcquireIsTouches(b, now + call.gap, call.naps, call.want);
    AcquireKeepsValid(b, now + call.gap, call.naps, call.want);
    AcquireKeepsShape(b, now + call.gap, call.naps, call.want);
  }

  lemma {:induction false} AcquireKeepsShape(b: Bucket, now: real, naps: seq<Nap>, want: int)
    ensures var b' := AcquireFrom(b, now, naps, want).0; b'.capacity == b.capacity && b'.perSec == b.perSec
    decreases |naps|
  {
    if naps != [] { AcquireKeepsShape(b.Refill(now), now + naps[0].advance, naps[1..], want); }
  }

  lemma {:induction false} CallsAreTouches(b: Bucket, now: real, calls: seq<Call>) returns (ts: seq<Touch>)
    requires b.Valid() && b.updated <= now && SoundCalls(calls)
    ensures NotNegative(ts) && Play(b, ts).1 == CallAll(b, now, calls)
    decreases |calls|
  {
    if calls == [] { return []; }
    var (b', now', gs) := CallOnce(b, now, calls[0]);
    var first := CallIsTouches(b, now, calls[0]);
    var rest := CallsAreTouches(b', now', calls[1..]);
    ts := first + rest;
    PlayAppend(b, first, rest);
  }

  /**
   Over every run of `Acquire` calls on a clock that does not go back, the tokens granted at clock times
   in [s, t] are at most capacity + rate * (t - s).
   */
  lemma AcquireRateBound(b: Bucket, now: real, calls: seq<Call>, s: real, t: real)
    requires b.Valid() && b.updated <= now && SoundCalls(calls) && s <= t
    ensures GrantedIn(CallAll(b, now, calls), s, t) as real <= b.capacity as real + b.perSec * (t - s)
  {
    var ts := CallsAreTouches(b, now, calls);
    RateBound(b, ts, s, t);
  }
}
