/**
 The proactive-send gate of the WeCom adapter (edge/internal/wecom/ratelimit.go): a ring of the last
 thirty send times that behaves as a true sliding window. Times are seconds, as reals.
 */
module SendWindows {
  import opened BoundedMaps

  const PER_WINDOW: nat := 30
  const WINDOW: real := 60.0

  /** How many accepted sends lie less than a window in the past. */
  function Recent(accepted: seq<real>, now: real): nat {
    if accepted == [] then 0
    else Recent(accepted[..|accepted| - 1], now) + (if now - accepted[|accepted| - 1] < WINDOW then 1 else 0)
  }

  ghost predicate NonDecreasing(ts: seq<real>) {
    forall i, j | 0 <= i < j < |ts| :: ts[i] <= ts[j]
  }

  ghost predicate NotBefore(now: real, ts: seq<real>) {
    forall i | 0 <= i < |ts| :: ts[i] <= now
  }

  /** What the ring answers: fewer than thirty sends so far, or the thirtieth-last is a window old. */
  predicate RingAllows(accepted: seq<real>, now: real) {
    |accepted| < PER_WINDOW || now - accepted[|accepted| - PER_WINDOW] >= WINDOW
  }

  class SendWindow {
    const times: array<real>
    var n: nat
    var next: nat
    ghost var accepted: seq<real>   // every send this window has let through, in order

    constructor ()
      ensures Valid() && fresh(times) && accepted == []
    {
      times := new real[PER_WINDOW](_ => 0.0);
      n, next, accepted := 0, 0, [];
    }

    ghost predicate Valid() reads this, times {
      && times.Length == PER_WINDOW
      && n == (if |accepted| < PER_WINDOW then |accepted| else PER_WINDOW)
      && next == |accepted| % PER_WINDOW
      && forall i | |accepted| - n <= i < |accepted| :: times[i % PER_WINDOW] == accepted[i]
    }

    method Allow(now: real) returns (ok: bool)
      requires Valid()
      modifies this, times
      ensures Valid()
      ensures ok == RingAllows(old(accepted), now)
      ensures accepted == if ok then old(accepted) + [now] else old(accepted)
    {
      ghost var total := |accepted|;
      RingPositions(total);
      if n == PER_WINDOW {
        assert times[(total - PER_WINDOW) % PER_WINDOW] == accepted[total - PER_WINDOW];
        if now - times[next] < WINDOW { return false; }
      }
      times[next] := now;
      next := (next + 1) % PER_WINDOW;
      if n < PER_WINDOW { n := n + 1; }
      accepted := accepted + [now];
      ok := true;
    }
  }

  /** The slot about to be written holds the oldest remembered send, and no other remembered send. */
  lemma RingPositions(total: nat)
    ensures (total + 1) % PER_WINDOW == (total % PER_WINDOW + 1) % PER_WINDOW
    ensures total >= PER_WINDOW ==> (total - PER_WINDOW) % PER_WINDOW == total % PER_WINDOW
    ensures forall i | total - PER_WINDOW < i < total && 0 <= i :: i % PER_WINDOW != total % PER_WINDOW
  {
    forall i | total - PER_WINDOW < i < total && 0 <= i ensures i % PER_WINDOW != total % PER_WINDOW {
      assert total == PER_WINDOW * (total / PER_WINDOW) + total % PER_WINDOW;
      assert i == PER_WINDOW * (i / PER_WINDOW) + i % PER_WINDOW;
    }
  }

  lemma {:induction false} RecentBounds(accepted: seq<real>, now: real, from: nat)
    requires NonDecreasing(accepted) && from <= |accepted|
    requires forall i | 0 <= i < from :: now - accepted[i] >= WINDOW
    ensures Recent(accepted, now) <= |accepted| - from
    ensures (forall i | from <= i < |accepted| :: now - accepted[i] < WINDOW) ==>
      Recent(accepted, now) == |accepted| - from
    decreases |accepted|
  {
    if from < |accepted| {
      RecentBounds(accepted[..|accepted| - 1], now, from);
    } else if accepted != [] {
      RecentBounds(accepted[..|accepted| - 1], now, from - 1);
    }
  }

  /** With a clock that does not go back, a send is refused exactly when thirty accepted ones are less than 60 s old. */
  lemma RingIsSlidingWindow(accepted: seq<real>, now: real)
    requires NonDecreasing(accepted) && NotBefore(now, accepted)
    ensures RingAllows(accepted, now) <==> Recent(accepted, now) < PER_WINDOW
  {
    var n := |accepted|;
    if n < PER_WINDOW {
      RecentBounds(accepted, now, 0);
    } else if now - accepted[n - PER_WINDOW] >= WINDOW {
      RecentBounds(accepted, now, n - PER_WINDOW + 1);
    } else {
      RecentFrom(accepted, now, n - PER_WINDOW);
    }
  }

  lemma {:induction false} RecentFrom(accepted: seq<real>, now: real, from: nat)
    requires from <= |accepted| && forall i | from <= i < |accepted| :: now - accepted[i] < WINDOW
    ensures Recent(accepted, now) >= |accepted| - from
    decreases |accepted|
  {
    if from < |accepted| { RecentFrom(accepted[..|accepted| - 1], now, from); }
  }

  /** The sends let through when the gate is asked at each of the given times, oldest first. */
  function Accepted(asked: seq<real>): seq<real> {
    if asked == [] then [] else
    var before, now := Accepted(asked[..|asked| - 1]), asked[|asked| - 1];
    if RingAllows(before, now) then before + [now] else before
  }

  lemma {:induction false} AcceptedIsOrdered(asked: seq<real>)
    requires NonDecreasing(asked)
    ensures NonDecreasing(Accepted(asked))
    ensures forall now :: NotBefore(now, asked) ==> NotBefore(now, Accepted(asked))
    decreases |asked|
  {
    if asked != [] {
      var front := asked[..|asked| - 1];
      AcceptedIsOrdered(front);
      assert NotBefore(asked[|asked| - 1], front);
      forall now | NotBefore(now, asked) ensures NotBefore(now, Accepted(asked)) {
        assert NotBefore(now, front);
        assert asked[|asked| - 1] <= now;
      }
    }
  }

  /** Over every run of requests, thirty sends apart is at least sixty seconds apart. */
  lemma {:induction false} ThirtyApartIsAMinuteApart(asked: seq<real>, i: nat)
    requires i + PER_WINDOW < |Accepted(asked)|
    ensures Accepted(asked)[i + PER_WINDOW] - Accepted(asked)[i] >= WINDOW
    decreases |asked|
  {
    var before := Accepted(asked[..|asked| - 1]);
    if i + PER_WINDOW < |before| {
      ThirtyApartIsAMinuteApart(asked[..|asked| - 1], i);
    }
  }

  /** So no span shorter than sixty seconds, wherever it starts, holds more than thirty sends. */
  lemma NoSpanHoldsMore(asked: seq<real>, i: nat, j: nat)
    requires NonDecreasing(asked) && i + PER_WINDOW <= j < |Accepted(asked)|
    ensures Accepted(asked)[j] - Accepted(asked)[i] >= WINDOW
  {
    ThirtyApartIsAMinuteApart(asked, i);
    AcceptedIsOrdered(asked);
  }

  // ---- one window per chat, in a bounded table ------------------------------

  /** `chatBook.allow` on the per-chat lists of accepted times. */
  function BookAllow(book: Entries<seq<real>>, cap: nat, chat: string, now: real): (Entries<seq<real>>, bool) {
    var i := IndexOf(book, chat);
    var accepted := if i < |book| then book[i].1 else [];
    var ok := RingAllows(accepted, now);
    var accepted' := if ok then accepted + [now] else accepted;
    (if i < |book| then book[i := (chat, accepted')] else Put(book, cap, chat, accepted'), ok)
  }

  /** Chats neither spend each other's budget nor lend theirs; a new chat can evict only the oldest window. */
  lemma ChatsAreIndependent(book: Entries<seq<real>>, cap: nat, chat: string, now: real, other: string)
    requires DistinctKeys(book) && |book| <= cap && other != chat && HasKey(book, other)
    requires HasKey(book, chat) || |book| < cap || other != book[0].0
    ensures var book' := BookAllow(book, cap, chat, now).0;
      DistinctKeys(book') && HasKey(book', other) && book'[IndexOf(book', other)] == book[IndexOf(book, other)]
  {
    var i := IndexOf(book, chat);
    if i < |book| {
      var accepted := book[i].1;
      InPlace(book, i, (chat, if RingAllows(accepted, now) then accepted + [now] else accepted), other);
    } else {
      NewBehind(book, cap, chat, BookAllowNew(now), other);
    }
  }

  /** The window of a chat that just came. */
  function BookAllowNew(now: real): seq<real> { if RingAllows([], now) then [] + [now] else [] }

  lemma InPlace(book: Entries<seq<real>>, i: nat, entry: (string, seq<real>), other: string)
    requires DistinctKeys(book) && i < |book| && book[i].0 == entry.0 != other && HasKey(book, other)
    ensures var book' := book[i := entry];
      DistinctKeys(book') && HasKey(book', other) && book'[IndexOf(book', other)] == book[IndexOf(book, other)]
  {
    var book', j := book[i := entry], IndexOf(book, other);
    assert book'[j] == book[j];
    IndexIs(book', other, j);
  }

  lemma NewBehind(book: Entries<seq<real>>, cap: nat, chat: string, accepted: seq<real>, other: string)
    requires DistinctKeys(book) && |book| <= cap && other != chat && HasKey(book, other) && !HasKey(book, chat)
    requires |book| < cap || other != book[0].0
    ensures var book' := Put(book, cap, chat, accepted);
      DistinctKeys(book') && HasKey(book', other) && book'[IndexOf(book', other)] == book[IndexOf(book, other)]
  {
    PutKeepsNewest(book, cap, chat, accepted);
    if |book| < cap {
      RoomyPut(book, cap, other, chat, accepted);
      var book', j := Put(book, cap, chat, accepted), IndexOf(book, other);
      assert book'[j] == book[j];
    } else {
      EvictingPut(book, cap, other, chat, accepted);
    }
  }

  // ---- runs of requests to the book -------------------------------------------

  datatype Request = Request(chat: string, now: real)

  /** The book after the first n requests. */
  function BookAt(cap: nat, reqs: seq<Request>, n: nat): Entries<seq<real>>
    requires n <= |reqs|
  {
    if n == 0 then [] else BookAllow(BookAt(cap, reqs, n - 1), cap, reqs[n - 1].chat, reqs[n - 1].now).0
  }

  /** When a chat asked, from request m to request n. */
  function Asked(reqs: seq<Request>, m: nat, n: nat, chat: string): seq<real>
    requires m <= n <= |reqs|
  {
    if m == n then [] else Asked(reqs, m, n - 1, chat) + if reqs[n - 1].chat == chat then [reqs[n - 1].now] else []
  }

  lemma {:induction false} BookIsSound(cap: nat, reqs: seq<Request>, n: nat)
    requires n <= |reqs|
    ensures DistinctKeys(BookAt(cap, reqs, n)) && |BookAt(cap, reqs, n)| <= cap
  {
    if n > 0 {
      BookIsSound(cap, reqs, n - 1);
      var book, r := BookAt(cap, reqs, n - 1), reqs[n - 1];
      var i := IndexOf(book, r.chat);
      if i == |book| { PutKeepsNewest(book, cap, r.chat, BookAllowNew(r.now)); }
    }
  }

  /** The chat's window is not in the table at request m, and from its first request on it stays there. */
  ghost predicate StaysFrom(cap: nat, reqs: seq<Request>, m: nat, n: nat, chat: string) {
    m <= n <= |reqs| && forall k | m <= k <= n :: InTableIfAsked(cap, reqs, m, k, chat)
  }

  predicate InTableIfAsked(cap: nat, reqs: seq<Request>, m: nat, k: nat, chat: string)
    requires m <= k <= |reqs|
  {
    HasKey(BookAt(cap, reqs, k), chat) <==> Asked(reqs, m, k, chat) != []
  }

  lemma OtherChatStep(book: Entries<seq<real>>, cap: nat, chat: string, now: real, other: string)
    requires DistinctKeys(book) && |book| <= cap && other != chat && HasKey(book, other)
    requires HasKey(BookAllow(book, cap, chat, now).0, other)
    ensures var book' := BookAllow(book, cap, chat, now).0; book'[IndexOf(book', other)] == book[IndexOf(book, other)]
  {
    if HasKey(book, chat) || |book| < cap || other != book[0].0 {
      ChatsAreIndependent(book, cap, chat, now, other);
    } else {
      PutKeepsNewest(book, cap, chat, BookAllowNew(now));
      GoneWithOldest(book, chat, BookAllowNew(now), other);
    }
  }

  lemma GoneWithOldest(book: Entries<seq<real>>, chat: string, accepted: seq<real>, other: string)
    requires DistinctKeys(book) && book != [] && book[0].0 == other != chat
    ensures !HasKey(book[1..] + [(chat, accepted)], other)
  {
    var book' := book[1..] + [(chat, accepted)];
    forall j | 0 <= j < |book'| ensures book'[j].0 != other {
      if j < |book| - 1 { assert book'[j] == book[j + 1]; }
    }
  }

  /** While its window stays in the table, a chat's accepted times are those of its own requests alone. */
  lemma {:induction false} WindowIsOwnRequests(cap: nat, reqs: seq<Request>, m: nat, n: nat, chat: string)
    requires StaysFrom(cap, reqs, m, n, chat)
    ensures var book := BookAt(cap, reqs, n);
      HasKey(book, chat) ==> book[IndexOf(book, chat)].1 == Accepted(Asked(reqs, m, n, chat))
    decreases n - m
  {
    if m < n {
      WindowIsOwnRequests(cap, reqs, m, n - 1, chat);
      BookIsSound(cap, reqs, n - 1);
      assert InTableIfAsked(cap, reqs, m, n - 1, chat) && InTableIfAsked(cap, reqs, m, n, chat);
      var book, asked := BookAt(cap, reqs, n - 1), Asked(reqs, m, n - 1, chat);
      var book', asked' := BookAt(cap, reqs, n), Asked(reqs, m, n, chat);
      RequestStep(book, cap, reqs[n - 1], chat, asked, asked', book');
    }
  }

  lemma RequestStep(
      book: Entries<seq<real>>, cap: nat, r: Request, chat: string, asked: seq<real>, asked': seq<real>,
      book': Entries<seq<real>>)
    requires DistinctKeys(book) && |book| <= cap && (HasKey(book, chat) <==> asked != [])
    requires HasKey(book, chat) ==> book[IndexOf(book, chat)].1 == Accepted(asked)
    requires asked' == asked + if r.chat == chat then [r.now] else []
    requires book' == BookAllow(book, cap, r.chat, r.now).0 && (HasKey(book', chat) <==> asked' != [])
    ensures HasKey(book', chat) ==> book'[IndexOf(book', chat)].1 == Accepted(asked')
  {
    if r.chat == chat {
      OwnRequestStep(book, cap, chat, r.now, asked);
    } else if asked != [] {
      OtherChatStep(book, cap, r.chat, r.now, chat);
      assert asked' == asked;
    }
  }

  lemma OwnRequestStep(book: Entries<seq<real>>, cap: nat, chat: string, now: real, asked: seq<real>)
    requires DistinctKeys(book) && |book| <= cap && (HasKey(book, chat) <==> asked != [])
    requires HasKey(book, chat) ==> book[IndexOf(book, chat)].1 == Accepted(asked)
    requires HasKey(BookAllow(book, cap, chat, now).0, chat)
    ensures var book' := BookAllow(book, cap, chat, now).0;
      book'[IndexOf(book', chat)].1 == Accepted(asked + [now])
  {
    var book' := BookAllow(book, cap, chat, now).0;
    assert (asked + [now])[..|asked|] == asked;
    if HasKey(book, chat) {
      IndexIs(book', chat, IndexOf(book, chat));
    } else {
      PutKeepsNewest(book, cap, chat, BookAllowNew(now));
      if cap > 0 { NewEntrySlack(book, cap, chat, BookAllowNew(now)); }
    }
  }

  /** A chat is answered as if it asked alone: refused exactly when thirty of its own accepted sends are recent. */
  lemma AnswerIsOwnRequests(cap: nat, reqs: seq<Request>, m: nat, n: nat, chat: string)
    requires StaysFrom(cap, reqs, m, n, chat) && n < |reqs| && reqs[n].chat == chat
    requires var asked := Asked(reqs, m, n, chat); NonDecreasing(asked) && NotBefore(reqs[n].now, asked)
    ensures BookAllow(BookAt(cap, reqs, n), cap, chat, reqs[n].now).1
      <==> Recent(Accepted(Asked(reqs, m, n, chat)), reqs[n].now) < 30
  {
    var asked := Asked(reqs, m, n, chat);
    WindowIsOwnRequests(cap, reqs, m, n, chat);
    assert InTableIfAsked(cap, reqs, m, n, chat);
    AcceptedIsOrdered(asked);
    RingIsSlidingWindow(Accepted(asked), reqs[n].now);
  }

  /** Recent sends counted without recursion: with ordered times they are the last ones, each less than 60 s old. */
  lemma RecentAreLast(accepted: seq<real>, now: real, from: nat)
    requires NonDecreasing(accepted) && from <= |accepted|
    requires from > 0 ==> now - accepted[from - 1] >= 60.0
    requires from < |accepted| ==> now - accepted[from] < 60.0
    ensures Recent(accepted, now) == |accepted| - from
  {
    RecentBounds(accepted, now, from);
  }
}
