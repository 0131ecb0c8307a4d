/**
 The evidence hash chain: how an event is appended, how a chain is verified, and what a matching
 root hash proves (core/crates/contracts/src/evidence.rs, core/crates/evidence/src/writer.rs).

 The digest is a parameter of which only the length of its results is used. Nothing here assumes
 it injective: where a proof would need that, it hands back the two inputs that share a digest.
 */
module EvidenceChain {
  import opened Texts
  import opened CanonicalJson
  import opened JsonParser

  type Digest = string -> string

  datatype Kind =
    | TaskCreated | EventReceived | ModelCall | ChecklistOp | ToolCall
    | ToolResult | Artifact | Delivered | Failed | Cancelled

  /** One line of events.jsonl, its payload already resolved from the line or its side file. */
  datatype Event = Event(
    taskId: string,
    seqNo: nat,
    kind: Kind,
    payloadHash: string,
    payload: Option<Json>,
    prevHash: string,
    hash: string)

  const GENESIS: string := "0000000000000000000000000000000000000000000000000000000000000000"

  ghost predicate Digests(h: Digest) {
    forall s :: |h(s)| == 64
  }

  ghost predicate IsPayload(p: Json) {
    p.Obj? && WellFormed(p)
  }

  function ChainHash(h: Digest, prev: string, payloadHash: string): string {
    h(prev + payloadHash)
  }

  ghost function PayloadHash(h: Digest, p: Json): string
    requires IsPayload(p)
  {
    h(Text(p))
  }

  /** The hash the next event links to, and the root hash of a finalized chain. */
  function Root(es: seq<Event>): string {
    if es == [] then GENESIS else es[|es| - 1].hash
  }

  /** What verification demands of the event at one position. */
  ghost predicate EventOk(h: Digest, taskId: string, es: seq<Event>, i: nat)
    requires i < |es|
  {
    var ev := es[i];
    && ev.taskId == taskId && ev.seqNo == i
    && ev.payload.Some? && IsPayload(ev.payload.value)
    && ev.payloadHash == PayloadHash(h, ev.payload.value)
    && ev.prevHash == Root(es[..i])
    && ev.hash == ChainHash(h, ev.prevHash, ev.payloadHash)
  }

  ghost predicate Verified(h: Digest, taskId: string, es: seq<Event>) {
    forall i | 0 <= i < |es| :: EventOk(h, taskId, es, i)
  }

  method Verify(h: Digest, taskId: string, es: seq<Event>) returns (ok: bool)
    requires forall i | 0 <= i < |es| && es[i].payload.Some? && es[i].payload.value.Obj? ::
      WellFormed(es[i].payload.value)
    ensures ok <==> Verified(h, taskId, es)
  {
    var prev := GENESIS;
    for i := 0 to |es|
      invariant prev == Root(es[..i])
      invariant forall j | 0 <= j < i :: EventOk(h, taskId, es, j)
    {
      var ev := es[i];
      if ev.taskId != taskId || ev.seqNo != i || ev.payload.None? || !ev.payload.value.Obj? {
        assert !EventOk(h, taskId, es, i);
        return false;
      }
      var text := CanonicalText(ev.payload.value);
      if h(text) != ev.payloadHash {
        assert !EventOk(h, taskId, es, i);
        return false;
      }
      if ev.prevHash != prev || ev.hash != ChainHash(h, prev, ev.payloadHash) {
        assert !EventOk(h, taskId, es, i);
        return false;
      }
      prev := ev.hash;
    }
    return true;
  }

  method Append(h: Digest, taskId: string, es: seq<Event>, kind: Kind, payload: Json) returns (r: seq<Event>)
    requires IsPayload(payload)
    ensures |r| == |es| + 1 && r[..|es|] == es
    ensures r[|es|].kind == kind && r[|es|].payload == Some(payload)
    ensures Root(r) == ChainHash(h, Root(es), PayloadHash(h, payload))
    ensures Verified(h, taskId, es) <==> Verified(h, taskId, r)
  {
    var body := CanonicalText(payload);
    var payloadHash := h(body);
    var ev := Event(taskId, |es|, kind, payloadHash, Some(payload), Root(es), ChainHash(h, Root(es), payloadHash));
    r := es + [ev];
    PrefixEvents(h, taskId, es, r);
    assert r[..|es|] == es;
    assert EventOk(h, taskId, r, |es|);
  }

  lemma PrefixEvents(h: Digest, taskId: string, es: seq<Event>, r: seq<Event>)
    requires |es| <= |r| && r[..|es|] == es
    ensures forall i | 0 <= i < |es| :: EventOk(h, taskId, es, i) <==> EventOk(h, taskId, r, i)
  {
    forall i | 0 <= i < |es| ensures EventOk(h, taskId, es, i) <==> EventOk(h, taskId, r, i) {
      assert es[i] == r[i] && es[..i] == r[..i];
    }
  }

  // ---- what verification demands, field by field -------------------------------

  ghost predicate EventFields(h: Digest, taskId: string, es: seq<Event>, i: nat)
    requires i < |es|
  {
    && es[i].taskId == taskId && es[i].seqNo == i
    && es[i].payload.Some? && es[i].payload.value.Obj? && WellFormed(es[i].payload.value)
    && es[i].payloadHash == h(Text(es[i].payload.value))
    && es[i].prevHash == (if i == 0 then GENESIS else es[i - 1].hash)
    && es[i].hash == h(es[i].prevHash + es[i].payloadHash)
  }

  lemma FieldsIff(h: Digest, taskId: string, es: seq<Event>, i: nat)
    requires i < |es|
    ensures EventOk(h, taskId, es, i) <==> EventFields(h, taskId, es, i)
  {
    assert Root(es[..i]) == if i == 0 then GENESIS else es[i - 1].hash;
  }

  /** Each event carries its task and position, the digest of its payload, and the chain up to itself. */
  lemma VerifiedIff(h: Digest, taskId: string, es: seq<Event>)
    ensures Verified(h, taskId, es) <==> forall i | 0 <= i < |es| :: EventFields(h, taskId, es, i)
  {
    if Verified(h, taskId, es) {
      forall i | 0 <= i < |es| ensures EventFields(h, taskId, es, i) {
        assert EventOk(h, taskId, es, i);
        FieldsIff(h, taskId, es, i);
      }
    }
    if forall i | 0 <= i < |es| :: EventFields(h, taskId, es, i) {
      forall i | 0 <= i < |es| ensures EventOk(h, taskId, es, i) { FieldsIff(h, taskId, es, i); }
    }
  }

  /** Whoever may rewrite every other field cannot: payloads and kinds determine a verified chain. */
  lemma {:induction false} VerifiedIsDetermined(h: Digest, taskId: string, a: seq<Event>, b: seq<Event>)
    requires Verified(h, taskId, a) && Verified(h, taskId, b) && |a| == |b|
    requires forall i | 0 <= i < |a| :: a[i].payload == b[i].payload && a[i].kind == b[i].kind
    ensures a == b
  {
    if a != [] {
      var n := |a| - 1;
      PrefixEvents(h, taskId, a[..n], a);
      PrefixEvents(h, taskId, b[..n], b);
      VerifiedIsDetermined(h, taskId, a[..n], b[..n]);
      assert EventOk(h, taskId, a, n) && EventOk(h, taskId, b, n);
      assert a == a[..n] + [a[n]] && b == b[..n] + [b[n]];
    }
  }

  /** The kind is the one field no digest covers. */
  lemma KindIsNotCovered(h: Digest, taskId: string, es: seq<Event>, i: nat, kind: Kind)
    requires i < |es| && Verified(h, taskId, es)
    ensures Verified(h, taskId, es[i := es[i].(kind := kind)])
  {
    var changed := es[i := es[i].(kind := kind)];
    forall j | 0 <= j < |es| ensures EventOk(h, taskId, changed, j) {
      assert EventOk(h, taskId, es, j) && Root(changed[..j]) == Root(es[..j]);
    }
  }

  // ---- tamper evidence -----------------------------------------------------

  /** What two verified chains with one root hash are: one history, or a broken digest. */
  datatype Finding =
    | SameHistory
    | Collision(x: string, y: string)
    | GenesisPreimage(x: string)

  ghost predicate SamePayload(x: Event, y: Event) {
    x.payload.Some? && y.payload.Some? && Meaning(x.payload.value) == Meaning(y.payload.value)
  }

  ghost predicate SamePayloads(a: seq<Event>, b: seq<Event>) {
    |a| == |b| && forall i | 0 <= i < |a| :: SamePayload(a[i], b[i])
  }

  /** The last event's digest input. */
  ghost function LinkText(es: seq<Event>): string
    requires es != []
  {
    es[|es| - 1].prevHash + es[|es| - 1].payloadHash
  }

  lemma LastLink(h: Digest, taskId: string, es: seq<Event>)
    requires Digests(h) && Verified(h, taskId, es) && es != []
    ensures h(LinkText(es)) == Root(es)
    ensures Verified(h, taskId, es[..|es| - 1])
    ensures |es[|es| - 1].prevHash| == 64 && es[|es| - 1].prevHash == Root(es[..|es| - 1])
  {
    var n := |es| - 1;
    assert EventOk(h, taskId, es, n);
    PrefixEvents(h, taskId, es[..n], es);
    if n > 0 { assert EventOk(h, taskId, es, n - 1); }
  }

  /** Equal links are equal in both halves; then equal payload hashes come from one payload text or collide. */
  ghost function CompareLast(h: Digest, ta: string, a: seq<Event>, tb: string, b: seq<Event>): (f: Finding)
    requires Digests(h) && Verified(h, ta, a) && Verified(h, tb, b) && Root(a) == Root(b) && a != [] && b != []
    ensures !f.GenesisPreimage?
    ensures f.SameHistory? ==> SamePayload(a[|a| - 1], b[|b| - 1])
    ensures f.SameHistory? ==> Root(a[..|a| - 1]) == Root(b[..|b| - 1])
    ensures f.Collision? ==> f.x != f.y && h(f.x) == h(f.y)
    ensures Verified(h, ta, a[..|a| - 1]) && Verified(h, tb, b[..|b| - 1])
  {
    LastLink(h, ta, a);
    LastLink(h, tb, b);
    var x, y := a[|a| - 1], b[|b| - 1];
    if LinkText(a) != LinkText(b) then Collision(LinkText(a), LinkText(b)) else
    assert x.prevHash == LinkText(a)[..64] == y.prevHash;
    assert x.payloadHash == LinkText(a)[64..] == y.payloadHash;
    assert EventOk(h, ta, a, |a| - 1) && EventOk(h, tb, b, |b| - 1);
    if Text(x.payload.value) != Text(y.payload.value) then Collision(Text(x.payload.value), Text(y.payload.value)) else
    SameTextIffSameMeaning(x.payload.value, y.payload.value);
    SameHistory
  }

  lemma OneMoreSame(a: seq<Event>, b: seq<Event>)
    requires a != [] && b != [] && SamePayloads(a[..|a| - 1], b[..|b| - 1]) && SamePayload(a[|a| - 1], b[|b| - 1])
    ensures SamePayloads(a, b)
  {
    forall i | 0 <= i < |a| - 1 ensures SamePayload(a[i], b[i]) {
      assert SamePayload(a[..|a| - 1][i], b[..|b| - 1][i]);
    }
  }

  /** Walk two chains with equal roots back to GENESIS, stopping at the first broken digest. */
  ghost function Compare(h: Digest, ta: string, a: seq<Event>, tb: string, b: seq<Event>): (f: Finding)
    requires Digests(h) && Verified(h, ta, a) && Verified(h, tb, b) && Root(a) == Root(b)
    ensures f.SameHistory? ==> SamePayloads(a, b)
    ensures f.Collision? ==> f.x != f.y && h(f.x) == h(f.y)
    ensures f.GenesisPreimage? ==> h(f.x) == GENESIS
    decreases |a|
  {
    if a == [] && b == [] then SameHistory
    else if a == [] then LastLink(h, tb, b); GenesisPreimage(LinkText(b))
    else if b == [] then LastLink(h, ta, a); GenesisPreimage(LinkText(a))
    else
      var last := CompareLast(h, ta, a, tb, b);
      if !last.SameHistory? then last else
      var earlier := Compare(h, ta, a[..|a| - 1], tb, b[..|b| - 1]);
      assert earlier.SameHistory? ==> SamePayloads(a, b) by { if earlier.SameHistory? { OneMoreSame(a, b); } }
      earlier
  }

  /** The converse: the root hash is a function of what the payloads mean, and of nothing else. */
  lemma {:induction false} RootOfSamePayloads(h: Digest, ta: string, a: seq<Event>, tb: string, b: seq<Event>)
    requires Digests(h) && Verified(h, ta, a) && Verified(h, tb, b)
    requires SamePayloads(a, b)
    ensures Root(a) == Root(b)
    decreases |a|
  {
    if a != [] {
      var n := |a| - 1;
      LastLink(h, ta, a);
      LastLink(h, tb, b);
      assert EventOk(h, ta, a, n) && EventOk(h, tb, b, n) && SamePayload(a[n], b[n]);
      SameTextIffSameMeaning(a[n].payload.value, b[n].payload.value);
      RootOfSamePayloads(h, ta, a[..n], tb, b[..n]);
    }
  }
}
