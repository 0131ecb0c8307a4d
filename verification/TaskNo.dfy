/**
 Task numbers: printed by the core (core/crates/contracts/src/session.rs) and found again in chat
 text by the edge (edge/internal/dingtalk/anchor.go), each with its own idea of the alphabet.
 */
module TaskNo {
  import opened Texts

  /** Crockford base 32: no I, L, O, U. */
  const B32 := "0123456789ABCDEFGHJKMNPQRSTVWXYZ"

  // ---- printing ---------------------------------------------------------------

  /** The base 32 numeral of n, most significant digit first; none for 0. */
  function Digits(n: nat): string {
    if n == 0 then "" else Digits(n / 32) + [B32[n % 32]]
  }

  function Reversed(s: string): string {
    if s == "" then "" else Reversed(s[1..]) + [s[0]]
  }

  lemma {:induction false} ReversedSnoc(s: string, c: char)
    ensures Reversed(s + [c]) == [c] + Reversed(s)
  {
    if s == "" {
      assert (s + [c])[1..] == "";
    } else {
      assert (s + [c])[1..] == s[1..] + [c];
      ReversedSnoc(s[1..], c);
    }
  }

  function Encoded(n: nat): string { "#A" + Digits(n) }

  method EncodeTaskNo(n: nat) returns (r: Result<string, nat>)
    ensures r == if n < 1 then Err(n) else Ok(Encoded(n))
  {
    if n < 1 { return Err(n); }
    var m, digits := n, "";
    while m > 0
      invariant Digits(m) + Reversed(digits) == Digits(n)
    {
      ghost var c := B32[m % 32];
      ReversedSnoc(digits, c);
      assert Digits(m / 32) + ([c] + Reversed(digits)) == Digits(m) + Reversed(digits);
      digits := digits + [B32[m % 32]];
      m := m / 32;
    }
    assert Digits(0) + Reversed(digits) == Reversed(digits);
    return Ok("#A" + Reversed(digits));
  }

  /** The digits the edge accepts, before case folding. */
  predicate InAlphabet(c: char) {
    || '0' <= c <= '9' || 'A' <= c <= 'H' || 'J' <= c <= 'K'
    || 'M' <= c <= 'N' || 'P' <= c <= 'T' || 'V' <= c <= 'Z'
  }

  function Value(c: char): (v: nat)
    requires InAlphabet(c)
    ensures v < 32
  {
    if c <= '9' then (c - '0') as nat
    else if c <= 'H' then (c - 'A') as nat + 10
    else if c <= 'K' then (c - 'J') as nat + 18
    else if c <= 'N' then (c - 'M') as nat + 20
    else if c <= 'T' then (c - 'P') as nat + 22
    else (c - 'V') as nat + 27
  }

  /** The core's alphabet and the edge's ranges name the same 32 digits in the same order. */
  lemma AlphabetsAgree(d: nat)
    requires d < 32
    ensures InAlphabet(B32[d]) && Value(B32[d]) == d
  {
    if d < 10 {} else if d < 18 {} else if d < 22 {} else if d < 27 {} else {}
  }

  lemma DigitOfValue(c: char)
    requires InAlphabet(c)
    ensures B32[Value(c)] == c
  {
  }

  predicate AllInAlphabet(s: string) { forall i | 0 <= i < |s| :: InAlphabet(s[i]) }

  function Number(digits: string): nat
    requires AllInAlphabet(digits)
  {
    if digits == "" then 0 else 32 * Number(digits[..|digits| - 1]) + Value(digits[|digits| - 1])
  }

  lemma NumberSnoc(front: string, c: char)
    requires AllInAlphabet(front) && InAlphabet(c)
    ensures AllInAlphabet(front + [c]) && Number(front + [c]) == 32 * Number(front) + Value(c)
    ensures front != "" ==> (front + [c])[0] == front[0]
  {
    assert (front + [c])[..|front|] == front;
  }

  /** Reading a printed number gives it back, so printing is injective; it never starts with a zero. */
  lemma {:induction false} NumberOfDigits(n: nat)
    ensures AllInAlphabet(Digits(n)) && Number(Digits(n)) == n
    ensures n > 0 ==> Digits(n) != "" && Digits(n)[0] != '0'
  {
    if n > 0 {
      NumberOfDigits(n / 32);
      AlphabetsAgree(n % 32);
      NumberSnoc(Digits(n / 32), B32[n % 32]);
      if Digits(n / 32) == "" {
        assert Value('0') == 0;
        assert Digits(n)[0] == B32[n % 32];
      }
    }
  }

  lemma {:induction false} OneNumeral(s: string, t: string)
    requires AllInAlphabet(s) && AllInAlphabet(t) && (s == "" || s[0] != '0') && (t == "" || t[0] != '0')
    requires Number(s) == Number(t)
    ensures s == t
    decreases |s| + |t|
  {
    if s == "" || t == "" {
      NumberIsPositive(s);
      NumberIsPositive(t);
    } else {
      var front, front' := s[..|s| - 1], t[..|t| - 1];
      DigitOfValue(s[|s| - 1]);
      DigitOfValue(t[|t| - 1]);
      assert Number(front) == Number(front') && Value(s[|s| - 1]) == Value(t[|t| - 1]);
      OneNumeral(front, front');
      assert s == front + [s[|s| - 1]] && t == front' + [t[|t| - 1]];
    }
  }

  lemma {:induction false} NumberIsPositive(s: string)
    requires AllInAlphabet(s) && (s == "" || s[0] != '0')
    ensures Number(s) > 0 <==> s != ""
  {
    if |s| > 1 { NumberIsPositive(s[..|s| - 1]); }
  }

  /** Every numeral without a leading zero is printed for some number. */
  lemma DigitsOfNumber(s: string)
    requires AllInAlphabet(s) && (s == "" || s[0] != '0')
    ensures Digits(Number(s)) == s
    ensures s != "" ==> Number(s) > 0
  {
    NumberIsPositive(s);
    NumberOfDigits(Number(s));
    OneNumeral(Digits(Number(s)), s);
  }

  lemma EncodingIsInjective(m: nat, n: nat)
    ensures Encoded(m) == Encoded(n) <==> m == n
  {
    NumberOfDigits(m);
    NumberOfDigits(n);
    assert Encoded(m)[2..] == Digits(m) && Encoded(n)[2..] == Digits(n);
  }

  lemma EncodingVectors()
    ensures Encoded(1) == "#A1" && Encoded(17) == "#AH" && Encoded(32) == "#A10" && Encoded(1000) == "#AZ8"
  {
    assert Digits(31) == "Z" && Digits(1) == "1" && Digits(17) == "H";
    assert Digits(32) == Digits(1) + "0" && Digits(1000) == Digits(31) + "8";
  }

  // ---- scanning ------------------------------------------------------------------

  predicate IsAsciiAlnum(c: char) { '0' <= c <= '9' || 'a' <= c <= 'z' || 'A' <= c <= 'Z' }

  /** Upper case, for the characters the pattern lets through: the long s is a lower-case S, the Kelvin sign is not. */
  function Upper(c: char): char {
    if 'a' <= c <= 'z' then c - ' '
    else if c == '\U{17F}' then 'S'
    else c
  }

  /** The case-insensitive digit class; folding also admits the Kelvin sign and the long s. */
  predicate IsDigitFold(c: char) { InAlphabet(Upper(c)) || c == '\U{212A}' }

  function UpperAll(s: string): (r: string)
    ensures |r| == |s| && forall i | 0 <= i < |s| :: r[i] == Upper(s[i])
  {
    seq(|s|, i requires 0 <= i < |s| => Upper(s[i]))
  }

  /** How far the digits reach from position i. */
  function RunEnd(text: string, i: nat): (end: nat)
    requires i <= |text|
    ensures i <= end <= |text| && (forall k | i <= k < end :: IsDigitFold(text[k]))
    ensures end < |text| ==> !IsDigitFold(text[end])
    decreases |text| - i
  {
    if i < |text| && IsDigitFold(text[i]) then RunEnd(text, i + 1) else i
  }

  predicate MatchesAt(text: string, i: nat) {
    i + 2 < |text| && text[i] == '#' && Upper(text[i + 1]) == 'A' && IsDigitFold(text[i + 2])
  }

  /** The scan from position i: leftmost match, longest run, and on after a rejected match. */
  function ScanFrom(text: string, i: nat): Option<string>
    decreases |text| - i
  {
    if i >= |text| then None
    else if !MatchesAt(text, i) then ScanFrom(text, i + 1)
    else
      var end := RunEnd(text, i + 2);
      if end < |text| && IsAsciiAlnum(text[end]) then ScanFrom(text, end)
      else Some("#A" + UpperAll(text[i + 2..end]))
  }

  function TaskNoOf(text: string): Option<string> { ScanFrom(text, 0) }

  /** A mention: '#', an A, and digits up to something that is neither a digit nor an ASCII letter. */
  predicate Mentions(text: string, i: nat) {
    MatchesAt(text, i) && var end := RunEnd(text, i + 2); end == |text| || !IsAsciiAlnum(text[end])
  }

  lemma RejectedHidesNothing(text: string, i: nat)
    requires MatchesAt(text, i) && !Mentions(text, i)
    ensures forall k | i <= k < RunEnd(text, i + 2) :: !Mentions(text, k)
  {
    forall k | i <= k < RunEnd(text, i + 2) ensures !Mentions(text, k) {
      if k >= i + 2 { assert IsDigitFold(text[k]); }
    }
  }

  /** The scan finds nothing exactly when there is no mention. */
  lemma {:induction false} ScanFindsNothingIff(text: string, i: nat)
    ensures ScanFrom(text, i).None? <==> forall k | i <= k :: !Mentions(text, k)
    decreases |text| - i
  {
    if i < |text| {
      if !MatchesAt(text, i) {
        ScanFindsNothingIff(text, i + 1);
      } else if !Mentions(text, i) {
        RejectedHidesNothing(text, i);
        ScanFindsNothingIff(text, RunEnd(text, i + 2));
      }
    }
  }

  /** What it finds is the first mention. */
  lemma {:induction false} ScanFindsFirstMention(text: string, i: nat, k: nat)
    requires i <= k && Mentions(text, k) && forall j | i <= j < k :: !Mentions(text, j)
    ensures ScanFrom(text, i) == Some("#A" + UpperAll(text[k + 2..RunEnd(text, k + 2)]))
    decreases |text| - i
  {
    if !MatchesAt(text, i) {
      ScanFindsFirstMention(text, i + 1, k);
    } else if !Mentions(text, i) {
      RejectedHidesNothing(text, i);
      ScanFindsFirstMention(text, RunEnd(text, i + 2), k);
    }
  }

  // ---- from printing to scanning ---------------------------------------------------

  /** What may follow a task number: nothing, or a character that does not go on with it. */
  predicate EndsNumber(suffix: string) {
    suffix == "" || (!IsAsciiAlnum(suffix[0]) && !IsDigitFold(suffix[0]))
  }

  lemma {:induction false} RunEndOf(text: string, i: nat, end: nat)
    requires i <= end <= |text| && forall k | i <= k < end :: IsDigitFold(text[k])
    ensures RunEnd(text, i) == RunEnd(text, end)
    decreases end - i
  {
    if i < end { RunEndOf(text, i + 1, end); }
  }

  lemma {:induction false} NoHashNoMatch(text: string, i: nat, j: nat)
    requires i <= j <= |text| && forall k | i <= k < j :: text[k] != '#'
    ensures ScanFrom(text, i) == ScanFrom(text, j)
    decreases j - i
  {
    if i < j { NoHashNoMatch(text, i + 1, j); }
  }

  /** A printed number survives folding to lower case, in part or in whole. */
  lemma SpelledIsMatched(n: nat, spelled: string)
    requires n >= 1 && UpperAll(spelled) == Encoded(n)
    ensures |spelled| >= 3 && spelled[0] == '#' && Upper(spelled[1]) == 'A'
    ensures forall k | 2 <= k < |spelled| :: IsDigitFold(spelled[k])
    ensures UpperAll(spelled[2..]) == Digits(n)
  {
    NumberOfDigits(n);
    var e, d := Encoded(n), Digits(n);
    assert e[0] == '#' && e[1] == 'A' && e[2..] == d;
    assert Upper(spelled[0]) == '#' && Upper(spelled[1]) == 'A';
    forall k | 2 <= k < |spelled| ensures IsDigitFold(spelled[k]) && Upper(spelled[k]) == d[k - 2] {
      assert e[k] == e[2..][k - 2];
      assert InAlphabet(d[k - 2]);
    }
    assert UpperAll(spelled[2..]) == d;
  }

  /** Where the printed number stands in the text, from its '#' at p to its end at q. */
  lemma Placed(prefix: string, n: nat, spelled: string, suffix: string) returns (text: string, p: nat, q: nat)
    requires n >= 1 && UpperAll(spelled) == Encoded(n) && '#' !in prefix
    ensures text == prefix + spelled + suffix && p + 3 <= q <= |text| && text[q..] == suffix
    ensures MatchesAt(text, p) && (forall k | 0 <= k < p :: text[k] != '#')
    ensures (forall k | p + 2 <= k < q :: IsDigitFold(text[k])) && UpperAll(text[p + 2..q]) == Digits(n)
  {
    text, p, q := prefix + spelled + suffix, |prefix|, |prefix| + |spelled|;
    SpelledIsMatched(n, spelled);
    assert text[p..q] == spelled;
    forall k | p <= k < q ensures text[k] == spelled[k - p] {}
    assert text[p + 2..q] == spelled[2..];
    forall k | 0 <= k < p ensures text[k] != '#' { assert text[k] == prefix[k]; }
  }

  /** The same without a condition on what comes later in the text. */
  lemma PrintedIsFound(prefix: string, n: nat, spelled: string, suffix: string)
    requires n >= 1 && UpperAll(spelled) == Encoded(n) && '#' !in prefix && EndsNumber(suffix)
    ensures TaskNoOf(prefix + spelled + suffix) == Some(Encoded(n))
  {
    var text, p, q := Placed(prefix, n, spelled, suffix);
    NoHashNoMatch(text, 0, p);
    RunEndOf(text, p + 2, q);
    if q < |text| { assert text[q..][0] == text[q]; }
  }

  /**
   Across the two languages: a number the core printed, in either case and after text without '#', is
   found by the edge exactly when what follows does not go on with it.
   */
  lemma PrintedIsFoundIff(prefix: string, n: nat, spelled: string, suffix: string)
    requires n >= 1 && UpperAll(spelled) == Encoded(n) && '#' !in prefix && '#' !in suffix
    ensures TaskNoOf(prefix + spelled + suffix) == Some(Encoded(n)) <==> EndsNumber(suffix)
  {
    if EndsNumber(suffix) {
      PrintedIsFound(prefix, n, spelled, suffix);
    } else {
      var text, p, q := Placed(prefix, n, spelled, suffix);
      assert text[q] == text[q..][0];
      NoHashNoMatch(text, 0, p);
      RunEndOf(text, p + 2, q);
      var end := RunEnd(text, q);
      forall k | end <= k < |text| ensures text[k] != '#' { assert text[k] == suffix[k - q]; }
      NoHashNoMatch(text, end, |text|);
      assert |UpperAll(text[p + 2..end])| == end - p - 2 && |Digits(n)| == q - p - 2;
      assert |Encoded(n)| == q - p;
    }
  }

  lemma {:induction false} ScanResult(text: string, i: nat)
    ensures ScanFrom(text, i).Some? ==>
      var t := ScanFrom(text, i).value;
      |t| >= 3 && t[..2] == "#A" && forall k | 2 <= k < |t| :: InAlphabet(t[k]) || t[k] == '\U{212A}'
    decreases |text| - i
  {
    if i < |text| {
      if !MatchesAt(text, i) {
        ScanResult(text, i + 1);
      } else {
        var end := RunEnd(text, i + 2);
        if end < |text| && IsAsciiAlnum(text[end]) { ScanResult(text, end); }
      }
    }
  }

  /** What the edge finds is a number the core can have printed unless it has a leading zero or a Kelvin sign. */
  lemma FoundIsPrintableIff(text: string)
    requires TaskNoOf(text).Some?
    ensures var t := TaskNoOf(text).value;
      |t| >= 3 && ((exists n: nat :: n >= 1 && t == Encoded(n)) <==> t[2] != '0' && '\U{212A}' !in t)
  {
    ScanResult(text, 0);
    var t := TaskNoOf(text).value;
    var digits := t[2..];
    assert t == "#A" + digits;
    if t[2] != '0' && '\U{212A}' !in t {
      assert forall k | 2 <= k < |t| :: t[k] in t && InAlphabet(t[k]);
      DigitsOfNumber(digits);
      assert t == Encoded(Number(digits));
    }
    if n: nat :| n >= 1 && t == Encoded(n) {
      NumberOfDigits(n);
      assert digits == Digits(n);
      assert forall k | 2 <= k < |t| :: t[k] == digits[k - 2];
    }
  }
}
