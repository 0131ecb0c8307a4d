/**
 What the edge's search for task numbers accepts, with every character spelled out
 (edge/internal/dingtalk/anchor.go).
 */
module TaskMentions {
  import opened Texts
  import opened TaskNo

  const DIGITS: string := "0123456789"
  const CAPITALS: string := "ABCDEFGHIJKLMNOPQRSTUVWXYZ"
  const SMALLS: string := "abcdefghijklmnopqrstuvwxyz"

  /** One of the digits the core prints, or a small letter among them, or a long s or a Kelvin sign. */
  predicate IsDigitSpelling(c: char) {
    c in "0123456789ABCDEFGHJKMNPQRSTVWXYZ" || c in "abcdefghjkmnpqrstvwxyz" || c == '\U{17F}' || c == '\U{212A}'
  }

  predicate IsAsciiLetterOrDigit(c: char) { c in DIGITS || c in CAPITALS || c in SMALLS }

  /** The capital of a small letter, S for a long s, and any other character as it stands. */
  predicate IsCapitalOf(upper: char, c: char) {
    if c in SMALLS then exists i :: 0 <= i < 26 && c == SMALLS[i] && upper == CAPITALS[i]
    else if c == '\U{17F}' then upper == 'S'
    else upper == c
  }

  // ---- characters -----------------------------------------------------------------------

  lemma LetterAt(i: nat)
    requires i < 26
    ensures SMALLS[i] == 'a' + i as char && CAPITALS[i] == 'A' + i as char
  {
  }

  lemma LetterIff(c: char)
    ensures c in SMALLS <==> 'a' <= c <= 'z'
    ensures c in CAPITALS <==> 'A' <= c <= 'Z'
  {
    if 'a' <= c <= 'z' { LetterAt((c - 'a') as nat); }
    if 'A' <= c <= 'Z' { LetterAt((c - 'A') as nat); }
    if i :| 0 <= i < |SMALLS| && SMALLS[i] == c { LetterAt(i); }
    if i :| 0 <= i < |CAPITALS| && CAPITALS[i] == c { LetterAt(i); }
  }

  lemma AlnumIs(c: char)
    ensures IsAsciiAlnum(c) <==> IsAsciiLetterOrDigit(c)
  {
    LetterIff(c);
    if '0' <= c <= '9' { assert c == DIGITS[(c - '0') as nat]; }
  }

  lemma UpperIs(c: char, upper: char)
    ensures Upper(c) == upper <==> IsCapitalOf(upper, c)
  {
    LetterIff(c);
    if 'a' <= c <= 'z' {
      var i := (c - 'a') as nat;
      LetterAt(i);
      forall j | 0 <= j < 26 && c == SMALLS[j] ensures j == i { LetterAt(j); }
    }
  }

  lemma AlphabetIs(c: char)
    ensures InAlphabet(c) <==> c in "0123456789ABCDEFGHJKMNPQRSTVWXYZ"
  {
    if InAlphabet(c) { DigitOfValue(c); }
    if c in B32 {
      var d :| 0 <= d < |B32| && B32[d] == c;
      AlphabetsAgree(d);
    }
  }

  lemma SmallAlphabetIs(c: char)
    requires 'a' <= c <= 'z'
    ensures InAlphabet(c - ' ') <==> c in "abcdefghjkmnpqrstvwxyz"
  {
    if InAlphabet(c - ' ') { assert c == "__________abcdefghjkmnpqrstvwxyz"[Value(c - ' ')]; }
  }

  /** Which characters count as digits of a task number. */
  lemma DigitFoldIs(c: char)
    ensures IsDigitFold(c) <==> IsDigitSpelling(c)
  {
    AlphabetIs(Upper(c));
    AlphabetIs(c);
    if 'a' <= c <= 'z' { SmallAlphabetIs(c); }
  }

  // ---- where a number stands in a text ------------------------------------------------------

  /** What stands behind the digits does not go on with them. */
  predicate Ended(text: string, end: nat)
    requires end <= |text|
  {
    end == |text| || !(IsDigitSpelling(text[end]) || IsAsciiLetterOrDigit(text[end]))
  }

  /** '#', an A of either case, then digits, with neither a further digit nor an ASCII letter behind them. */
  predicate Stands(text: string, i: nat, digits: string) {
    var end := i + 2 + |digits|;
    && end <= |text| && text[i] == '#' && text[i + 1] in "aA"
    && digits != "" && text[i + 2..end] == digits && (forall c | c in digits :: IsDigitSpelling(c))
    && Ended(text, end)
  }

  predicate IsCapitalized(upper: string, s: string) {
    |upper| == |s| && forall k | 0 <= k < |s| :: IsCapitalOf(upper[k], s[k])
  }

  lemma CapitalizedIs(upper: string, s: string)
    ensures IsCapitalized(upper, s) <==> upper == UpperAll(s)
  {
    forall k | 0 <= k < |s| && |upper| == |s| ensures upper[k] == UpperAll(s)[k] <==> IsCapitalOf(upper[k], s[k]) {
      UpperIs(s[k], upper[k]);
    }
  }

  lemma LetterAIs(c: char)
    ensures Upper(c) == 'A' <==> c in "aA"
  {
  }

  lemma SpelledRun(text: string, from: nat, end: nat)
    requires from <= end <= |text| && Ended(text, end) && forall c | c in text[from..end] :: IsDigitSpelling(c)
    ensures RunEnd(text, from) == end && (end == |text| || !IsAsciiAlnum(text[end]))
  {
    forall k | from <= k < end ensures IsDigitFold(text[k]) {
      assert text[k] == text[from..end][k - from];
      DigitFoldIs(text[k]);
    }
    RunEndOf(text, from, end);
    if end < |text| {
      DigitFoldIs(text[end]);
      AlnumIs(text[end]);
    }
  }

  lemma StandsThenMentions(text: string, i: nat, digits: string)
    requires Stands(text, i, digits)
    ensures Mentions(text, i) && digits == text[i + 2..RunEnd(text, i + 2)]
  {
    SpelledRun(text, i + 2, i + 2 + |digits|);
    LetterAIs(text[i + 1]);
    assert text[i + 2] == digits[0];
    DigitFoldIs(text[i + 2]);
  }

  lemma RunSpells(text: string, from: nat, digits: string)
    requires from <= |text| && digits == text[from..RunEnd(text, from)]
    ensures forall c | c in digits :: IsDigitSpelling(c)
  {
    forall c | c in digits ensures IsDigitSpelling(c) {
      var k :| 0 <= k < |digits| && digits[k] == c;
      assert text[from + k] == c && IsDigitFold(text[from + k]);
      DigitFoldIs(c);
    }
  }

  lemma RunEnded(text: string, from: nat)
    requires from <= |text|
    requires var end := RunEnd(text, from); end == |text| || !IsAsciiAlnum(text[end])
    ensures Ended(text, RunEnd(text, from))
  {
    var end := RunEnd(text, from);
    if end < |text| {
      DigitFoldIs(text[end]);
      AlnumIs(text[end]);
    }
  }

  lemma MentionsThenStands(text: string, i: nat)
    requires Mentions(text, i)
    ensures Stands(text, i, text[i + 2..RunEnd(text, i + 2)])
  {
    LetterAIs(text[i + 1]);
    RunSpells(text, i + 2, text[i + 2..RunEnd(text, i + 2)]);
    RunEnded(text, i + 2);
    RunIsNotEmpty(text, i + 2);
  }

  lemma RunIsNotEmpty(text: string, from: nat)
    requires from < |text| && IsDigitFold(text[from])
    ensures RunEnd(text, from) > from
  {
  }

  ghost predicate FirstStands(text: string, i: nat, digits: string) {
    Stands(text, i, digits) && forall j: nat, others: string | Stands(text, j, others) :: i <= j
  }

  ghost predicate FoundAt(text: string, i: nat, digits: string, found: string) {
    FirstStands(text, i, digits) && IsCapitalized(found, "#A" + digits)
  }

  /** What is found is the first number that stands in the text, its letters capitals; nothing if none stands there. */
  lemma FoundIff(text: string, found: string)
    ensures TaskNoOf(text) == Some(found) <==> exists i: nat, digits: string :: FoundAt(text, i, digits, found)
  {
    if i: nat, digits: string :| FoundAt(text, i, digits, found) { FirstIsFound(text, i, digits, found); }
    if TaskNoOf(text) == Some(found) { var i, digits := FoundHasPlace(text, found); }
  }

  lemma FoundHasPlace(text: string, found: string) returns (i: nat, digits: string)
    requires TaskNoOf(text) == Some(found)
    ensures FoundAt(text, i, digits, found)
  {
    ScanFindsNothingIff(text, 0);
    var k: nat :| Mentions(text, k);
    i := FirstMention(text, k);
    digits := text[i + 2..RunEnd(text, i + 2)];
    MentionIsFirst(text, i);
    ScanFindsFirstMention(text, 0, i);
    PrefixedUpper(digits);
    CapitalizedIs(found, "#A" + digits);
  }

  lemma PrefixedUpper(digits: string)
    ensures UpperAll("#A" + digits) == "#A" + UpperAll(digits)
  {
  }

  lemma FirstIsFound(text: string, i: nat, digits: string, found: string)
    requires FoundAt(text, i, digits, found)
    ensures TaskNoOf(text) == Some(found)
  {
    StandsThenMentions(text, i, digits);
    forall j | 0 <= j < i ensures !Mentions(text, j) {
      if Mentions(text, j) { MentionsThenStands(text, j); }
    }
    ScanFindsFirstMention(text, 0, i);
    CapitalizedIs(found, "#A" + digits);
    PrefixedUpper(digits);
  }

  lemma {:induction false} FirstMention(text: string, k: nat) returns (i: nat)
    requires Mentions(text, k)
    ensures i <= k && Mentions(text, i) && forall j | 0 <= j < i :: !Mentions(text, j)
  {
    i := k;
    if j :| 0 <= j < k && Mentions(text, j) { i := FirstMention(text, j); }
  }

  lemma MentionIsFirst(text: string, i: nat)
    requires Mentions(text, i) && forall j | 0 <= j < i :: !Mentions(text, j)
    ensures FirstStands(text, i, text[i + 2..RunEnd(text, i + 2)])
  {
    MentionsThenStands(text, i);
    forall j: nat, others: string | Stands(text, j, others) ensures i <= j { StandsThenMentions(text, j, others); }
  }

  // ---- either case ------------------------------------------------------------------------------

  /** The text of a printed number with any of its letters made small. */
  predicate IsRespelling(spelled: string, printed: string) {
    |spelled| == |printed| && forall k | 0 <= k < |printed| ::
      spelled[k] == printed[k] || exists i :: 0 <= i < 26 && printed[k] == CAPITALS[i] && spelled[k] == SMALLS[i]
  }

  /** A printed number is found in whatever mix of cases it is written. */
  lemma RespelledIsFound(prefix: string, n: nat, spelled: string, suffix: string)
    requires n >= 1 && IsRespelling(spelled, Encoded(n)) && '#' !in prefix && '#' !in suffix
    ensures TaskNoOf(prefix + spelled + suffix) == Some(Encoded(n)) <==>
      suffix == "" || !(IsDigitSpelling(suffix[0]) || IsAsciiLetterOrDigit(suffix[0]))
  {
    var printed := Encoded(n);
    NumberOfDigits(n);
    forall k | 0 <= k < |printed| ensures Upper(spelled[k]) == printed[k] {
      assert k >= 2 ==> printed[k] == Digits(n)[k - 2];
      RespelledUpper(spelled[k], printed[k]);
    }
    assert UpperAll(spelled) == printed;
    PrintedIsFoundIff(prefix, n, spelled, suffix);
    if suffix != "" {
      DigitFoldIs(suffix[0]);
      AlnumIs(suffix[0]);
    }
  }

  lemma RespelledUpper(c: char, printed: char)
    requires c == printed || exists i :: 0 <= i < 26 && printed == CAPITALS[i] && c == SMALLS[i]
    requires InAlphabet(printed) || printed == '#'
    ensures Upper(c) == printed
  {
    if c != printed {
      var i :| 0 <= i < 26 && printed == CAPITALS[i] && c == SMALLS[i];
      LetterAt(i);
    }
  }
}
