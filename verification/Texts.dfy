/** Small vocabulary shared by the string-processing models. */
module Texts {

  datatype Option<+T> = None | Some(value: T)

  datatype Result<+T, +E> = Ok(value: T) | Err(error: E)

  lemma Assoc<T>(a: seq<T>, b: seq<T>, c: seq<T>)
    ensures a + b + c == a + (b + c)
  {
  }

  /** The items at the given positions. */
  function ItemsAt<T>(items: seq<T>, at: seq<nat>): (r: seq<T>)
    requires forall m | 0 <= m < |at| :: at[m] < |items|
    ensures |r| == |at| && forall m | 0 <= m < |r| :: r[m] == items[at[m]]
  {
    seq(|at|, m requires 0 <= m < |at| => items[at[m]])
  }

  /** The decimal digit that stands for d. */
  function DigitChar(d: nat): (c: char)
    requires d < 10
    ensures IsDigit(c) && DigitValue(c) == d
  {
    '0' + d as char
  }

  predicate IsDigit(c: char) {
    '0' <= c <= '9'
  }

  function DigitValue(c: char): (d: nat)
    requires IsDigit(c)
    ensures d < 10
  {
    (c - '0') as nat
  }

  predicate AllDigits(s: string) {
    forall i | 0 <= i < |s| :: IsDigit(s[i])
  }

  /** The value of a run of decimal digits, most significant first. */
  function DecimalValue(s: string): nat
    requires AllDigits(s)
  {
    if s == "" then 0 else 10 * DecimalValue(s[..|s| - 1]) + DigitValue(s[|s| - 1])
  }

  /** The shortest decimal numeral for n. */
  function Decimal(n: nat): (s: string)
    ensures s != "" && AllDigits(s) && DecimalValue(s) == n
    ensures |s| > 1 ==> s[0] != '0'
  {
    if n < 10 then
      var s := [DigitChar(n)];
      assert s[..|s| - 1] == "" && DecimalValue(s) == 10 * DecimalValue("") + n;
      s
    else
      var front := Decimal(n / 10);
      var s := front + [DigitChar(n % 10)];
      assert s[..|s| - 1] == front;
      s
  }

  /** How many digits s begins with. */
  function DigitRun(s: string): (n: nat)
    ensures n <= |s| && AllDigits(s[..n])
    ensures n < |s| ==> !IsDigit(s[n])
  {
    if s == "" || !IsDigit(s[0]) then 0 else
    var n := 1 + DigitRun(s[1..]);
    assert s[..n] == [s[0]] + s[1..][..n - 1];
    n
  }

  /** White space as Unicode has it. */
  predicate IsWhiteSpace(c: char) {
    || '\t' <= c <= '\r' || c == ' ' || c == '\U{85}' || c == '\U{A0}'
    || c == '\U{1680}' || '\U{2000}' <= c <= '\U{200A}' || c == '\U{2028}' || c == '\U{2029}'
    || c == '\U{202F}' || c == '\U{205F}' || c == '\U{3000}'
  }

  predicate StartsWith(s: string, p: string) {
    |p| <= |s| && s[..|p|] == p
  }

  predicate EndsWith(s: string, p: string) {
    |p| <= |s| && s[|s| - |p|..] == p
  }

  /** A digit run is exactly as long as a block of digits that no digit follows. */
  lemma {:induction false} DigitRunOfBlock(block: string, rest: string)
    requires AllDigits(block)
    requires rest == "" || !IsDigit(rest[0])
    ensures DigitRun(block + rest) == |block|
    decreases |block|
  {
    if block == "" {
      assert block + rest == rest;
    } else {
      assert (block + rest)[1..] == block[1..] + rest;
      DigitRunOfBlock(block[1..], rest);
    }
  }

  /** The pieces of s between occurrences of sep; always at least one piece. */
  function SplitOn(s: string, sep: char): (pieces: seq<string>)
    ensures |pieces| >= 1
    ensures forall i | 0 <= i < |pieces| :: sep !in pieces[i]
    ensures JoinWith(pieces, sep) == s
  {
    if s == "" then [""] else
    var tail := SplitOn(s[1..], sep);
    if s[0] == sep then
      assert JoinWith([""] + tail, sep) == [sep] + JoinWith(tail, sep) by { assert ([""] + tail)[1..] == tail; }
      [""] + tail
    else
      var pieces := [[s[0]] + tail[0]] + tail[1..];
      assert JoinWith(pieces, sep) == [s[0]] + JoinWith(tail, sep) by { assert pieces[1..] == tail[1..]; }
      pieces
  }

  /** The pieces with sep between neighbours. */
  function JoinWith(pieces: seq<string>, sep: char): string
  {
    if |pieces| == 0 then ""
    else if |pieces| == 1 then pieces[0]
    else pieces[0] + [sep] + JoinWith(pieces[1..], sep)
  }

  /** Splitting undoes joining when no piece holds the separator. */
  lemma {:induction false} SplitOfJoin(pieces: seq<string>, sep: char)
    requires |pieces| >= 1
    requires forall i | 0 <= i < |pieces| :: sep !in pieces[i]
    ensures SplitOn(JoinWith(pieces, sep), sep) == pieces
    decreases |pieces|, |pieces[0]|
  {
    var s := JoinWith(pieces, sep);
    if pieces[0] == "" {
      if |pieces| > 1 {
        assert s[1..] == JoinWith(pieces[1..], sep);
        SplitOfJoin(pieces[1..], sep);
      }
    } else {
      var shorter := [pieces[0][1..]] + pieces[1..];
      assert s[0] == pieces[0][0];
      assert s[1..] == JoinWith(shorter, sep);
      SplitOfJoin(shorter, sep);
      assert pieces[0] == [s[0]] + shorter[0];
    }
  }

  /** Joining is split at any piece boundary by one separator. */
  lemma {:induction false} JoinAppend(a: seq<string>, b: seq<string>, sep: char)
    requires |a| >= 1 && |b| >= 1
    ensures JoinWith(a + b, sep) == JoinWith(a, sep) + [sep] + JoinWith(b, sep)
  {
    if |a| == 1 {
      assert (a + b)[1..] == b;
    } else {
      assert (a + b)[1..] == a[1..] + b;
      JoinAppend(a[1..], b, sep);
    }
  }
}
