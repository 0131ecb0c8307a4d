/**
 Labelling a Markdown file a second time (docker/sandbox/aite/aite_label.py): for every pair of
 payloads, when the second label just replaces the first.
 */
module MarkdownRelabelling {
  import opened Texts
  import opened Markdown

  // ---- lines and text --------------------------------------------------------

  lemma {:induction false} JoinIsTerminated(lines: seq<string>, rest: seq<string>)
    requires rest != []
    ensures JoinWith(lines + rest, '\n') == Terminated(lines) + JoinWith(rest, '\n')
  {
    if lines == [] {
      assert lines + rest == rest;
    } else {
      assert (lines + rest)[1..] == lines[1..] + rest;
      JoinIsTerminated(lines[1..], rest);
      Assoc(lines[0] + "\n", Terminated(lines[1..]), JoinWith(rest, '\n'));
    }
  }

  lemma {:induction false} TerminatedAppend(a: seq<string>, b: seq<string>)
    ensures Terminated(a + b) == Terminated(a) + Terminated(b)
  {
    if a == [] {
      assert a + b == b;
    } else {
      assert (a + b)[1..] == a[1..] + b;
      TerminatedAppend(a[1..], b);
      Assoc(a[0] + "\n", Terminated(a[1..]), Terminated(b));
    }
  }

  /** Every line ended is the lines joined with one more end. */
  lemma TerminatedIsJoined(lines: seq<string>)
    requires lines != []
    ensures Terminated(lines) == JoinWith(lines, '\n') + "\n"
  {
    var front, last := lines[..|lines| - 1], lines[|lines| - 1..];
    assert lines == front + last && last[1..] == [];
    TerminatedAppend(front, last);
    JoinIsTerminated(front, last);
    assert Terminated(last) == last[0] + "\n" + "" == last[0] + "\n";
    Assoc(Terminated(front), last[0], "\n");
  }

  lemma SplitFirstLine(line: string, more: string, rest: string)
    requires OneLine(line)
    ensures SplitLines(line + "\n" + more + rest) == [line] + SplitLines(more + rest)
  {
    Assoc(line + "\n", more, rest);
    SplitAtBreak(line, '\n', more + rest, line + ['\n'] + (more + rest));
  }

  lemma {:induction false} SplitLinesAfter(lines: seq<string>, rest: string)
    requires PlainLines(lines)
    ensures SplitLines(Terminated(lines) + rest) == lines + SplitLines(rest)
  {
    if lines == [] {
      assert Terminated(lines) + rest == rest;
      assert lines + SplitLines(rest) == SplitLines(rest);
    } else {
      SplitLinesAfter(lines[1..], rest);
      SplitFirstLine(lines[0], Terminated(lines[1..]), rest);
      Assoc([lines[0]], lines[1..], SplitLines(rest));
      assert lines == [lines[0]] + lines[1..];
    }
  }

  /** How long an assembled file is. */
  lemma AssembledLength(bom: string, lines: seq<string>, last: string, body: string)
    ensures |Assembled(bom, lines + [last], body)| == |bom| + 9 + |Terminated(lines)| + |last| + |body|
  {
    JoinIsTerminated(lines, [last]);
  }

  // ---- splitting a file with line feeds in its entry ------------------------------

  lemma ClosedAt(lines: seq<string>, rest: seq<string>, inner: seq<string>)
    requires rest != [] && inner == lines + ["---"] + rest
    ensures SplitAtClose(inner).Some?
    ensures SplitAtClose(inner).value.0 == SplitLines(Terminated(lines[..FirstClose(lines)]))
    ensures SplitAtClose(inner).value.1 == JoinWith(inner[FirstClose(lines) + 1..], '\n')
  {
    var i := FirstClose(lines);
    FirstCloseOf(lines, rest);
    assert inner[..i] == lines[..i];
    BodyOfIsJoined(inner[i + 1..]);
  }

  lemma BelowClose(lines: seq<string>, rest: seq<string>, inner: seq<string>, i: nat)
    requires rest != [] && inner == lines + ["---"] + rest && i <= |lines|
    ensures i == |lines| ==> inner[i + 1..] == rest
    ensures i < |lines| ==> |JoinWith(inner[i + 1..], '\n')| > |JoinWith(rest, '\n')|
  {
    if i < |lines| {
      var early := lines[i + 1..] + ["---"];
      assert inner[i + 1..] == early + rest;
      JoinIsTerminated(early, rest);
      TerminatedAppend(lines[i + 1..], ["---"]);
    }
  }

  /** A file assembled of any lines is split at the first line that closes; closing early leaves more for the body. */
  lemma SplitOfLines(bom: string, lines: seq<string>, body: string) returns (parts: Parts)
    requires bom in {"", [BOM]} && lines != [] && NoLineFeed(lines)
    ensures parts == SplitFrontMatter(Assembled(bom, lines, body)) && parts.bom == bom
    ensures parts.lines == Some(SplitLines(Terminated(lines[..FirstClose(lines)])))
    ensures if FirstClose(lines) == |lines| then parts.body == body else |parts.body| > |body|
  {
    var inner, text := AssembledText(bom, lines, body);
    var rest := SplitOn(body, '\n');
    ClosedAt(lines, rest, inner);
    SplitOfOpened(bom, inner, text);
    BelowClose(lines, rest, inner, FirstClose(lines));
    parts := SplitFrontMatter(text);
  }

  lemma LabelOf(text: string, payload: string, parts: Parts, lines: seq<string>)
    requires parts == SplitFrontMatter(text) && parts.lines == Some(lines)
    ensures OtherLines(text) == Kept(lines, |lines|)
    ensures Label(text, payload) == Assembled(parts.bom, Kept(lines, |lines|) + [Entry(payload)], parts.body)
  {
  }

  /** A labelled file is the kept lines and the line-feed lines of the entry. */
  lemma LabelAsLines(text: string, payload: string) returns (lines: seq<string>)
    ensures lines == OtherLines(text) + Cuts(payload) && NoLineFeed(lines)
    ensures Label(text, payload) == Assembled(SplitFrontMatter(text).bom, lines, SplitFrontMatter(text).body)
  {
    var kept, cuts := OtherLines(text), Cuts(payload);
    lines := kept + cuts;
    OtherLinesArePlain(text);
    JoinIsTerminated(kept, [Entry(payload)]);
    JoinIsTerminated(kept, cuts);
    assert NoLineFeed(lines) by { assert IsBreak('\n'); }
  }

  /** The line-feed lines of an entry. */
  function Cuts(payload: string): seq<string> { SplitOn(Entry(payload), '\n') }

  /** What `splitlines` makes of an entry on its own line. */
  function Pieces(payload: string): seq<string> { SplitLines(Entry(payload) + "\n") }

  /** A piece that goes with the label line above it. */
  predicate Continues(line: string) { IsKeyLine(line) || (line != "" && IsBlank(line[0])) }

  /**
   However it is broken, the entry of this payload goes away as one: none of its lines would close the
   front matter, and every piece after the first goes with the one above.
   */
  predicate Folds(payload: string) {
    NoClose(Cuts(payload)) && AllContinue(Pieces(payload), |Pieces(payload)|)
  }

  /** The first n of these all go with the one above, but for the very first. */
  predicate AllContinue(pieces: seq<string>, n: nat)
    requires n <= |pieces|
  {
    forall k | 1 <= k < n :: Continues(pieces[k])
  }

  lemma EntryStart(payload: string, s: string)
    requires s == Entry(payload) + "\n"
    ensures |s| > 6 && s[0] == 'A' && s[..4] == KEY && s[4] == ':' && OneLine(s[..5])
  {
    assert s == KEY + (": '" + Doubled(payload) + "'" + "\n");
    assert s[4..] == ": '" + Doubled(payload) + "'" + "\n";
    assert s[..5] == "AIGC:";
  }

  lemma FirstPieceIsKey(payload: string)
    ensures Pieces(payload) != [] && IsKeyLine(Pieces(payload)[0])
  {
    var s := Entry(payload) + "\n";
    EntryStart(payload, s);
    var n := BreakAt(s);
    assert n >= 5 by { assert forall k | 0 <= k < 5 :: s[k] in s[..5]; }
    var line := s[..n];
    assert line[..4] == s[..4] && line[4..][0] == ':';
    assert Pieces(payload)[0] == line;
  }

  lemma BlockLines(kept: seq<string>, cuts: seq<string>, c: nat, block: seq<string>)
    requires PlainLines(kept) && c <= |cuts| && block == (kept + cuts)[..|kept| + c]
    ensures SplitLines(Terminated(block)) == kept + SplitLines(Terminated(cuts[..c]))
  {
    assert block == kept + cuts[..c];
    TerminatedAppend(kept, cuts[..c]);
    SplitLinesAfter(kept, Terminated(cuts[..c]));
  }

  /** The lines an entry adds to the block it stands in. */
  function Added(payload: string): seq<string> {
    SplitLines(Terminated(Cuts(payload)[..FirstClose(Cuts(payload))]))
  }

  lemma AddedIsPieces(payload: string)
    ensures FirstClose(Cuts(payload)) == |Cuts(payload)| <==> NoClose(Cuts(payload))
    ensures NoClose(Cuts(payload)) ==> Added(payload) == Pieces(payload)
  {
    var cuts := Cuts(payload);
    CloseBehind([], cuts);
    if NoClose(cuts) {
      assert cuts[..|cuts|] == cuts;
      TerminatedIsJoined(cuts);
    }
  }

  lemma SplitOfKept(bom: string, kept: seq<string>, payload: string, body: string) returns (parts: Parts)
    requires bom in {"", [BOM]} && PlainLines(kept) && NoClose(kept) && NoLineFeed(kept + Cuts(payload))
    ensures parts == SplitFrontMatter(Assembled(bom, kept + Cuts(payload), body)) && parts.bom == bom
    ensures parts.lines == Some(kept + Added(payload))
    ensures if FirstClose(Cuts(payload)) == |Cuts(payload)| then parts.body == body else |parts.body| > |body|
  {
    var cuts, lines := Cuts(payload), kept + Cuts(payload);
    CloseBehind(kept, cuts);
    var block := lines[..FirstClose(lines)];
    parts := SplitOfLines(bom, lines, body);
    BlockLines(kept, cuts, FirstClose(cuts), block);
  }

  /** The block a label is read back from: the kept lines and what the entry adds. One that closes adds to the body. */
  lemma SplitOfLabelled(text: string, payload: string) returns (parts: Parts)
    requires NoClose(OtherLines(text))
    ensures parts == SplitFrontMatter(Label(text, payload)) && parts.bom == SplitFrontMatter(text).bom
    ensures parts.lines == Some(OtherLines(text) + Added(payload))
    ensures if NoClose(Cuts(payload)) then parts.body == SplitFrontMatter(text).body
      else |parts.body| > |SplitFrontMatter(text).body|
  {
    var before := SplitFrontMatter(text);
    var lines := LabelAsLines(text, payload);
    OtherLinesArePlain(text);
    AddedIsPieces(payload);
    parts := SplitOfKept(before.bom, OtherLines(text), payload, before.body);
  }

  lemma {:induction false} CloseBehind(lines: seq<string>, rest: seq<string>)
    requires NoClose(lines)
    ensures FirstClose(lines + rest) == |lines| + FirstClose(rest)
    ensures FirstClose(rest) == |rest| <==> NoClose(rest)
  {
    if lines == [] {
      assert lines + rest == rest;
      if FirstClose(rest) == |rest| { assert forall line | line in rest :: !IsClose(line); }
    } else {
      assert lines[0] in lines && (lines + rest)[1..] == lines[1..] + rest;
      CloseBehind(lines[1..], rest);
    }
  }

  // ---- what the filter keeps of it ---------------------------------------------------

  /** What the filter keeps of the k lines from position m on. */
  function KeptFrom(lines: seq<string>, m: nat, k: nat): seq<string>
    requires m + k <= |lines|
  {
    if k == 0 then [] else KeptFrom(lines, m, k - 1) + if Dropped(lines, m + k - 1) then [] else [lines[m + k - 1]]
  }

  lemma {:induction false} KeptInTwo(lines: seq<string>, m: nat, k: nat)
    requires m + k <= |lines|
    ensures Kept(lines, m + k) == Kept(lines, m) + KeptFrom(lines, m, k)
  {
    if k == 0 {
      assert Kept(lines, m) + [] == Kept(lines, m);
    } else {
      KeptInTwo(lines, m, k - 1);
      var last := if Dropped(lines, m + k - 1) then [] else [lines[m + k - 1]];
      Assoc(Kept(lines, m), KeptFrom(lines, m, k - 1), last);
    }
  }

  /** Behind a line of the key nothing is kept just when all that follows goes with the line above it. */
  lemma {:induction false} NothingKeptIff(kept: seq<string>, pieces: seq<string>, lines: seq<string>, k: nat)
    requires lines == kept + pieces && pieces != [] && IsKeyLine(pieces[0]) && k <= |pieces|
    ensures KeptFrom(lines, |kept|, k) == [] <==> AllContinue(pieces, k)
    ensures AllContinue(pieces, k) && k > 0 ==> Dropped(lines, |kept| + k - 1)
  {
    if k > 0 {
      NothingKeptIff(kept, pieces, lines, k - 1);
      assert lines[|kept| + k - 1] == pieces[k - 1];
    }
  }

  lemma KeptFirst(kept: seq<string>, pieces: seq<string>, lines: seq<string>)
    requires lines == kept + pieces && NoKeyLine(kept)
    ensures Kept(lines, |kept|) == kept
  {
    NothingDropped(kept, pieces, |kept|);
    assert kept[..|kept|] == kept;
  }

  // ---- the law ------------------------------------------------------------------------

  lemma SameAssembledIff(
      bom: string, kept: seq<string>, extra: seq<string>, entry: string, longer: string, body: string)
    requires |longer| > |body| || longer == body
    ensures Assembled(bom, kept + extra + [entry], longer) == Assembled(bom, kept + [entry], body)
      <==> extra == [] && longer == body
  {
    AssembledLength(bom, kept + extra, entry, longer);
    AssembledLength(bom, kept, entry, body);
    TerminatedAppend(kept, extra);
    if extra == [] { assert kept + extra == kept; }
  }

  lemma KeptOfPieces(kept: seq<string>, pieces: seq<string>, lines: seq<string>) returns (extra: seq<string>)
    requires lines == kept + pieces && NoKeyLine(kept)
    ensures Kept(lines, |lines|) == kept + extra
    ensures pieces != [] && IsKeyLine(pieces[0]) ==> (extra == [] <==> AllContinue(pieces, |pieces|))
  {
    KeptInTwo(lines, |kept|, |pieces|);
    KeptFirst(kept, pieces, lines);
    extra := KeptFrom(lines, |kept|, |pieces|);
    if pieces != [] && IsKeyLine(pieces[0]) { NothingKeptIff(kept, pieces, lines, |pieces|); }
  }

  /** What the filter keeps of the entry: nothing exactly when it folds, given that it stays open. */
  lemma KeptOfEntry(kept: seq<string>, payload: string) returns (extra: seq<string>)
    requires NoKeyLine(kept)
    ensures Kept(kept + Added(payload), |kept + Added(payload)|) == kept + extra
    ensures NoClose(Cuts(payload)) ==> (extra == [] <==> Folds(payload))
  {
    extra := KeptOfPieces(kept, Added(payload), kept + Added(payload));
    AddedIsPieces(payload);
    FirstPieceIsKey(payload);
  }

  /** With no kept line that closes, the second label falls where the first was exactly when that one folds. */
  lemma OpenRelabelling(text: string, first: string, second: string)
    requires NoClose(OtherLines(text))
    ensures Label(Label(text, first), second) == Label(text, second) <==> Folds(first)
  {
    var before, kept := SplitFrontMatter(text), OtherLines(text);
    OtherLinesArePlain(text);
    var parts := SplitOfLabelled(text, first);
    var extra := KeptOfEntry(kept, first);
    LabelOf(Label(text, first), second, parts, kept + Added(first));
    SameAssembledIff(before.bom, kept, extra, Entry(second), parts.body, before.body);
    assert Label(text, second) == Assembled(before.bom, kept + [Entry(second)], before.body);
  }

  lemma SplitAboveOf(bom: string, kept: seq<string>, rest: seq<string>, body: string) returns (parts: Parts)
    requires bom in {"", [BOM]} && PlainLines(kept) && !NoClose(kept) && NoLineFeed(kept + rest)
    ensures parts == SplitFrontMatter(Assembled(bom, kept + rest, body)) && parts.bom == bom
    ensures FirstClose(kept) < |kept| && parts.lines == Some(kept[..FirstClose(kept)])
  {
    parts := SplitOfLines(bom, kept + rest, body);
    FirstCloseInPrefix(kept, rest);
    assert (kept + rest)[..FirstClose(kept)] == kept[..FirstClose(kept)];
    SplitLinesOfPlain(kept[..FirstClose(kept)]);
  }

  lemma SplitAbove(text: string, payload: string) returns (parts: Parts, above: seq<string>)
    requires !NoClose(OtherLines(text))
    ensures parts == SplitFrontMatter(Label(text, payload)) && parts.bom == SplitFrontMatter(text).bom
    ensures FirstClose(OtherLines(text)) < |OtherLines(text)|
    ensures above == OtherLines(text)[..FirstClose(OtherLines(text))] && parts.lines == Some(above)
    ensures Kept(above, |above|) == above
  {
    var before, kept := SplitFrontMatter(text), OtherLines(text);
    var lines := LabelAsLines(text, payload);
    OtherLinesArePlain(text);
    parts := SplitAboveOf(before.bom, kept, Cuts(payload), before.body);
    above := kept[..FirstClose(kept)];
    assert NoKeyLine(above);
    NothingDropped(above, [], |above|);
    assert above + [] == above && above[..|above|] == above;
  }

  lemma FallsAbove(
      bom: string, kept: seq<string>, above: seq<string>, payload: string, body: string, body': string)
    requires |above| < |kept| && above == kept[..|above|] && IsClose(kept[|above|])
    ensures Assembled(bom, above + [Entry(payload)], body) != Assembled(bom, kept + [Entry(payload)], body')
  {
    var i, entry := |above|, Entry(payload);
    assert entry[0] == 'A';
    FirstDifference(bom, above, kept[i], kept[i + 1..], entry, body, body');
    assert kept == above + [kept[i]] + kept[i + 1..];
  }

  /** With a kept line that closes, the second label falls above that line instead of at the end. */
  lemma ClosedRelabelling(text: string, first: string, second: string)
    requires !NoClose(OtherLines(text))
    ensures Label(Label(text, first), second) != Label(text, second)
  {
    var before, kept := SplitFrontMatter(text), OtherLines(text);
    var parts, above := SplitAbove(text, first);
    LabelOf(Label(text, first), second, parts, above);
    FallsAbove(before.bom, kept, above, second, parts.body, before.body);
  }

  lemma FirstDifference(
      bom: string, above: seq<string>, close: string, below: seq<string>, entry: string, body: string, body': string)
    requires IsClose(close) && entry != "" && entry[0] == 'A'
    ensures Assembled(bom, above + [entry], body) != Assembled(bom, above + [close] + below + [entry], body')
  {
    var x := Assembled(bom, above + [entry], body);
    var y := Assembled(bom, above + [close] + below + [entry], body');
    var n := |bom| + 4 + |Terminated(above)|;
    JoinIsTerminated(above, [entry]);
    var rest := [close] + below + [entry];
    assert above + [close] + below + [entry] == above + rest;
    JoinIsTerminated(above, rest);
    var joined := JoinWith(rest, '\n');
    assert rest[0] == close && joined[0] == close[0];
    assert x[n] == entry[0];
    assert y[n] == close[0];
  }

  /**
   For every file and all payloads: labelling twice is labelling once with the second payload exactly when
   no kept line would close the front matter and the first payload's entry folds.
   */
  lemma RelabellingReplacesIff(text: string, first: string, second: string)
    ensures Label(Label(text, first), second) == Label(text, second)
      <==> NoClose(OtherLines(text)) && Folds(first)
  {
    if NoClose(OtherLines(text)) {
      OpenRelabelling(text, first, second);
    } else {
      ClosedRelabelling(text, first, second);
    }
  }

  /** A payload without line breaks folds. */
  lemma OneLineFolds(payload: string)
    requires OneLine(payload)
    ensures Folds(payload)
  {
    var e := Entry(payload);
    EntryIsPlain(payload);
    assert '\n' !in e by { assert IsBreak('\n'); }
    assert JoinWith([e], '\n') == e;
    SplitOfJoin([e], '\n');
    SplitAtBreak(e, '\n', "", e + "\n" + "");
    assert e + "\n" + "" == e + "\n";
  }
}
