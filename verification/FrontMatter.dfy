/**
 What the Markdown label's vocabulary means, spelled out position by position
 (docker/sandbox/aite/aite_label.py): which lines are fences, which are the key's, which of them are
 left out with it, and how a text is cut.
 */
module FrontMatter {
  import opened Texts
  import opened Markdown
  import opened MarkdownRelabelling

  // ---- which lines survive ---------------------------------------------------------

  predicate StartsBlank(line: string) { line != "" && (line[0] == ' ' || line[0] == '\t') }

  /** Line j is the key's, and every line after it up to i starts with a blank. */
  predicate Continued(lines: seq<string>, j: nat, i: nat) {
    j <= i < |lines| && IsKeyLine(lines[j]) && forall k | j < k <= i :: StartsBlank(lines[k])
  }

  ghost predicate LeftOut(lines: seq<string>, i: nat) { exists j :: Continued(lines, j, i) }

  lemma {:induction false} DroppedIsLeftOut(lines: seq<string>, i: nat)
    requires i < |lines|
    ensures Dropped(lines, i) <==> LeftOut(lines, i)
  {
    if i > 0 { DroppedIsLeftOut(lines, i - 1); }
    if IsKeyLine(lines[i]) {
      assert Continued(lines, i, i);
    } else {
      if i > 0 && StartsBlank(lines[i]) && LeftOut(lines, i - 1) {
        var j: nat :| Continued(lines, j, i - 1);
        assert Continued(lines, j, i);
      }
      if j: nat :| Continued(lines, j, i) { assert Continued(lines, j, i - 1); }
    }
  }

  /** `at` lists, in order and each once, the positions that are not left out. */
  ghost predicate ListsTheRest(lines: seq<string>, n: nat, at: seq<nat>)
    requires n <= |lines|
  {
    && (forall m | 0 <= m < |at| :: at[m] < n)
    && (forall l, m | 0 <= l < m < |at| :: at[l] < at[m])
    && (forall i: nat | i < n :: i in at <==> !LeftOut(lines, i))
  }

  lemma RestStep(lines: seq<string>, n: nat, before: seq<nat>, at: seq<nat>)
    requires 0 < n <= |lines| && ListsTheRest(lines, n - 1, before)
    requires at == if LeftOut(lines, n - 1) then before else before + [n - 1]
    ensures ListsTheRest(lines, n, at)
  {
    forall i: nat | i < n ensures i in at <==> !LeftOut(lines, i) {
      assert i < n - 1 ==> (i in before <==> !LeftOut(lines, i));
      assert n - 1 !in before;
    }
  }

  lemma ItemsAtSnoc(lines: seq<string>, before: seq<nat>, last: nat)
    requires last < |lines| && forall m | 0 <= m < |before| :: before[m] < |lines|
    ensures ItemsAt(lines, before + [last]) == ItemsAt(lines, before) + [lines[last]]
  {
  }

  lemma {:induction false} KeptAreTheRest(lines: seq<string>, n: nat) returns (at: seq<nat>)
    requires n <= |lines|
    ensures ListsTheRest(lines, n, at) && Kept(lines, n) == ItemsAt(lines, at)
  {
    if n == 0 { return []; }
    var before := KeptAreTheRest(lines, n - 1);
    DroppedIsLeftOut(lines, n - 1);
    at := if LeftOut(lines, n - 1) then before else before + [n - 1];
    RestStep(lines, n, before, at);
    ItemsAtSnoc(lines, before, n - 1);
  }

  /**
   A labelled file holds, before the label, exactly the front-matter lines that are neither the key's nor
   continue one of the key's, each once and in order.
   */
  lemma OtherLinesAreTheRest(text: string) returns (at: seq<nat>)
    ensures SplitFrontMatter(text).lines == None ==> OtherLines(text) == []
    ensures SplitFrontMatter(text).lines.Some? ==>
      var lines := SplitFrontMatter(text).lines.value;
      ListsTheRest(lines, |lines|, at) && OtherLines(text) == ItemsAt(lines, at)
  {
    match SplitFrontMatter(text).lines
    case None => at := [];
    case Some(lines) => at := KeptAreTheRest(lines, |lines|);
  }

  /** The whole labelled text: the mark, the fences, those lines, one label line, and the body. */
  lemma LabelIs(text: string, payload: string)
    ensures var parts := SplitFrontMatter(text);
      Label(text, payload) == parts.bom + "---\n"
        + JoinWith(OtherLines(text) + ["AIGC: '" + Doubled(payload) + "'"], '\n') + "\n---\n" + parts.body
  {
    assert Entry(payload) == "AIGC: '" + Doubled(payload) + "'";
  }

  // ---- which lines are what ------------------------------------------------------------

  predicate Blanks(s: string) { forall c | c in s :: c == ' ' || c == '\t' }

  /** A key line: AIGC, blanks or none, a colon. */
  lemma KeyLineIff(line: string)
    ensures IsKeyLine(line) <==> exists blanks, rest :: Blanks(blanks) && line == "AIGC" + blanks + ":" + rest
  {
    if IsKeyLine(line) {
      var n := BlankRun(line[4..]);
      BlankRunIsBlank(line[4..]);
      assert line == "AIGC" + line[4..][..n] + ":" + line[4 + n + 1..];
    }
    if blanks, rest :| Blanks(blanks) && line == "AIGC" + blanks + ":" + rest {
      assert line[..4] == "AIGC" && line[4..] == blanks + (":" + rest);
      BlankRunOf(blanks, ":" + rest);
      assert line[4 + |blanks|] == ':';
    }
  }

  lemma {:induction false} BlankRunIsBlank(s: string)
    ensures Blanks(s[..BlankRun(s)])
  {
    if s != "" && IsBlank(s[0]) {
      BlankRunIsBlank(s[1..]);
      assert s[..BlankRun(s)] == [s[0]] + s[1..][..BlankRun(s[1..])];
    }
  }

  lemma {:induction false} BlankRunOf(blanks: string, rest: string)
    requires Blanks(blanks) && rest != "" && !IsBlank(rest[0])
    ensures BlankRun(blanks + rest) == |blanks|
  {
    if blanks == "" {
      assert blanks + rest == rest;
    } else {
      assert blanks[0] in blanks && IsBlank(blanks[0]);
      assert forall c | c in blanks[1..] :: c in blanks;
      assert (blanks + rest)[0] == blanks[0] && (blanks + rest)[1..] == blanks[1..] + rest;
      BlankRunOf(blanks[1..], rest);
    }
  }

  /** A fence: its mark, blanks or none, at most one carriage return. */
  predicate Fence(line: string, mark: string, blanks: string) {
    Blanks(blanks) && (line == mark + blanks || line == mark + blanks + "\r")
  }

  lemma BlanksAre(s: string)
    ensures Blanks(s) <==> forall c | c in s :: IsBlank(c)
  {
    if forall c | c in s :: IsBlank(c) { assert forall i | 0 <= i < |s| :: s[i] in s && IsBlank(s[i]); }
  }

  lemma BlankTailIff(s: string)
    ensures BlankTail(s) <==> exists blanks :: Blanks(blanks) && (s == blanks || s == blanks + "\r")
  {
    if BlankTail(s) {
      if s != "" && s[|s| - 1] == '\r' {
        assert s == s[..|s| - 1] + "\r";
        assert Blanks(s[..|s| - 1]) by { BlanksAre(s[..|s| - 1]); }
      } else {
        assert Blanks(s) by { assert forall c | c in s :: IsBlank(c); }
      }
    }
    if blanks :| Blanks(blanks) && (s == blanks || s == blanks + "\r") {
      if s == blanks {
        assert s != "" ==> s[|s| - 1] in s;
      } else {
        assert s[..|s| - 1] == blanks;
      }
    }
  }

  lemma FenceIff(line: string, mark: string)
    requires |mark| == 3
    ensures StartsWith(line, mark) && BlankTail(line[3..]) <==> exists blanks :: Fence(line, mark, blanks)
  {
    if StartsWith(line, mark) && BlankTail(line[3..]) {
      BlankTailIff(line[3..]);
      var blanks :| Blanks(blanks) && (line[3..] == blanks || line[3..] == blanks + "\r");
      assert line == mark + line[3..] && mark + (blanks + "\r") == mark + blanks + "\r";
      assert Fence(line, mark, blanks);
    }
    if blanks :| Fence(line, mark, blanks) {
      var tail := line[3..];
      assert line[..3] == mark && (tail == blanks || tail == blanks + "\r");
      BlankTailIff(tail);
    }
  }

  lemma FencesAre(line: string)
    ensures IsOpen(line) <==> exists blanks :: Fence(line, "---", blanks)
    ensures IsClose(line) <==>
      (exists blanks :: Fence(line, "---", blanks)) || exists blanks :: Fence(line, "...", blanks)
  {
    FenceIff(line, "---");
    FenceIff(line, "...");
  }

  // ---- how a text is cut ---------------------------------------------------------------

  /** The characters `splitlines` breaks at, one by one. */
  lemma BreaksAre(c: char)
    ensures IsBreak(c) <==>
      c in {'\n', '\U{0B}', '\U{0C}', '\r', '\U{1C}', '\U{1D}', '\U{1E}', '\U{85}', '\U{2028}', '\U{2029}'}
  {
  }

  /** What can end a line: one break, or CRLF. */
  predicate IsEnding(s: string) { s == "\r\n" || (|s| == 1 && IsBreak(s[0])) }

  /** A first line, one ending, and the rest: with the empty text and a last line, all there is to `splitlines`. */
  lemma SplitLinesIs(line: string, end: string, rest: string)
    requires OneLine(line) && IsEnding(end) && (end == "\r" ==> rest == "" || rest[0] != '\n')
    ensures SplitLines(line + end + rest) == [line] + SplitLines(rest)
    ensures SplitLines("") == [] && (line != "" ==> SplitLines(line) == [line])
  {
    LastLine(line);
    var s := line + end + rest;
    Cut(line, end, rest);
    assert s[|line|] == (end + rest)[0];
    BreakAtIs(s, |line|);
    if end == "\r" { assert rest != "" ==> (end + rest)[..2][1] == rest[0]; } else { assert (end + rest)[0] == end[0]; }
    assert StartsWith(end + rest, "\r\n") <==> end == "\r\n";
  }

  lemma LastLine(line: string)
    requires OneLine(line)
    ensures line != "" ==> SplitLines(line) == [line]
  {
    var n := BreakAt(line);
    assert n == |line| by { assert forall k | 0 <= k < |line| :: line[k] in line; }
    assert line[..n] == line;
  }

  // ---- the whole file --------------------------------------------------------------------

  /**
   A file with front matter is its mark, an opening fence, lines none of which closes, a closing fence,
   and the body behind at most one line feed.
   */
  ghost predicate IsFile(
      text: string, bom: string, open: string, inner: seq<string>, close: string, body: string) {
    && bom in {"", [BOM]} && IsOpen(open) && IsClose(close) && NoClose(inner) && NoLineFeed([open] + inner + [close])
    && (text == bom + open + "\n" + Terminated(inner) + close + "\n" + body
        || (body == "" && text == bom + open + "\n" + Terminated(inner) + close))
  }

  /** The fence and everything below it, as lines. */
  lemma OpenedIs(bom: string, open: string, below: seq<string>, text: string)
    requires bom in {"", [BOM]} && IsOpen(open) && below != [] && NoLineFeed([open] + below)
    requires text == bom + JoinWith([open] + below, '\n')
    ensures BomOf(text) == bom && SplitOn(text[|bom|..], '\n') == [open] + below
  {
    var all := [open] + below;
    var rest := JoinWith(all, '\n');
    assert rest[0] == open[0] == '-' by { assert open[..3][0] == open[0]; }
    assert text[0] == if bom == "" then '-' else BOM;
    assert text[..|bom|] == bom && text[|bom|..] == rest;
    SplitOfJoin(all, '\n');
  }

  lemma {:induction false} FirstCloseIs(inner: seq<string>, close: string, rest: seq<string>)
    requires NoClose(inner) && IsClose(close)
    ensures FirstClose(inner + [close] + rest) == |inner|
  {
    var all := inner + [close] + rest;
    if inner == [] {
      assert all[0] == close;
    } else {
      assert all[0] == inner[0] && inner[0] in inner && all[1..] == inner[1..] + [close] + rest;
      FirstCloseIs(inner[1..], close, rest);
    }
  }

  lemma ClosedIs(inner: seq<string>, close: string, rest: seq<string>, below: seq<string>)
    requires NoClose(inner) && IsClose(close) && below == inner + [close] + rest
    ensures SplitAtClose(below) == Some((SplitLines(Terminated(inner)), JoinWith(rest, '\n')))
  {
    FirstCloseIs(inner, close, rest);
    assert below[..|inner|] == inner && below[|inner| + 1..] == rest;
    BodyOfIsJoined(rest);
  }

  lemma FileText(open: string, inner: seq<string>, close: string, rest: seq<string>)
    ensures JoinWith([open] + inner + [close] + rest, '\n')
      == open + "\n" + Terminated(inner) + close + if rest == [] then "" else "\n" + JoinWith(rest, '\n')
  {
    var last := [close] + rest;
    assert last[1..] == rest && [open] + inner + [close] + rest == [open] + inner + last;
    JoinIsTerminated([open] + inner, last);
    TerminatedAppend([open], inner);
    assert Terminated([open]) == open + "\n" + "" == open + "\n";
    Assoc(open + "\n" + Terminated(inner), close, if rest == [] then "" else "\n" + JoinWith(rest, '\n'));
  }

  /** Such a file is split into just these parts. */
  lemma FileIsSplit(text: string, bom: string, open: string, inner: seq<string>, close: string, body: string)
    requires IsFile(text, bom, open, inner, close, body)
    ensures SplitFrontMatter(text) == Parts(bom, Some(SplitLines(Terminated(inner))), body)
  {
    var ended := text == bom + open + "\n" + Terminated(inner) + close + "\n" + body;
    var rest := if ended then SplitOn(body, '\n') else [];
    var below := inner + [close] + rest;
    assert [open] + inner + [close] + rest == [open] + below;
    FileText(open, inner, close, rest);
    FileTextAfter(bom, open, inner, close, rest, body, ended, text);
    assert NoLineFeed([open] + below);
    OpenedIs(bom, open, below, text);
    assert ([open] + below)[1..] == below;
    ClosedIs(inner, close, rest, below);
  }

  lemma FileTextAfter(
      bom: string, open: string, inner: seq<string>, close: string, rest: seq<string>, body: string, ended: bool,
      text: string)
    requires text == if ended then bom + open + "\n" + Terminated(inner) + close + "\n" + body
      else bom + open + "\n" + Terminated(inner) + close
    requires rest == if ended then SplitOn(body, '\n') else []
    ensures text == bom
      + (open + "\n" + Terminated(inner) + close + if rest == [] then "" else "\n" + JoinWith(rest, '\n'))
  {
    var front := open + "\n" + Terminated(inner) + close;
    assert bom + open + "\n" + Terminated(inner) + close == bom + front;
    if ended {
      Assoc(bom + front, "\n", body);
      Assoc(bom, front, "\n" + body);
    } else {
      assert front + "" == front;
    }
  }

  /** And whatever is split off is such a file; else the text comes back whole. */
  lemma SplitIsFile(text: string)
    ensures var parts := SplitFrontMatter(text);
      if parts.lines.Some? then
        exists open, inner, close ::
          IsFile(text, parts.bom, open, inner, close, parts.body) && parts.lines == Some(SplitLines(Terminated(inner)))
      else parts.bom + parts.body == text
  {
    var parts := SplitFrontMatter(text);
    var rest := text[|BomOf(text)|..];
    assert text == BomOf(text) + rest;
    if parts.lines.Some? { var open, inner, close := PartsOf(text, BomOf(text), rest, SplitOn(rest, '\n')); }
  }

  lemma PartsOf(text: string, bom: string, rest: string, lines: seq<string>)
    returns (open: string, inner: seq<string>, close: string)
    requires text == bom + rest && bom in {"", [BOM]} && lines == SplitOn(rest, '\n')
    requires |lines| > 1 && IsOpen(lines[0]) && SplitAtClose(lines[1..]).Some?
    ensures IsFile(text, bom, open, inner, close, SplitAtClose(lines[1..]).value.1)
    ensures SplitAtClose(lines[1..]).value.0 == SplitLines(Terminated(inner))
  {
    var below := lines[1..];
    var i := FirstClose(below);
    var after := below[i + 1..];
    open, inner, close := lines[0], below[..i], below[i];
    assert lines == [open] + inner + [close] + after;
    FileText(open, inner, close, after);
    BodyOfIsJoined(after);
    WholeFile(text, bom, open, inner, close, after, JoinWith(after, '\n'));
  }

  lemma WholeFile(
      text: string, bom: string, open: string, inner: seq<string>, close: string, after: seq<string>, body: string)
    requires text == bom + (open + "\n" + Terminated(inner) + close + if after == [] then "" else "\n" + body)
    requires after == [] ==> body == ""
    ensures text == bom + open + "\n" + Terminated(inner) + close + "\n" + body
      || (body == "" && text == bom + open + "\n" + Terminated(inner) + close)
  {
    var front := open + "\n" + Terminated(inner) + close;
    assert bom + open + "\n" + Terminated(inner) + close == bom + front;
    Assoc(bom, front, "\n" + body);
    Assoc(bom + front, "\n", body);
    assert front + "" == front;
  }

  // ---- what is read back -----------------------------------------------------------------

  /** The characters that are stripped round a value. */
  predicate Strippable(c: char) {
    || c in {' ', '\t', '\n', '\r', '\U{B}', '\U{C}', '\U{1C}', '\U{1D}', '\U{1E}', '\U{1F}', '\U{85}', '\U{A0}'}
    || c in {'\U{1680}', '\U{2000}', '\U{2001}', '\U{2002}', '\U{2003}', '\U{2004}', '\U{2005}', '\U{2006}'}
    || c in {'\U{2007}', '\U{2008}', '\U{2009}', '\U{200A}', '\U{2028}', '\U{2029}', '\U{202F}', '\U{205F}'}
    || c == '\U{3000}'
  }

  lemma StrippableIff(c: char)
    ensures IsSpace(c) <==> Strippable(c)
  {
  }

  predicate AllStrippable(s: string) { forall c | c in s :: Strippable(c) }

  predicate Bare(value: string) {
    value == "" || (!Strippable(value[0]) && !Strippable(value[|value| - 1]))
  }

  lemma {:induction false} StripLeftOf(lead: string, rest: string)
    requires AllStrippable(lead) && (rest == "" || !Strippable(rest[0]))
    ensures StripLeft(lead + rest) == rest
  {
    if lead == "" {
      assert lead + rest == rest;
      if rest != "" { StrippableIff(rest[0]); }
    } else {
      StrippableIff(lead[0]);
      assert lead[0] in lead && (lead + rest)[1..] == lead[1..] + rest;
      StripLeftOf(lead[1..], rest);
    }
  }

  lemma {:induction false} StripRightOf(rest: string, trail: string)
    requires AllStrippable(trail) && (rest == "" || !Strippable(rest[|rest| - 1]))
    ensures StripRight(rest + trail) == rest
  {
    if trail == "" {
      assert rest + trail == rest;
      if rest != "" { StrippableIff(rest[|rest| - 1]); }
    } else {
      var n := |trail| - 1;
      StrippableIff(trail[n]);
      assert trail[n] in trail && (rest + trail)[..|rest| + n] == rest + trail[..n];
      StripRightOf(rest, trail[..n]);
    }
  }

  lemma StripOf(lead: string, value: string, trail: string)
    requires AllStrippable(lead) && AllStrippable(trail) && Bare(value)
    ensures StripRight(StripLeft(lead + (value + trail))) == value
  {
    if value == "" {
      assert lead + ("" + trail) == (lead + trail) + "";
      assert AllStrippable(lead + trail);
      StripLeftOf(lead + trail, "");
    } else {
      assert (value + trail)[0] == value[0];
      StripLeftOf(lead, value + trail);
      StripRightOf(value, trail);
    }
  }

  lemma {:induction false} AfterColonOf(before: string, rest: string)
    requires ':' !in before
    ensures AfterColon(before + (":" + rest)) == rest
  {
    if before == "" {
      assert "" + (":" + rest) == ":" + rest;
    } else {
      assert (before + (":" + rest))[1..] == before[1..] + (":" + rest);
      assert before[0] in before;
      AfterColonOf(before[1..], rest);
    }
  }

  /** The first key line of the file, with the blanks and spaces round its value. */
  predicate FirstEntry(
      lines: seq<string>, i: nat, blanks: string, lead: string, value: string, trail: string) {
    && i < |lines| && (forall j | 0 <= j < i :: !IsKeyLine(lines[j]))
    && Blanks(blanks) && AllStrippable(lead) && AllStrippable(trail) && Bare(value)
    && lines[i] == "AIGC" + blanks + ":" + (lead + (value + trail))
  }

  lemma EntryValue(blanks: string, lead: string, value: string, trail: string)
    requires Blanks(blanks) && AllStrippable(lead) && AllStrippable(trail) && Bare(value)
    ensures StripRight(StripLeft(AfterColon("AIGC" + blanks + ":" + (lead + (value + trail))))) == value
  {
    var before, rest := "AIGC" + blanks, lead + (value + trail);
    assert ':' !in before by { assert forall c | c in before :: c in "AIGC" || c in blanks; }
    Assoc(before, ":", rest);
    AfterColonOf(before, rest);
    StripOf(lead, value, trail);
  }

  lemma {:induction false} FirstKeyLineIs(lines: seq<string>, i: nat)
    requires i < |lines| && IsKeyLine(lines[i]) && forall j | 0 <= j < i :: !IsKeyLine(lines[j])
    ensures FirstKeyLine(lines) == Some(lines[i])
  {
    if i > 0 { FirstKeyLineIs(lines[1..], i - 1); }
  }

  lemma {:induction false} NoKeyLineIff(lines: seq<string>)
    ensures FirstKeyLine(lines) == None <==> forall j | 0 <= j < |lines| :: !IsKeyLine(lines[j])
  {
    if lines != [] && !IsKeyLine(lines[0]) { NoKeyLineIff(lines[1..]); }
  }

  predicate InQuotes(value: string) { |value| >= 2 && value[0] == '\'' == value[|value| - 1] }

  /** What is read is the first entry's value, unquoted if it stands in single quotes; nothing without an entry. */
  lemma ReadIs(
      text: string, lines: seq<string>, i: nat, blanks: string, lead: string, value: string, trail: string)
    requires SplitFrontMatter(text).lines == Some(lines) && FirstEntry(lines, i, blanks, lead, value, trail)
    ensures ReadPayload(text) == Some(if InQuotes(value) then Undoubled(value[1..|value| - 1]) else value)
  {
    KeyLineIff(lines[i]);
    FirstKeyLineIs(lines, i);
    EntryValue(blanks, lead, value, trail);
  }

  lemma NothingReadIff(text: string)
    ensures ReadPayload(text) == None <==>
      var lines := SplitFrontMatter(text).lines;
      lines == None || forall j | 0 <= j < |lines.value| :: !IsKeyLine(lines.value[j])
  {
    if SplitFrontMatter(text).lines.Some? { NoKeyLineIff(SplitFrontMatter(text).lines.value); }
  }

  predicate NoQuote(s: string) { '\'' !in s }

  lemma {:induction false} UnquotedRun(s: string, t: string)
    requires NoQuote(s)
    ensures Undoubled(s + t) == s + Undoubled(t)
  {
    if s == "" {
      assert s + t == t && "" + Undoubled(t) == Undoubled(t);
    } else {
      assert s[0] in s && (s + t)[0] == s[0] && (s + t)[1..] == s[1..] + t;
      assert !StartsWith(s + t, "''") by { assert |s + t| >= 2 ==> (s + t)[..2][0] == s[0]; }
      UnquotedRun(s[1..], t);
      assert s == [s[0]] + s[1..];
      Assoc([s[0]], s[1..], Undoubled(t));
    }
  }

  /** Unquoting keeps everything but quotes, makes one of two, and keeps a single one. */
  lemma UndoubledIs(s: string, t: string)
    requires NoQuote(s)
    ensures Undoubled(s) == s
    ensures Undoubled(s + ("''" + t)) == s + ("'" + Undoubled(t))
    ensures t == "" || NoQuote([t[0]]) ==> Undoubled(s + ("'" + t)) == s + ("'" + Undoubled(t))
  {
    UnquotedRun(s, "");
    assert s + "" == s;
    UnquotedRun(s, "''" + t);
    UnquotedRun(s, "'" + t);
    assert ("''" + t)[..2] == "''" && ("''" + t)[2..] == t;
    assert ("'" + t)[1..] == t;
    if t != "" { assert ("'" + t)[..2][1] == t[0]; }
  }
}
