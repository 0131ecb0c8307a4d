/**
 The provenance label in a Markdown file's front matter (docker/sandbox/aite/aite_label.py).
 The payload is the JSON text the label carries; files are their decoded text.
 */
module Markdown {
  import opened Texts

  const BOM := '\U{FEFF}'
  const KEY := "AIGC"

  // ---- Python's text vocabulary --------------------------------------------

  /** The characters at which `str.splitlines` breaks. */
  predicate IsBreak(c: char) {
    || '\n' <= c <= '\r' || '\U{1C}' <= c <= '\U{1E}'
    || c == '\U{85}' || c == '\U{2028}' || c == '\U{2029}'
  }

  /** The characters `str.strip` removes. */
  predicate IsSpace(c: char) { IsWhiteSpace(c) || '\U{1C}' <= c <= '\U{1F}' }

  predicate IsBlank(c: char) { c == ' ' || c == '\t' }

  predicate OneLine(s: string) { forall c | c in s :: !IsBreak(c) }

  function BreakAt(s: string): (n: nat)
    ensures n <= |s| && OneLine(s[..n]) && (n < |s| ==> IsBreak(s[n]))
  {
    if s == "" || IsBreak(s[0]) then 0 else
    var n := 1 + BreakAt(s[1..]);
    assert s[..n] == [s[0]] + s[1..][..n - 1];
    n
  }

  function SplitLines(s: string): (lines: seq<string>)
    ensures forall line | line in lines :: OneLine(line)
  {
    if s == "" then [] else
    var n := BreakAt(s);
    if n == |s| then [s[..n]]
    else [s[..n]] + SplitLines(s[n + (if StartsWith(s[n..], "\r\n") then 2 else 1)..])
  }

  function StripLeft(s: string): (r: string)
    ensures forall c | c in r :: c in s
  {
    if s != "" && IsSpace(s[0]) then StripLeft(s[1..]) else s
  }

  function StripRight(s: string): (r: string)
    ensures forall c | c in r :: c in s
  {
    if s != "" && IsSpace(s[|s| - 1]) then StripRight(s[..|s| - 1]) else s
  }

  function Doubled(s: string): (r: string)
    ensures forall c | c in r :: c in s
  {
    if s == "" then "" else (if s[0] == '\'' then "''" else [s[0]]) + Doubled(s[1..])
  }

  /** `s.replace("''", "'")`: pairs of quotes, from the left. */
  function Undoubled(s: string): (r: string)
    ensures forall c | c in r :: c in s
  {
    if s == "" then ""
    else if StartsWith(s, "''") then [s[0]] + Undoubled(s[2..])
    else [s[0]] + Undoubled(s[1..])
  }

  lemma {:induction false} UndoubledDoubled(s: string)
    ensures Undoubled(Doubled(s)) == s
  {
    if s != "" {
      var d := Doubled(s);
      UndoubledDoubled(s[1..]);
      if s[0] == '\'' {
        assert d[..2] == "''" && d[2..] == Doubled(s[1..]);
      } else {
        assert d[0] == s[0] && d[1..] == Doubled(s[1..]);
      }
    }
  }

  // ---- splitting off the front matter ---------------------------------------

  /** Blanks, then at most one carriage return. */
  predicate BlankTail(s: string) {
    if s != "" && s[|s| - 1] == '\r' then forall c | c in s[..|s| - 1] :: IsBlank(c)
    else forall c | c in s :: IsBlank(c)
  }

  predicate IsOpen(line: string) { StartsWith(line, "---") && BlankTail(line[3..]) }

  predicate IsClose(line: string) {
    (StartsWith(line, "---") || StartsWith(line, "...")) && BlankTail(line[3..])
  }

  function FirstClose(lines: seq<string>): (i: nat)
    ensures i <= |lines| && (forall j | 0 <= j < i :: !IsClose(lines[j])) && (i < |lines| ==> IsClose(lines[i]))
  {
    if lines == [] || IsClose(lines[0]) then 0 else 1 + FirstClose(lines[1..])
  }

  /** Every line with its line feed. */
  function Terminated(lines: seq<string>): string {
    if lines == [] then "" else lines[0] + "\n" + Terminated(lines[1..])
  }

  datatype Parts = Parts(bom: string, lines: Option<seq<string>>, body: string)

  /** The text after the closing fence, given the lines below it: one line end is skipped. */
  function BodyOf(below: seq<string>): string {
    var tail := if below == [] then "" else "\n" + JoinWith(below, '\n');
    var cut := if StartsWith(tail, "\r\n") then 2 else if StartsWith(tail, "\n") then 1 else 0;
    tail[cut..]
  }

  /** What a fence search over the lines after the opening one yields: the block's lines and the body. */
  function SplitAtClose(inner: seq<string>): Option<(seq<string>, string)> {
    var i := FirstClose(inner);
    if i == |inner| then None else Some((SplitLines(Terminated(inner[..i])), BodyOf(inner[i + 1..])))
  }

  function BomOf(text: string): (bom: string)
    ensures StartsWith(text, bom)
  {
    if StartsWith(text, [BOM]) then [BOM] else ""
  }

  function SplitFrontMatter(text: string): Parts {
    var bom := BomOf(text);
    var rest := text[|bom|..];
    var lines := SplitOn(rest, '\n');
    if |lines| < 2 || !IsOpen(lines[0]) then Parts(bom, None, rest) else
    match SplitAtClose(lines[1..])
    case None => Parts(bom, None, rest)
    case Some((block, body)) => Parts(bom, Some(block), body)
  }

  // ---- labelling and reading -------------------------------------------------

  function BlankRun(s: string): (n: nat)
    ensures n <= |s|
  {
    if s != "" && IsBlank(s[0]) then 1 + BlankRun(s[1..]) else 0
  }

  predicate IsKeyLine(line: string) {
    StartsWith(line, KEY) && var n := |KEY| + BlankRun(line[|KEY|..]); n < |line| && line[n] == ':'
  }

  /** A line goes when it is the key's own, or continues a line that goes. */
  predicate Dropped(lines: seq<string>, i: nat)
    requires i < |lines|
  {
    || IsKeyLine(lines[i])
    || (i > 0 && lines[i] != "" && IsBlank(lines[i][0]) && Dropped(lines, i - 1))
  }

  /** The first n lines without the dropped ones. */
  function Kept(lines: seq<string>, n: nat): seq<string>
    requires n <= |lines|
  {
    if n == 0 then [] else Kept(lines, n - 1) + if Dropped(lines, n - 1) then [] else [lines[n - 1]]
  }

  /** No line is made up, and none of the key's is kept. */
  lemma {:induction false} KeptAreOthers(lines: seq<string>, n: nat)
    requires n <= |lines|
    ensures forall line | line in Kept(lines, n) :: line in lines && !IsKeyLine(line)
  {
    if n > 0 { KeptAreOthers(lines, n - 1); }
  }

  function Entry(payload: string): string { KEY + ": '" + Doubled(payload) + "'" }

  /** The front-matter lines that are none of the label's business. */
  function OtherLines(text: string): seq<string> {
    match SplitFrontMatter(text).lines
    case None => []
    case Some(lines) => Kept(lines, |lines|)
  }

  function Assembled(bom: string, lines: seq<string>, body: string): string {
    bom + "---\n" + JoinWith(lines, '\n') + "\n---\n" + body
  }

  function Label(text: string, payload: string): string {
    var parts := SplitFrontMatter(text);
    Assembled(parts.bom, OtherLines(text) + [Entry(payload)], parts.body)
  }

  method LabelMarkdown(text: string, payload: string) returns (out: string)
    ensures out == Label(text, payload)
  {
    var parts := SplitFrontMatter(text);
    var entry := KEY + ": '" + Doubled(payload) + "'";
    if parts.lines.None? {
      assert [] + [entry] == [entry];
      return parts.bom + "---\n" + entry + "\n---\n" + parts.body;
    }
    var lines, kept, skipping := parts.lines.value, [], false;
    for i := 0 to |lines|
      invariant kept == Kept(lines, i) && (skipping <==> i > 0 && Dropped(lines, i - 1))
    {
      var line := lines[i];
      if IsKeyLine(line) {
        skipping := true;
      } else if !(skipping && line != "" && IsBlank(line[0])) {
        skipping := false;
        kept := kept + [line];
      }
    }
    kept := kept + [entry];
    out := parts.bom + "---\n" + JoinWith(kept, '\n') + "\n---\n" + parts.body;
  }

  function FirstKeyLine(lines: seq<string>): Option<string> {
    if lines == [] then None
    else if IsKeyLine(lines[0]) then Some(lines[0])
    else FirstKeyLine(lines[1..])
  }

  function AfterColon(line: string): (r: string)
    ensures forall c | c in r :: c in line
  {
    if line == "" then "" else if line[0] == ':' then line[1..] else AfterColon(line[1..])
  }

  function Unquoted(value: string): (r: string)
    ensures forall c | c in r :: c in value
  {
    if |value| >= 2 && value[0] == '\'' && value[|value| - 1] == '\'' then Undoubled(value[1..|value| - 1]) else value
  }

  function ReadPayload(text: string): Option<string> {
    match SplitFrontMatter(text).lines
    case None => None
    case Some(lines) =>
      match FirstKeyLine(lines)
      case None => None
      case Some(line) => Some(Unquoted(StripRight(StripLeft(AfterColon(line)))))
  }

  // ---- a labelled file is split where it was put together -------------------

  /** No line would be taken for the end of the front matter. */
  predicate NoClose(lines: seq<string>) { forall line | line in lines :: !IsClose(line) }

  lemma EntryIsPlain(payload: string)
    ensures IsKeyLine(Entry(payload)) && !IsClose(Entry(payload))
    ensures OneLine(payload) ==> OneLine(Entry(payload))
  {
    var e := Entry(payload);
    assert e[..4] == KEY && e[4] == ':' && e[0] == 'A';
  }

  /** A line with one carriage return at its end removed. */
  function Chomp(line: string): string {
    if line != "" && line[|line| - 1] == '\r' then line[..|line| - 1] else line
  }

  function Chomped(lines: seq<string>): seq<string> {
    if lines == [] then [] else [Chomp(lines[0])] + Chomped(lines[1..])
  }

  lemma {:induction false} BreakAtIs(s: string, n: nat)
    requires n < |s| && OneLine(s[..n]) && IsBreak(s[n])
    ensures BreakAt(s) == n
  {
    if n > 0 {
      assert s[0] in s[..n];
      assert s[..n][1..] == s[1..][..n - 1];
      BreakAtIs(s[1..], n - 1);
    }
  }

  lemma Cut(line: string, end: string, rest: string)
    ensures var s := line + end + rest; s[..|line|] == line && s[|line|..] == end + rest && s[|line| + |end|..] == rest
  {
    var s, n := line + end + rest, |line|;
    assert s[n..] == end + rest;
    assert s[n + |end|..] == s[n..][|end|..] == rest;
  }

  lemma SplitAtBreak(line: string, c: char, rest: string, s: string)
    requires OneLine(line) && IsBreak(c) && c != '\r' && s == line + [c] + rest
    ensures SplitLines(s) == [line] + SplitLines(rest)
  {
    Cut(line, [c], rest);
    assert s[|line|] == c == ([c] + rest)[0];
    BreakAtIs(s, |line|);
    assert !StartsWith([c] + rest, "\r\n");
  }

  lemma SplitAtCrLf(line: string, rest: string, s: string)
    requires OneLine(line) && s == line + "\r\n" + rest
    ensures SplitLines(s) == [line] + SplitLines(rest)
  {
    Cut(line, "\r\n", rest);
    assert s[|line|] == '\r';
    BreakAtIs(s, |line|);
    assert ("\r\n" + rest)[..2] == "\r\n";
  }

  /** Lines ended by LF or CRLF are split exactly there. */
  lemma {:induction false} SplitLinesOfTerminated(lines: seq<string>)
    requires forall i | 0 <= i < |lines| :: OneLine(Chomp(lines[i]))
    ensures SplitLines(Terminated(lines)) == Chomped(lines)
  {
    if lines != [] {
      var line, rest := lines[0], Terminated(lines[1..]);
      var bare := Chomp(line);
      assert OneLine(bare);
      SplitLinesOfTerminated(lines[1..]);
      if bare == line {
        SplitAtBreak(line, '\n', rest, Terminated(lines));
      } else {
        assert line + "\n" == bare + "\r\n";
        SplitAtCrLf(bare, rest, Terminated(lines));
      }
    }
  }

  ghost predicate PlainLines(lines: seq<string>) { forall line | line in lines :: OneLine(line) }

  lemma {:induction false} SplitLinesOfPlain(lines: seq<string>)
    requires PlainLines(lines)
    ensures SplitLines(Terminated(lines)) == lines
  {
    if lines != [] {
      var line, rest := lines[0], lines[1..];
      assert line in lines && lines == [line] + rest;
      SplitLinesOfPlain(rest);
      SplitAtBreak(line, '\n', Terminated(rest), Terminated(lines));
    }
  }

  /** An assembled file is split at its first line that closes. */
  lemma SplitOfAssembled(bom: string, lines: seq<string>, body: string) returns (parts: Parts)
    requires bom in {"", [BOM]} && lines != [] && PlainLines(lines)
    ensures parts == SplitFrontMatter(Assembled(bom, lines, body))
    ensures parts.bom == bom && parts.lines == Some(lines[..FirstClose(lines)])
    ensures NoClose(lines) ==> parts == Parts(bom, Some(lines), body)
  {
    assert NoLineFeed(lines) by { assert IsBreak('\n'); }
    var inner, text := AssembledText(bom, lines, body);
    ClosedInner(lines, SplitOn(body, '\n'), inner);
    SplitOfOpened(bom, inner, text);
    parts := SplitFrontMatter(text);
    if NoClose(lines) { assert lines[..|lines|] == lines; }
  }

  lemma SplitOfOpened(bom: string, inner: seq<string>, text: string)
    requires bom in {"", [BOM]} && inner != [] && forall line | line in ["---"] + inner :: '\n' !in line
    requires SplitAtClose(inner).Some?
    requires text == bom + JoinWith(["---"] + inner, '\n')
    ensures SplitFrontMatter(text) == Parts(bom, Some(SplitAtClose(inner).value.0), SplitAtClose(inner).value.1)
  {
    var all := ["---"] + inner;
    var rest := JoinWith(all, '\n');
    assert rest[0] == '-';
    assert text[0] == if bom == "" then '-' else BOM;
    assert text[..|bom|] == bom && text[|bom|..] == rest;
    assert BomOf(text) == bom;
    SplitOfJoin(all, '\n');
    assert all[1..] == inner;
  }

  lemma BodyOfIsJoined(below: seq<string>)
    ensures BodyOf(below) == JoinWith(below, '\n')
  {
    var tail := "\n" + JoinWith(below, '\n');
    assert tail[0] == '\n' && tail[..1] == "\n" && tail[1..] == JoinWith(below, '\n');
    assert !StartsWith(tail, "\r\n");
  }

  lemma ClosedInner(lines: seq<string>, rest: seq<string>, inner: seq<string>)
    requires PlainLines(lines) && rest != [] && inner == lines + ["---"] + rest
    ensures SplitAtClose(inner).Some? && SplitAtClose(inner).value.0 == lines[..FirstClose(lines)]
    ensures NoClose(lines) ==> FirstClose(lines) == |lines| && SplitAtClose(inner).value.1 == JoinWith(rest, '\n')
  {
    var i := FirstClose(lines);
    FirstCloseOf(lines, rest);
    assert inner[..i] == lines[..i];
    SplitLinesOfPlain(lines[..i]);
    if NoClose(lines) {
      assert inner[i + 1..] == rest;
      BodyOfIsJoined(rest);
    }
  }

  ghost predicate NoLineFeed(lines: seq<string>) { forall line | line in lines :: '\n' !in line }

  lemma AssembledText(bom: string, lines: seq<string>, body: string) returns (inner: seq<string>, text: string)
    requires lines != [] && NoLineFeed(lines)
    ensures inner == lines + ["---"] + SplitOn(body, '\n')
    ensures text == Assembled(bom, lines, body) && text == bom + JoinWith(["---"] + inner, '\n')
    ensures forall line | line in ["---"] + inner :: '\n' !in line
  {
    var bodyLines := SplitOn(body, '\n');
    var last := ["---"] + bodyLines;
    inner, text := lines + last, Assembled(bom, lines, body);
    assert last[1..] == bodyLines && (["---"] + inner)[1..] == inner;
    JoinAppend(lines, last, '\n');
    Regroup(bom, JoinWith(lines, '\n'), body);
    assert inner == lines + ["---"] + bodyLines;
  }

  lemma Regroup(bom: string, block: string, body: string)
    ensures bom + "---\n" + block + "\n---\n" + body
         == bom + ("---" + ['\n'] + (block + ['\n'] + ("---" + ['\n'] + body)))
  {
    assert "\n---\n" + body == ['\n'] + ("---" + ['\n'] + body);
    assert "---\n" == "---" + ['\n'];
  }

  lemma {:induction false} FirstCloseOf(lines: seq<string>, rest: seq<string>)
    ensures FirstClose(lines + ["---"] + rest) == FirstClose(lines)
  {
    var all := lines + ["---"] + rest;
    if lines == [] {
      assert IsClose(all[0]);
    } else {
      assert all[0] == lines[0] && all[1..] == lines[1..] + ["---"] + rest;
      FirstCloseOf(lines[1..], rest);
    }
  }

  // ---- the properties ----------------------------------------------------------

  ghost predicate NoKeyLine(lines: seq<string>) { forall line | line in lines :: !IsKeyLine(line) }

  lemma OtherLinesArePlain(text: string)
    ensures PlainLines(OtherLines(text)) && NoKeyLine(OtherLines(text))
  {
    match SplitFrontMatter(text).lines
    case None =>
    case Some(lines) => KeptAreOthers(lines, |lines|);
  }

  /** The lines other than the label's, one more with it, and the body: all that a relabelled file holds. */
  lemma LabelledFileSplitsBack(text: string, payload: string)
    requires NoClose(OtherLines(text)) && OneLine(payload)
    ensures SplitFrontMatter(Label(text, payload)) ==
      Parts(SplitFrontMatter(text).bom, Some(OtherLines(text) + [Entry(payload)]), SplitFrontMatter(text).body)
  {
    var lines := OtherLines(text) + [Entry(payload)];
    OtherLinesArePlain(text);
    EntryIsPlain(payload);
    var parts := SplitOfAssembled(SplitFrontMatter(text).bom, lines, SplitFrontMatter(text).body);
  }

  lemma {:induction false} FirstKeyAfter(kept: seq<string>, entry: string)
    requires NoKeyLine(kept) && IsKeyLine(entry)
    ensures FirstKeyLine(kept) == None
    ensures FirstKeyLine(kept + [entry]) == Some(entry)
  {
    if kept != [] {
      assert (kept + [entry])[1..] == kept[1..] + [entry];
      FirstKeyAfter(kept[1..], entry);
    }
  }

  lemma {:induction false} AfterColonOf(key: string, rest: string)
    requires ':' !in key
    ensures AfterColon(key + [':'] + rest) == rest
  {
    var line := key + [':'] + rest;
    if key == "" {
      assert line[1..] == rest;
    } else {
      assert line[0] in key && line[1..] == key[1..] + [':'] + rest;
      AfterColonOf(key[1..], rest);
    }
  }

  lemma EntryReadsBack(payload: string)
    ensures Unquoted(StripRight(StripLeft(AfterColon(Entry(payload))))) == payload
  {
    var quoted := "'" + Doubled(payload) + "'";
    var e := Entry(payload);
    assert e == KEY + [':'] + (" " + quoted);
    AfterColonOf(KEY, " " + quoted);
    assert (" " + quoted)[1..] == quoted;
    assert StripLeft(" " + quoted) == quoted;
    assert StripRight(quoted) == quoted;
    assert quoted[1..|quoted| - 1] == Doubled(payload);
    UndoubledDoubled(payload);
  }

  lemma FirstKeyLineIsALine(lines: seq<string>)
    ensures FirstKeyLine(lines).Some? ==> FirstKeyLine(lines).value in lines
  {
  }

  /** What is read is always a single line. */
  lemma ReadIsOneLine(text: string)
    ensures ReadPayload(text).Some? ==> OneLine(ReadPayload(text).value)
  {
    match SplitFrontMatter(text).lines
    case None =>
    case Some(lines) => FirstKeyLineIsALine(lines);
  }

  /** A line that closes among the kept ones hides the label: the reader then sees none. */
  lemma HiddenLabel(text: string, payload: string)
    requires !NoClose(OtherLines(text)) && OneLine(payload)
    ensures var i := FirstClose(OtherLines(text));
      i < |OtherLines(text)| && SplitFrontMatter(Label(text, payload)).lines == Some(OtherLines(text)[..i])
    ensures ReadPayload(Label(text, payload)) == None
  {
    var kept := OtherLines(text);
    var lines := kept + [Entry(payload)];
    EntryIsPlain(payload);
    OtherLinesArePlain(text);
    var parts := SplitOfAssembled(SplitFrontMatter(text).bom, lines, SplitFrontMatter(text).body);
    FirstCloseInPrefix(kept, [Entry(payload)]);
    assert lines[..FirstClose(lines)] == kept[..FirstClose(kept)];
    FirstKeyAfter(kept[..FirstClose(kept)], Entry(payload));
  }

  lemma {:induction false} FirstCloseInPrefix(lines: seq<string>, rest: seq<string>)
    requires !NoClose(lines)
    ensures FirstClose(lines + rest) == FirstClose(lines) < |lines|
  {
    if !IsClose(lines[0]) {
      assert (lines + rest)[1..] == lines[1..] + rest;
      FirstCloseInPrefix(lines[1..], rest);
    }
  }

  /**
   Reading a labelled file returns the payload exactly when none of the kept front-matter lines would
   itself close the front matter, and the payload has no line break in it.
   */
  lemma ReadsBackIff(text: string, payload: string)
    ensures ReadPayload(Label(text, payload)) == Some(payload) <==> NoClose(OtherLines(text)) && OneLine(payload)
  {
    if !OneLine(payload) {
      ReadIsOneLine(Label(text, payload));
    } else if NoClose(OtherLines(text)) {
      LabelledFileSplitsBack(text, payload);
      EntryIsPlain(payload);
      OtherLinesArePlain(text);
      FirstKeyAfter(OtherLines(text), Entry(payload));
      EntryReadsBack(payload);
    } else {
      HiddenLabel(text, payload);
    }
  }

  /** Lines without the key are all kept. */
  lemma {:induction false} NothingDropped(lines: seq<string>, extra: seq<string>, n: nat)
    requires n <= |lines| && NoKeyLine(lines)
    ensures Kept(lines + extra, n) == lines[..n]
    ensures n > 0 ==> !Dropped(lines + extra, n - 1)
  {
    if n > 0 {
      NothingDropped(lines, extra, n - 1);
      assert (lines + extra)[n - 1] == lines[n - 1] && lines[..n] == lines[..n - 1] + [lines[n - 1]];
    }
  }

  lemma EntryIsDropped(kept: seq<string>, entry: string)
    requires IsKeyLine(entry) && forall line | line in kept :: !IsKeyLine(line)
    ensures Kept(kept + [entry], |kept| + 1) == kept
  {
    NothingDropped(kept, [entry], |kept|);
    assert Dropped(kept + [entry], |kept|);
    assert kept[..|kept|] == kept;
  }

  lemma RelabelKeepsOtherLines(text: string, payload: string)
    requires NoClose(OtherLines(text)) && OneLine(payload)
    ensures OtherLines(Label(text, payload)) == OtherLines(text)
  {
    LabelledFileSplitsBack(text, payload);
    EntryIsPlain(payload);
    OtherLinesArePlain(text);
    EntryIsDropped(OtherLines(text), Entry(payload));
  }

  // ---- files with ordinary line ends ----------------------------------------------

  /** Cut at line feeds, no line has a break in it but one carriage return at its end. */
  ghost predicate PlainBreaks(text: string) {
    forall line | line in SplitOn(text, '\n') :: OneLine(Chomp(line))
  }

  /** Such a file meets the condition of both laws. */
  lemma PlainBreaksHideNothing(text: string)
    requires PlainBreaks(text)
    ensures NoClose(OtherLines(text))
  {
    var rest := text[|BomOf(text)|..];
    var lines := SplitOn(rest, '\n');
    if SplitFrontMatter(text).lines.Some? {
      PlainAfterBom(text);
      var inner := lines[1..];
      var block := inner[..FirstClose(inner)];
      SplitLinesOfTerminated(block);
      ChompedNeverCloses(block);
      KeptAreOthers(Chomped(block), |Chomped(block)|);
    }
  }

  lemma PlainAfterBom(text: string)
    requires PlainBreaks(text)
    ensures var lines := SplitOn(text[|BomOf(text)|..], '\n');
      forall i | 1 <= i < |lines| :: OneLine(Chomp(lines[i]))
  {
    var rest := text[|BomOf(text)|..];
    if rest != text {
      var tail := SplitOn(rest, '\n');
      assert text[0] == BOM && text[1..] == rest;
      assert SplitOn(text, '\n')[1..] == tail[1..];
      forall i | 1 <= i < |tail| ensures OneLine(Chomp(tail[i])) {
        assert tail[i] == SplitOn(text, '\n')[i];
      }
    } else {
      assert text[|BomOf(text)|..] == text;
    }
  }

  lemma {:induction false} ChompedNeverCloses(lines: seq<string>)
    requires forall i | 0 <= i < |lines| :: OneLine(Chomp(lines[i])) && !IsClose(lines[i])
    ensures NoClose(Chomped(lines))
  {
    if lines != [] {
      ChompedNeverCloses(lines[1..]);
      ChompCloses(lines[0]);
    }
  }

  lemma ChompCloses(line: string)
    requires OneLine(Chomp(line))
    ensures IsClose(Chomp(line)) ==> IsClose(line)
  {
    var bare := Chomp(line);
    if IsClose(bare) && bare != line {
      assert line == bare + ['\r'];
      var t := bare[3..];
      assert line[3..] == t + ['\r'];
      if t != "" { assert t[|t| - 1] in bare; }
      assert line[..3] == bare[..3] && (t + ['\r'])[..|t|] == t;
    }
  }

  const EXOTIC := "a\U{2028}---"

  /** One exotic line break in the front matter is enough to lose the label. */
  lemma LabelCanBeLost(payload: string)
    requires OneLine(payload)
    ensures ReadPayload(Label("---\na\U{2028}---\n---\n", payload)) == None
  {
    var text := "---\na\U{2028}---\n---\n";
    var inner := ExoticInner();
    SplitOfOpened("", inner, text);
    ExoticKept(text);
    HiddenLabel(text, payload);
  }

  lemma ExoticKept(text: string)
    requires SplitFrontMatter(text).lines == Some(["a", "---"])
    ensures !NoClose(OtherLines(text))
  {
    var lines := ["a", "---"];
    NothingDropped(lines, [], 2);
    assert lines + [] == lines && lines[..2] == lines;
    assert lines[1] in lines && IsClose(lines[1]);
  }

  lemma ExoticInner() returns (inner: seq<string>)
    ensures inner == [EXOTIC, "---", ""] && SplitAtClose(inner).Some? && SplitAtClose(inner).value.0 == ["a", "---"]
    ensures "" + JoinWith(["---"] + inner, '\n') == "---\na\U{2028}---\n---\n"
  {
    inner := [EXOTIC, "---", ""];
    assert EXOTIC[0] == 'a' && inner[1..][0] == "---";
    assert FirstClose(inner) == 1 && inner[..1] == [EXOTIC];
    ExoticLines();
    ExoticText(inner);
  }

  lemma ExoticText(inner: seq<string>)
    requires inner == [EXOTIC, "---", ""]
    ensures "" + JoinWith(["---"] + inner, '\n') == "---\na\U{2028}---\n---\n"
  {
    assert inner[1..] == ["---", ""] && inner[1..][1..] == [""] && (["---"] + inner)[1..] == inner;
    var end := "---" + ['\n'] + "";
    assert JoinWith(inner[1..], '\n') == end;
    assert JoinWith(inner, '\n') == EXOTIC + ['\n'] + end;
    assert JoinWith(["---"] + inner, '\n') == "---" + ['\n'] + (EXOTIC + ['\n'] + end);
  }

  lemma ExoticLines()
    ensures SplitLines(Terminated([EXOTIC])) == ["a", "---"]
  {
    var rest := "---\n";
    assert [EXOTIC][1..] == [] && Terminated([EXOTIC]) == EXOTIC + "\n" + "";
    assert EXOTIC + "\n" + "" == "a" + ['\U{2028}'] + rest;
    SplitAtBreak("---", '\n', "", rest);
    SplitAtBreak("a", '\U{2028}', rest, Terminated([EXOTIC]));
  }
}
