/**
 A parser for the JSON texts the evidence writer prints: values, objects and strings as in
 sections 3, 4 and 7 of RFC 8259, without white space, fractions, exponents or surrogate pairs,
 and refusing an object that names a key twice.
 It is the independent reference the writer is judged against.
 */
module JsonParser {
  import opened Texts
  import opened CanonicalJson

  datatype Parsed<+T> = Fail | Done(value: T, rest: string) {
    predicate IsFailure() { Fail? }
    function PropagateFailure<U>(): Parsed<U> requires Fail? { Fail }
    function Extract(): (T, string) requires Done? { (value, rest) }
  }

  function HexValue(c: char): Option<nat> {
    if '0' <= c <= '9' then Some((c - '0') as nat)
    else if 'a' <= c <= 'f' then Some((c - 'a') as nat + 10)
    else if 'A' <= c <= 'F' then Some((c - 'A') as nat + 10)
    else None
  }

  /** The code unit of four hexadecimal digits. */
  function HexCode(a: char, b: char, c: char, d: char): Option<nat> {
    match (HexValue(a), HexValue(b), HexValue(c), HexValue(d))
    case (Some(p), Some(q), Some(r), Some(t)) => Some(4096 * p + 256 * q + 16 * r + t)
    case _ => None
  }

  /** What follows a backslash. */
  function ParseEscape(s: string): (p: Parsed<char>)
    ensures p.Done? ==> |p.rest| < |s|
  {
    if s == "" then Fail
    else if s[0] == '"' || s[0] == '\\' || s[0] == '/' then Done(s[0], s[1..])
    else if s[0] == 'b' then Done('\U{08}', s[1..])
    else if s[0] == 'f' then Done('\U{0c}', s[1..])
    else if s[0] == 'n' then Done('\n', s[1..])
    else if s[0] == 'r' then Done('\r', s[1..])
    else if s[0] == 't' then Done('\t', s[1..])
    else if s[0] == 'u' && |s| >= 5 then
      match HexCode(s[1], s[2], s[3], s[4])
      case Some(code) => if code < 0xD800 || 0xE000 <= code < 0x10000 then Done(code as char, s[5..]) else Fail
      case None => Fail
    else Fail
  }

  /** A string, from just after its opening quote. */
  function ParseString(s: string): (p: Parsed<string>)
    ensures p.Done? ==> |p.rest| < |s|
    decreases |s|
  {
    if s == "" || s[0] < ' ' then Fail
    else if s[0] == '"' then Done("", s[1..])
    else if s[0] == '\\' then
      var (c, r) :- ParseEscape(s[1..]);
      var (tail, r') :- ParseString(r);
      Done([c] + tail, r')
    else
      var (tail, r) :- ParseString(s[1..]);
      Done([s[0]] + tail, r)
  }

  function ParseNumber(s: string): (p: Parsed<int>)
    ensures p.Done? ==> |p.rest| < |s|
  {
    var t := if s != "" && s[0] == '-' then s[1..] else s;
    var n := DigitRun(t);
    if n == 0 || (n > 1 && t[0] == '0') then Fail else
    var m := DecimalValue(t[..n]);
    Done(if s[0] == '-' then -(m as int) else m as int, t[n..])
  }

  /** A literal name or a number. */
  function ParseAtom(s: string): (p: Parsed<Value>)
    ensures p.Done? ==> |p.rest| < |s|
  {
    if StartsWith(s, "null") then Done(VNull, s[4..])
    else if StartsWith(s, "true") then Done(VBool(true), s[4..])
    else if StartsWith(s, "false") then Done(VBool(false), s[5..])
    else
      var (n, r) :- ParseNumber(s);
      Done(VNumber(n), r)
  }

  function ParseValue(s: string): (p: Parsed<Value>)
    ensures p.Done? ==> |p.rest| < |s|
    decreases |s|, 0
  {
    if s == "" then Fail
    else if s[0] == '"' then
      var (str, r) :- ParseString(s[1..]);
      Done(VStr(str), r)
    else if s[0] == '[' then
      if StartsWith(s[1..], "]") then Done(VArr([]), s[2..]) else
      var (items, r) :- ParseItems(s[1..]);
      Done(VArr(items), r)
    else if s[0] == '{' then
      if StartsWith(s[1..], "}") then Done(VObj(map[]), s[2..]) else
      var (fields, r) :- ParseMembers(s[1..]);
      Done(VObj(fields), r)
    else ParseAtom(s)
  }

  /** One or more elements and the closing bracket. */
  function ParseItems(s: string): (p: Parsed<seq<Value>>)
    ensures p.Done? ==> |p.rest| < |s|
    decreases |s|, 1
  {
    var (v, r) :- ParseValue(s);
    if r == "" then Fail
    else if r[0] == ']' then Done([v], r[1..])
    else if r[0] == ',' then
      var (vs, r') :- ParseItems(r[1..]);
      Done([v] + vs, r')
    else Fail
  }

  /** One or more members and the closing brace. */
  function ParseMembers(s: string): (p: Parsed<map<string, Value>>)
    ensures p.Done? ==> |p.rest| < |s|
    decreases |s|, 1
  {
    if s == "" || s[0] != '"' then Fail else
    var (k, r) :- ParseString(s[1..]);
    if r == "" || r[0] != ':' then Fail else
    var (v, r') :- ParseValue(r[1..]);
    if r' == "" then Fail
    else if r'[0] == '}' then Done(map[k := v], r'[1..])
    else if r'[0] == ',' then
      var (fields, r'') :- ParseMembers(r'[1..]);
      if k in fields then Fail else Done(fields[k := v], r'')
    else Fail
  }

  // ---- strings and numbers come back ---------------------------------------

  lemma EscapeComesBack(c: char, rest: string)
    ensures Escape(c) != ""
    ensures Escape(c)[0] == '\\' ==> ParseEscape(Escape(c)[1..] + rest) == Done(c, rest)
    ensures Escape(c)[0] != '\\' ==> Escape(c) == [c] && c >= ' ' && c != '"'
  {
    var e := Escape(c);
    if c < ' ' && e[..2] == "\\u" {
      var hi, lo := c as nat / 16, c as nat % 16;
      assert e == "\\u00" + [HexDigit(hi), HexDigit(lo)] by { EscapeOfControl(c); }
      var t := e[1..] + rest;
      assert t[..5] == ['u', '0', '0', HexDigit(hi), HexDigit(lo)];
      HexDigitComesBack(hi);
      HexDigitComesBack(lo);
      assert HexCode(t[1], t[2], t[3], t[4]) == Some(c as nat);
      assert t[5..] == rest;
    } else if e[0] == '\\' {
      assert |e| == 2;
      assert (e[1..] + rest)[0] == e[1] && (e[1..] + rest)[1..] == rest;
    }
  }

  lemma EscapeOfControl(c: char)
    requires c < ' ' && Escape(c)[..2] == "\\u"
    ensures Escape(c) == "\\u00" + [HexDigit(c as nat / 16), HexDigit(c as nat % 16)]
  {
    assert "\\n"[1] == 'n' && "\\r"[1] == 'r' && "\\t"[1] == 't' && "\\b"[1] == 'b' && "\\f"[1] == 'f';
    assert Escape(c)[1] == Escape(c)[..2][1] == 'u';
  }

  lemma HexDigitComesBack(d: nat)
    requires d < 16
    ensures HexValue(HexDigit(d)) == Some(d)
  {
  }

  lemma HeadAndRest(e: string, more: string, end: string)
    requires e != ""
    ensures e + more + end == [e[0]] + (e[1..] + (more + end))
  {
  }

  lemma EscapedSplit(s: string, rest: string)
    requires s != ""
    ensures var e, after := Escape(s[0]), Escaped(s[1..]) + "\"" + rest;
      e != "" && Escaped(s) + "\"" + rest == [e[0]] + (e[1..] + after)
  {
    EscapeComesBack(s[0], "");
    var e, more, end := Escape(s[0]), Escaped(s[1..]), "\"" + rest;
    HeadAndRest(e, more, end);
    Assoc(Escaped(s), "\"", rest);
    Assoc(more, "\"", rest);
  }

  lemma PlainStep(c: char, after: string, tail: string, rest: string)
    requires c >= ' ' && c != '"' && c != '\\' && ParseString(after) == Done(tail, rest)
    ensures ParseString([c] + after) == Done([c] + tail, rest)
  {
    assert ([c] + after)[1..] == after;
  }

  lemma EscapeStep(escape: string, c: char, after: string, tail: string, rest: string)
    requires ParseEscape(escape) == Done(c, after) && ParseString(after) == Done(tail, rest)
    ensures ParseString(['\\'] + escape) == Done([c] + tail, rest)
  {
    assert (['\\'] + escape)[1..] == escape;
  }

  lemma {:induction false} StringComesBack(s: string, rest: string)
    ensures ParseString(Escaped(s) + "\"" + rest) == Done(s, rest)
  {
    if s == "" {
      assert Escaped(s) + "\"" + rest == "\"" + rest;
      assert ("\"" + rest)[1..] == rest;
    } else {
      var c, e, after := s[0], Escape(s[0]), Escaped(s[1..]) + "\"" + rest;
      EscapedSplit(s, rest);
      EscapeComesBack(c, after);
      StringComesBack(s[1..], rest);
      assert s == [c] + s[1..];
      if e[0] == '\\' {
        EscapeStep(e[1..] + after, c, after, s[1..], rest);
      } else {
        assert e[1..] + after == after;
        PlainStep(c, after, s[1..], rest);
      }
    }
  }

  predicate NoDigitAhead(rest: string) {
    rest == "" || !IsDigit(rest[0])
  }

  lemma NumberComesBack(n: int, rest: string)
    requires NoDigitAhead(rest)
    ensures ParseNumber(IntText(n) + rest) == Done(n, rest)
    ensures IsDigit(IntText(n)[0]) || IntText(n)[0] == '-'
  {
    var m: nat := if n < 0 then -n else n;
    var d := Decimal(m);
    DigitRunOfBlock(d, rest);
    assert IsDigit(d[0]);
    if n < 0 { MinusSign(d, rest); }
    NumeralComesBack(n, m, d, rest);
  }

  lemma MinusSign(d: string, rest: string)
    ensures ("-" + d + rest)[0] == '-' && ("-" + d + rest)[1..] == d + rest
  {
  }

  lemma NumeralComesBack(n: int, m: nat, d: string, rest: string)
    requires d != "" && AllDigits(d) && DecimalValue(d) == m && (|d| > 1 ==> d[0] != '0')
    requires DigitRun(d + rest) == |d| && m == (if n < 0 then -n else n)
    ensures n >= 0 ==> ParseNumber(d + rest) == Done(n, rest)
    ensures n < 0 ==> ParseNumber("-" + d + rest) == Done(n, rest)
  {
    var t := d + rest;
    assert t[0] == d[0] && t[..|d|] == d && t[|d|..] == rest;
    MinusSign(d, rest);
  }

  // ---- one step of the parser ----------------------------------------------

  lemma Group4(a: string, b: string, c: string, d: string)
    ensures a + b + c + d == a + (b + c + d)
  {
  }

  lemma LastItem(x: string, v: Value, rest: string)
    requires ParseValue(x + ("]" + rest)) == Done(v, "]" + rest)
    ensures ParseItems(x + ("]" + rest)) == Done([v], rest)
  {
    assert ("]" + rest)[1..] == rest;
  }

  lemma NextItem(x: string, v: Value, more: string, vs: seq<Value>, rest: string)
    requires ParseValue(x + ("," + more)) == Done(v, "," + more)
    requires ParseItems(more) == Done(vs, rest)
    ensures ParseItems(x + ("," + more)) == Done([v] + vs, rest)
  {
    assert ("," + more)[1..] == more;
  }

  lemma MemberKey(k: string, x: string)
    ensures var s := Quoted(k) + (":" + x);
      s != "" && s[0] == '"' && ParseString(s[1..]) == Done(k, ":" + x) && (":" + x)[1..] == x
  {
    var s := Quoted(k) + (":" + x);
    assert s[1..] == Escaped(k) + "\"" + (":" + x);
    StringComesBack(k, ":" + x);
  }

  lemma LastMember(k: string, x: string, v: Value, rest: string)
    requires ParseValue(x + ("}" + rest)) == Done(v, "}" + rest)
    ensures ParseMembers(Quoted(k) + (":" + (x + ("}" + rest)))) == Done(map[k := v], rest)
  {
    MemberKey(k, x + ("}" + rest));
    assert ("}" + rest)[1..] == rest;
  }

  lemma AnotherMember(k: string, x: string, v: Value, more: string, fields: map<string, Value>, rest: string)
    requires ParseValue(x + ("," + more)) == Done(v, "," + more)
    requires ParseMembers(more) == Done(fields, rest) && k !in fields
    ensures ParseMembers(Quoted(k) + (":" + (x + ("," + more)))) == Done(fields[k := v], rest)
  {
    MemberKey(k, x + ("," + more));
    assert ("," + more)[1..] == more;
  }

  lemma Opened(open: string, body: string)
    requires |open| == 1
    ensures (open + body)[0] == open[0] && (open + body)[1..] == body
  {
  }

  // ---- whole values come back ----------------------------------------------

  lemma TextHead(v: Json)
    requires WellFormed(v)
    ensures Text(v) != "" && Text(v)[0] != ']'
    ensures !v.Number? ==> Text(v)[0] != '-' && !IsDigit(Text(v)[0])
  {
    if v.Number? { NumberComesBack(v.n, ""); assert IntText(v.n) + "" == IntText(v.n); }
  }

  /** Reading a printed value, whatever follows it, gives its meaning and leaves what follows. */
  lemma {:induction false} ParseOfText(v: Json, rest: string)
    requires WellFormed(v)
    requires NoDigitAhead(rest)
    ensures ParseValue(Text(v) + rest) == Done(Meaning(v), rest)
    decreases v, 2
  {
    match v
    case Arr(items) => ParseOfArray(v, rest);
    case Obj(_) => ParseOfObject(v, rest);
    case _ => ParseOfScalar(v, rest);
  }

  lemma ParseOfScalar(v: Json, rest: string)
    requires !v.Arr? && !v.Obj? && NoDigitAhead(rest)
    ensures ParseValue(Text(v) + rest) == Done(Meaning(v), rest)
  {
    match v
    case Null => Keyword("null", rest);
    case Bool(b) => if b { Keyword("true", rest); } else { Keyword("false", rest); }
    case Number(n) => NumberValue(n, rest);
    case Str(str) => QuotedComesBack(str, rest);
  }

  lemma NumberValue(n: int, rest: string)
    requires NoDigitAhead(rest)
    ensures ParseValue(IntText(n) + rest) == Done(VNumber(n), rest)
  {
    NumberComesBack(n, rest);
    NumberBranch(IntText(n) + rest, n, rest);
  }

  lemma NumberBranch(s: string, n: int, rest: string)
    requires s != "" && (IsDigit(s[0]) || s[0] == '-') && ParseNumber(s) == Done(n, rest)
    ensures ParseValue(s) == Done(VNumber(n), rest)
  {
    NumberAtom(s, n, rest);
  }

  lemma NumberAtom(s: string, n: int, rest: string)
    requires s != "" && (IsDigit(s[0]) || s[0] == '-') && ParseNumber(s) == Done(n, rest)
    ensures ParseAtom(s) == Done(VNumber(n), rest)
  {
    assert |s| >= 4 ==> s[..4][0] == s[0];
    assert |s| >= 5 ==> s[..5][0] == s[0];
  }

  lemma Keyword(word: string, rest: string)
    requires word in {"null", "true", "false"}
    ensures ParseValue(word + rest) == Done(if word == "null" then VNull else VBool(word == "true"), rest)
  {
    var s := word + rest;
    assert s[0] == word[0] && s[..|word|] == word && s[|word|..] == rest;
    assert |s| >= 4 ==> s[..4][0] == s[0];
  }

  lemma QuotedComesBack(str: string, rest: string)
    ensures ParseValue(Text(Str(str)) + rest) == Done(VStr(str), rest)
  {
    var s := Text(Str(str)) + rest;
    assert s == "\"" + (Escaped(str) + "\"" + rest);
    assert s[0] == '"' && s[1..] == Escaped(str) + "\"" + rest;
    StringComesBack(str, rest);
  }

  ghost function Meanings(items: seq<Json>): (vs: seq<Value>)
    ensures |vs| == |items| && forall i | 0 <= i < |items| :: vs[i] == Meaning(items[i])
  {
    seq(|items|, i requires 0 <= i < |items| => Meaning(items[i]))
  }

  lemma {:induction false} ParseOfArray(v: Json, rest: string)
    requires v.Arr? && WellFormed(v)
    ensures ParseValue(Text(v) + rest) == Done(Meaning(v), rest)
    decreases v, 1
  {
    var items := v.items;
    var after := ItemsText(items, 0) + "]" + rest;
    Group4("[", ItemsText(items, 0), "]", rest);
    Opened("[", after);
    if items == [] {
      EmptyArray(rest, after);
      assert Meaning(v).items == [];
    } else {
      BareItem(items, rest);
      TextHead(items[0]);
      ParseOfItems(items, 0, rest);
      assert Meanings(items)[0..] == Meaning(v).items;
      FullArray(after, Meaning(v).items, rest);
    }
  }

  lemma FullArray(after: string, vs: seq<Value>, rest: string)
    requires after != "" && after[0] != ']' && ParseItems(after) == Done(vs, rest)
    ensures ParseValue("[" + after) == Done(VArr(vs), rest)
  {
    Opened("[", after);
    assert after[..1][0] == after[0];
  }

  lemma EmptyArray(rest: string, after: string)
    requires after == "" + "]" + rest
    ensures ParseValue("[" + after) == Done(VArr([]), rest)
  {
    var s := "[" + after;
    assert s[1..] == after && after[..1] == "]" && s[2..] == rest;
  }

  lemma BareItem(items: seq<Json>, rest: string)
    requires AllWellFormed(items) && items != []
    ensures ItemsText(items, 0) + "]" + rest == Text(items[0]) + ItemsText(items, 1) + "]" + rest
    ensures Text(items[0]) != "" ==> (ItemsText(items, 0) + "]" + rest)[0] == Text(items[0])[0]
  {
    assert "" + Text(items[0]) == Text(items[0]);
  }

  lemma {:induction false} ParseOfItems(items: seq<Json>, i: nat, rest: string)
    requires AllWellFormed(items) && i < |items|
    ensures ParseItems(Text(items[i]) + ItemsText(items, i + 1) + "]" + rest) == Done(Meanings(items)[i..], rest)
    decreases items, 0, |items| - i
  {
    var x, more := Text(items[i]), ItemsText(items, i + 1) + "]" + rest;
    Group4(x, ItemsText(items, i + 1), "]", rest);
    if i + 1 == |items| {
      assert more == "]" + rest;
      ParseOfText(items[i], more);
      LastItem(x, Meaning(items[i]), rest);
      assert Meanings(items)[i..] == [Meaning(items[i])];
    } else {
      var next := Text(items[i + 1]) + ItemsText(items, i + 2) + "]" + rest;
      Group4(",", Text(items[i + 1]), ItemsText(items, i + 2), "]" + rest);
      Regroup(items, i + 1, rest);
      assert more == "," + next;
      ParseOfText(items[i], more);
      ParseOfItems(items, i + 1, rest);
      NextItem(x, Meaning(items[i]), next, Meanings(items)[i + 1..], rest);
      assert Meanings(items)[i..] == [Meaning(items[i])] + Meanings(items)[i + 1..];
    }
  }

  lemma Regroup(items: seq<Json>, i: nat, rest: string)
    requires AllWellFormed(items) && 0 < i < |items|
    ensures ItemsText(items, i) + "]" + rest == "," + (Text(items[i]) + ItemsText(items, i + 1) + "]" + rest)
  {
    var x, tail := Text(items[i]), ItemsText(items, i + 1);
    assert ItemsText(items, i) == "," + x + tail;
    Shift(x, tail, "]", rest);
  }

  lemma Shift(x: string, tail: string, end: string, rest: string)
    ensures "," + x + tail + end + rest == "," + (x + tail + end + rest)
  {
  }

  /** The fields an object means, restricted to the keys from position i on. */
  ghost function FieldsFrom(obj: Json, ks: seq<string>, i: nat): map<string, Value>
    requires KeysOf(obj, ks) && i <= |ks|
  {
    map k | k in ks[i..] :: Meaning(Lookup(obj.members, k))
  }

  lemma AllFields(v: Json, ks: seq<string>)
    requires v.Obj? && WellFormed(v) && ks == SortKeys(Keys(v.members))
    ensures KeysOf(v, ks) && Distinct(ks)
    ensures VObj(FieldsFrom(v, ks, 0)) == Meaning(v)
  {
    assert ks[0..] == ks;
    assert FieldsFrom(v, ks, 0) == Meaning(v).fields;
    forall i, j | 0 <= i < j < |ks| ensures ks[i] != ks[j] { BeforeIrreflexive(ks[i]); }
  }

  lemma {:induction false} ParseOfObject(v: Json, rest: string)
    requires v.Obj? && WellFormed(v)
    ensures ParseValue(Text(v) + rest) == Done(Meaning(v), rest)
    decreases v, 1
  {
    var ks := SortKeys(Keys(v.members));
    AllFields(v, ks);
    var after := MembersText(v, ks, 0) + "}" + rest;
    Group4("{", MembersText(v, ks, 0), "}", rest);
    Opened("{", after);
    if ks == [] {
      assert after == "}" + rest && after[..1] == "}" && ("{" + after)[2..] == rest;
      assert FieldsFrom(v, ks, 0) == map[];
    } else {
      FirstMember(v, ks, rest);
      assert after[0] == '"';
      assert !StartsWith(after, "}");
      ParseOfMembers(v, ks, 0, rest);
    }
  }

  /** What is left to read from member i on, its separator already consumed. */
  ghost function Remaining(obj: Json, ks: seq<string>, i: nat, rest: string): string
    requires KeysOf(obj, ks) && i < |ks|
  {
    Quoted(ks[i]) + (":" + (Text(Lookup(obj.members, ks[i])) + (MembersText(obj, ks, i + 1) + "}" + rest)))
  }

  lemma FirstMember(obj: Json, ks: seq<string>, rest: string)
    requires KeysOf(obj, ks) && ks != []
    ensures MembersText(obj, ks, 0) + "}" + rest == Remaining(obj, ks, 0, rest)
    ensures Remaining(obj, ks, 0, rest)[0] == '"'
  {
    assert MembersText(obj, ks, 0) == MemberText(obj, ks, 0) + MembersText(obj, ks, 1);
    FlattenMember("", Quoted(ks[0]), Text(Lookup(obj.members, ks[0])), MembersText(obj, ks, 1), rest);
    assert "" + Remaining(obj, ks, 0, rest) == Remaining(obj, ks, 0, rest);
  }

  lemma NextMember(obj: Json, ks: seq<string>, i: nat, rest: string)
    requires KeysOf(obj, ks) && 0 < i < |ks|
    ensures MembersText(obj, ks, i) + "}" + rest == "," + Remaining(obj, ks, i, rest)
  {
    assert MembersText(obj, ks, i) == MemberText(obj, ks, i) + MembersText(obj, ks, i + 1);
    FlattenMember(",", Quoted(ks[i]), Text(Lookup(obj.members, ks[i])), MembersText(obj, ks, i + 1), rest);
  }

  lemma FlattenMember(comma: string, key: string, x: string, tail: string, rest: string)
    ensures comma + key + ":" + x + tail + "}" + rest == comma + (key + (":" + (x + (tail + "}" + rest))))
  {
  }

  lemma FieldsStep(obj: Json, ks: seq<string>, i: nat)
    requires KeysOf(obj, ks) && i < |ks| && Distinct(ks)
    ensures ks[i] !in FieldsFrom(obj, ks, i + 1)
    ensures FieldsFrom(obj, ks, i) == FieldsFrom(obj, ks, i + 1)[ks[i] := Meaning(Lookup(obj.members, ks[i]))]
    ensures i + 1 == |ks| ==> FieldsFrom(obj, ks, i + 1) == map[]
  {
    assert ks[i..] == [ks[i]] + ks[i + 1..];
  }

  lemma {:induction false} ParseOfMembers(obj: Json, ks: seq<string>, i: nat, rest: string)
    requires KeysOf(obj, ks) && i < |ks| && Distinct(ks)
    ensures ParseMembers(Remaining(obj, ks, i, rest)) == Done(FieldsFrom(obj, ks, i), rest)
    decreases obj, 0, |ks| - i
  {
    var v := Lookup(obj.members, ks[i]);
    var more := MembersText(obj, ks, i + 1) + "}" + rest;
    if i + 1 == |ks| {
      assert more == "}" + rest;
      ParseOfText(v, more);
      LastMember(ks[i], Text(v), Meaning(v), rest);
      FieldsStep(obj, ks, i);
    } else {
      NextMember(obj, ks, i + 1, rest);
      ParseOfText(v, more);
      ParseOfMembers(obj, ks, i + 1, rest);
      FieldsStep(obj, ks, i);
      AnotherMember(ks[i], Text(v), Meaning(v), Remaining(obj, ks, i + 1, rest), FieldsFrom(obj, ks, i + 1), rest);
    }
  }

  // ---- unambiguity ---------------------------------------------------------

  /** Equal texts mean equal payloads, and the order members were inserted in never shows. */
  lemma SameTextIffSameMeaning(a: Json, b: Json)
    requires WellFormed(a) && WellFormed(b)
    ensures Text(a) == Text(b) <==> Meaning(a) == Meaning(b)
  {
    ParseOfText(a, "");
    ParseOfText(b, "");
    if Meaning(a) == Meaning(b) { TextByMeaning(a, b); }
  }

  lemma NonObjectHead(v: Json)
    requires WellFormed(v) && !v.Obj?
    ensures Text(v) != "" && Text(v)[0] != '{'
  {
    if v.Number? { NumberComesBack(v.n, ""); assert IntText(v.n) + "" == IntText(v.n); }
  }

  /** No printed payload is the beginning of another: a reader always knows where one ends. */
  lemma TextsAreSelfDelimiting(a: Json, b: Json, rest: string)
    requires WellFormed(a) && WellFormed(b) && a.Obj?
    requires Text(a) + rest == Text(b)
    ensures rest == "" && Meaning(a) == Meaning(b)
  {
    assert Text(b)[0] == Text(a)[0] == '{';
    if b.Obj? {
      ParseOfObject(a, rest);
      ParseOfObject(b, "");
      assert Text(b) + "" == Text(b);
    } else {
      NonObjectHead(b);
      assert false;
    }
  }
}
