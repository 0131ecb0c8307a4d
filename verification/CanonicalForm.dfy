/**
 The canonical text itself, character by character (core/crates/contracts/src/evidence.rs): which of
 the many JSON spellings of a payload is the one that gets hashed.
 */
module CanonicalForm {
  import opened Texts
  import opened CanonicalJson

  // ---- strings ---------------------------------------------------------------

  const HEX := "0123456789abcdef"

  /** What stands between the quotes. */
  function Inner(s: string): string {
    var quoted := Quoted(s);
    quoted[1..|quoted| - 1]
  }

  lemma InnerIsEscaped(s: string)
    ensures Inner(s) == Escaped(s) && Quoted(s) == "\"" + Inner(s) + "\""
  {
    assert Quoted(s)[1..|Quoted(s)| - 1] == Escaped(s);
  }

  lemma InnerOfOne(c: char)
    ensures Inner([c]) == Escape(c)
  {
    InnerIsEscaped([c]);
    assert [c][1..] == "" && Escape(c) + "" == Escape(c);
  }

  lemma {:induction false} EscapedAppend(s: string, t: string)
    ensures Escaped(s + t) == Escaped(s) + Escaped(t)
  {
    if s == "" {
      assert s + t == t && Escaped(s) + Escaped(t) == Escaped(t);
    } else {
      assert (s + t)[0] == s[0] && (s + t)[1..] == s[1..] + t;
      EscapedAppend(s[1..], t);
      Assoc(Escape(s[0]), Escaped(s[1..]), Escaped(t));
    }
  }

  /** A string is printed character by character, between quotes. */
  lemma InnerAppend(s: string, t: string)
    ensures Inner(s + t) == Inner(s) + Inner(t)
    ensures Quoted(s) == "\"" + Inner(s) + "\""
  {
    InnerIsEscaped(s);
    InnerIsEscaped(t);
    InnerIsEscaped(s + t);
    EscapedAppend(s, t);
  }

  predicate IsPlain(c: char) { c >= ' ' && c != '"' && c != '\\' }

  /** A string of plain characters is printed as it stands: a slash, say, or a letter outside ASCII. */
  lemma {:induction false} PlainPrintsAsItStands(s: string)
    requires forall c | c in s :: IsPlain(c)
    ensures Inner(s) == s && Quoted(s) == "\"" + s + "\""
  {
    InnerIsEscaped(s);
    if s != "" {
      PlainPrintsAsItStands(s[1..]);
      InnerIsEscaped(s[1..]);
      assert IsPlain(s[0]) && s == [s[0]] + s[1..];
    }
  }

  /** The seven short escapes. */
  lemma ShortEscapes()
    ensures Inner("\"") == "\\\"" && Inner("\\") == "\\\\"
    ensures Inner("\n") == "\\n" && Inner("\r") == "\\r" && Inner("\t") == "\\t"
    ensures Inner("\U{08}") == "\\b" && Inner("\U{0c}") == "\\f"
  {
    InnerOfOne('"');
    InnerOfOne('\\');
    InnerOfOne('\n');
    InnerOfOne('\r');
    InnerOfOne('\t');
    InnerOfOne('\U{08}');
    InnerOfOne('\U{0c}');
  }

  /** Every other control character is printed as its four hexadecimal digits, in lower case. */
  lemma ControlEscapes(c: char)
    requires c < ' ' && c !in {'\n', '\r', '\t', '\U{08}', '\U{0c}'}
    ensures Inner([c]) == "\\u00" + [HEX[c as nat / 16], HEX[c as nat % 16]]
  {
    InnerOfOne(c);
    HexDigitIs(c as nat / 16);
    HexDigitIs(c as nat % 16);
  }

  lemma HexDigitIs(d: nat)
    requires d < 16
    ensures HexDigit(d) == HEX[d]
  {
    if d < 4 {} else if d < 8 {} else if d < 12 {} else {}
  }

  // ---- keys -----------------------------------------------------------------------

  /** a and b part at position k, where a ends or has the smaller code point. */
  predicate PartsBelow(a: string, b: string, k: nat) {
    k <= |a| && k < |b| && a[..k] == b[..k] && (k == |a| || a[k] < b[k])
  }

  lemma PartsAtFirst(a: string, b: string, k: nat)
    requires PartsBelow(a, b, k)
    ensures a != "" ==> if k == 0 then a[0] < b[0] else a[0] == b[0]
  {
    if k > 0 && a != "" { assert a[..k][0] == b[..k][0]; }
  }

  /** Keys are compared by code point, and a key before its extensions. */
  lemma {:induction false} BeforeIsCodePointOrder(a: string, b: string)
    ensures Before(a, b) <==> exists k :: PartsBelow(a, b, k)
  {
    if b == "" {
    } else if a == "" || a[0] != b[0] {
      if a == "" || a[0] < b[0] { assert PartsBelow(a, b, 0); }
      forall k: nat | PartsBelow(a, b, k) ensures a == "" || a[0] < b[0] { PartsAtFirst(a, b, k); }
    } else {
      BeforeIsCodePointOrder(a[1..], b[1..]);
      if k: nat :| PartsBelow(a[1..], b[1..], k) {
        assert a[..k + 1] == [a[0]] + a[1..][..k] && b[..k + 1] == [b[0]] + b[1..][..k];
        assert PartsBelow(a, b, k + 1);
      }
      if k: nat :| PartsBelow(a, b, k) {
        assert k > 0;
        assert a[1..][..k - 1] == a[..k][1..] && b[1..][..k - 1] == b[..k][1..];
        assert PartsBelow(a[1..], b[1..], k - 1);
      }
    }
  }

  /** Each key parts from every later one below it. */
  ghost predicate AscendingByCodePoint(ks: seq<string>) {
    forall i, j | 0 <= i < j < |ks| :: exists k :: PartsBelow(ks[i], ks[j], k)
  }

  // ---- whole values -----------------------------------------------------------------

  lemma AtomTexts(n: nat)
    ensures Text(Null) == "null" && Text(Bool(true)) == "true" && Text(Bool(false)) == "false"
    ensures var t := Text(Number(n)); AllDigits(t) && t != "" && (|t| > 1 ==> t[0] != '0') && DecimalValue(t) == n
    ensures n > 0 ==> Text(Number(-(n as int))) == "-" + Text(Number(n))
  {
  }

  lemma StringText(s: string)
    ensures Text(Str(s)) == "\"" + Inner(s) + "\""
  {
    InnerIsEscaped(s);
  }

  ghost function ItemTexts(items: seq<Json>): (ts: seq<string>)
    requires AllWellFormed(items)
    ensures |ts| == |items| && forall i | 0 <= i < |ts| :: ts[i] == Text(items[i])
  {
    seq(|items|, i requires 0 <= i < |items| && AllWellFormed(items) => Text(items[i]))
  }

  lemma {:induction false} ItemsAreJoined(items: seq<Json>, i: nat)
    requires AllWellFormed(items) && i < |items|
    ensures ItemsText(items, i) == Comma(i) + JoinWith(ItemTexts(items)[i..], ',')
    decreases |items| - i
  {
    var rest := ItemTexts(items)[i..];
    assert rest[0] == Text(items[i]);
    if i + 1 < |items| {
      ItemsAreJoined(items, i + 1);
      var more := JoinWith(rest[1..], ',');
      assert rest[1..] == ItemTexts(items)[i + 1..];
      Assoc(Comma(i), Text(items[i]), [','] + more);
      Assoc(Text(items[i]), [','], more);
    } else {
      assert ItemsText(items, i + 1) == "";
    }
  }

  /** An array is its elements' texts in order, commas between them, in square brackets. */
  lemma ArrayText(items: seq<Json>)
    requires AllWellFormed(items)
    ensures Text(Arr(items)) == "[" + JoinWith(ItemTexts(items), ',') + "]"
  {
    if items != [] {
      ItemsAreJoined(items, 0);
      assert ItemTexts(items)[0..] == ItemTexts(items);
    }
  }

  ghost function MemberTexts(obj: Json, ks: seq<string>): (ts: seq<string>)
    requires KeysOf(obj, ks)
    ensures |ts| == |ks|
    ensures forall i | 0 <= i < |ts| :: ts[i] == "\"" + Inner(ks[i]) + "\":" + Text(Lookup(obj.members, ks[i]))
  {
    seq(|ks|, i requires 0 <= i < |ks| && KeysOf(obj, ks) =>
      "\"" + Inner(ks[i]) + "\":" + Text(Lookup(obj.members, ks[i])))
  }

  lemma OneMember(comma: string, inner: string, text: string)
    ensures comma + ("\"" + inner + "\"") + ":" + text == comma + ("\"" + inner + "\":" + text)
  {
  }

  lemma {:induction false} MembersAreJoined(obj: Json, ks: seq<string>, i: nat)
    requires KeysOf(obj, ks) && i < |ks|
    ensures MembersText(obj, ks, i) == Comma(i) + JoinWith(MemberTexts(obj, ks)[i..], ',')
    decreases |ks| - i
  {
    var rest := MemberTexts(obj, ks)[i..];
    InnerIsEscaped(ks[i]);
    OneMember(Comma(i), Inner(ks[i]), Text(Lookup(obj.members, ks[i])));
    assert MemberText(obj, ks, i) == Comma(i) + rest[0];
    if i + 1 < |ks| {
      MembersAreJoined(obj, ks, i + 1);
      var more := JoinWith(rest[1..], ',');
      assert rest[1..] == MemberTexts(obj, ks)[i + 1..];
      Assoc(Comma(i), rest[0], [','] + more);
      Assoc(rest[0], [','], more);
    } else {
      assert MembersText(obj, ks, i + 1) == "";
    }
  }

  lemma AscendingIsSorted(ks: seq<string>)
    requires AscendingByCodePoint(ks)
    ensures Sorted(ks)
  {
    forall i, j | 0 <= i < j < |ks| ensures Before(ks[i], ks[j]) { BeforeIsCodePointOrder(ks[i], ks[j]); }
  }

  lemma MembersJoined(obj: Json, ks: seq<string>)
    requires KeysOf(obj, ks)
    ensures MembersText(obj, ks, 0) == JoinWith(MemberTexts(obj, ks), ',')
  {
    if ks != [] {
      MembersAreJoined(obj, ks, 0);
      assert MemberTexts(obj, ks)[0..] == MemberTexts(obj, ks);
      assert "" + JoinWith(MemberTexts(obj, ks), ',') == JoinWith(MemberTexts(obj, ks), ',');
    }
  }

  /** An object is its members' texts with the keys ascending by code point, commas between them, in braces. */
  lemma ObjectText(obj: Json, ks: seq<string>)
    requires obj.Obj? && WellFormed(obj) && AscendingByCodePoint(ks) && forall k :: k in ks <==> k in Keys(obj.members)
    ensures Text(obj) == "{" + JoinWith(MemberTexts(obj, ks), ',') + "}"
  {
    AscendingIsSorted(ks);
    SortedIsUnique(ks, SortKeys(Keys(obj.members)));
    MembersJoined(obj, ks);
  }
}
