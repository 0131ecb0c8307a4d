/**
 Canonical JSON text of an evidence payload (core/crates/contracts/src/evidence.rs).

 `Json` is what the writer is handed: an object keeps its members in whatever order the map
 iterates. `Value` is what a payload means: an object is a finite map. The writer sorts keys, so
 two payloads get one text exactly when they mean the same (`SameTextIffSameMeaning`), and a parser
 of the RFC 8259 grammar reads the meaning back (`ParseOfText`).
 */
module CanonicalJson {
  import opened Texts

  datatype Member = Member(key: string, value: Json)

  datatype Json =
    | Null
    | Bool(b: bool)
    | Number(n: int)
    | Str(s: string)
    | Arr(items: seq<Json>)
    | Obj(members: seq<Member>)

  datatype Value =
    | VNull
    | VBool(b: bool)
    | VNumber(n: int)
    | VStr(s: string)
    | VArr(items: seq<Value>)
    | VObj(fields: map<string, Value>)

  // ---- payloads and what they mean ----------------------------------------

  function Keys(ms: seq<Member>): (ks: seq<string>)
    ensures |ks| == |ms| && forall i | 0 <= i < |ms| :: ks[i] == ms[i].key
  {
    seq(|ms|, i requires 0 <= i < |ms| => ms[i].key)
  }

  predicate Distinct(ks: seq<string>) {
    forall i, j | 0 <= i < j < |ks| :: ks[i] != ks[j]
  }

  ghost predicate AllWellFormed(items: seq<Json>)
    decreases items, 0
  {
    forall i | 0 <= i < |items| :: WellFormed(items[i])
  }

  /** No object, at any depth, holds one key twice: a map cannot. */
  ghost predicate WellFormed(v: Json)
    decreases v, 1
  {
    match v
    case Arr(items) => AllWellFormed(items)
    case Obj(ms) => Distinct(Keys(ms)) && forall i | 0 <= i < |ms| :: WellFormed(ms[i].value)
    case _ => true
  }

  /** The value stored under a key, as `map[k]`. */
  function Lookup(ms: seq<Member>, k: string): (v: Json)
    requires k in Keys(ms)
    ensures exists i :: 0 <= i < |ms| && ms[i].key == k && ms[i].value == v
  {
    if ms[0].key == k then ms[0].value else
    assert Keys(ms) == [ms[0].key] + Keys(ms[1..]);
    var v := Lookup(ms[1..], k);
    assert exists i :: 0 <= i < |ms| && ms[i].key == k && ms[i].value == v by {
      var j :| 0 <= j < |ms[1..]| && ms[1..][j].key == k && ms[1..][j].value == v;
      assert ms[j + 1] == ms[1..][j];
    }
    v
  }

  ghost function Meaning(v: Json): Value
    decreases v
  {
    match v
    case Null => VNull
    case Bool(b) => VBool(b)
    case Number(n) => VNumber(n)
    case Str(s) => VStr(s)
    case Arr(items) => VArr(seq(|items|, i requires 0 <= i < |items| => Meaning(items[i])))
    case Obj(ms) => VObj(map k | k in Keys(ms) :: Meaning(Lookup(ms, k)))
  }

  // ---- key order -----------------------------------------------------------

  /** Strict code point order, the order of UTF-8 bytes. */
  predicate Before(a: string, b: string) {
    if b == "" then false
    else if a == "" then true
    else a[0] < b[0] || (a[0] == b[0] && Before(a[1..], b[1..]))
  }

  lemma {:induction false} BeforeIsTotal(a: string, b: string)
    ensures Before(a, b) || a == b || Before(b, a)
    ensures !(Before(a, b) && Before(b, a)) && !Before(a, a)
  {
    if a != "" && b != "" && a[0] == b[0] {
      BeforeIsTotal(a[1..], b[1..]);
      assert a == [a[0]] + a[1..] && b == [b[0]] + b[1..];
    }
    if a != "" { BeforeIrreflexive(a); }
  }

  lemma {:induction false} BeforeIrreflexive(a: string)
    ensures !Before(a, a)
  {
    if a != "" { BeforeIrreflexive(a[1..]); }
  }

  lemma {:induction false} BeforeIsTransitive(a: string, b: string, c: string)
    requires Before(a, b) && Before(b, c)
    ensures Before(a, c)
  {
    if a != "" && a[0] == b[0] == c[0] { BeforeIsTransitive(a[1..], b[1..], c[1..]); }
  }

  predicate Sorted(ks: seq<string>) {
    forall i, j | 0 <= i < j < |ks| :: Before(ks[i], ks[j])
  }

  function InsertKey(k: string, ks: seq<string>): (r: seq<string>)
    requires Sorted(ks) && k !in ks
    ensures Sorted(r) && |r| == |ks| + 1
    ensures forall x :: x in r <==> x == k || x in ks
  {
    if ks == [] then [k]
    else if Before(k, ks[0]) then
      assert Sorted([k] + ks) by {
        forall j | 0 < j < |ks| ensures Before(k, ks[j]) { BeforeIsTransitive(k, ks[0], ks[j]); }
      }
      [k] + ks
    else
      BeforeIsTotal(k, ks[0]);
      assert ks == [ks[0]] + ks[1..];
      var tail := InsertKey(k, ks[1..]);
      assert Sorted([ks[0]] + tail) by {
        forall j | 0 <= j < |tail| ensures Before(ks[0], tail[j]) {
          assert tail[j] in tail;
        }
      }
      [ks[0]] + tail
  }

  function SortKeys(ks: seq<string>): (r: seq<string>)
    requires Distinct(ks)
    ensures Sorted(r) && |r| == |ks|
    ensures forall x :: x in r <==> x in ks
  {
    if ks == [] then [] else
    assert forall x :: x in ks <==> x == ks[0] || x in ks[1..] by { assert ks == [ks[0]] + ks[1..]; }
    assert ks[0] !in ks[1..];
    InsertKey(ks[0], SortKeys(ks[1..]))
  }

  /** A set of keys has one sorted listing, whatever order they came in. */
  lemma {:induction false} SortedIsUnique(a: seq<string>, b: seq<string>)
    requires Sorted(a) && Sorted(b)
    requires forall x :: x in a <==> x in b
    ensures a == b
    decreases |a|
  {
    if a == [] {
      assert forall i | 0 <= i < |b| :: b[i] in b;
    } else {
      assert a[0] in b;
      assert b[0] in a;
      if a[0] != b[0] {
        BeforeIsTotal(a[0], b[0]);
        assert false;
      }
      BeforeIrreflexive(a[0]);
      assert a[0] !in a[1..] && a[0] !in b[1..];
      forall x ensures x in a[1..] <==> x in b[1..] {
        assert x in a <==> x == a[0] || x in a[1..] by { assert a == [a[0]] + a[1..]; }
        assert x in b <==> x == a[0] || x in b[1..] by { assert b == [b[0]] + b[1..]; }
      }
      SortedIsUnique(a[1..], b[1..]);
    }
  }

  // ---- the text ------------------------------------------------------------

  function HexDigit(d: nat): (c: char)
    requires d < 16
  {
    if d < 10 then '0' + d as char else 'a' + (d - 10) as char
  }

  function Escape(c: char): string {
    if c == '"' then "\\\""
    else if c == '\\' then "\\\\"
    else if c == '\n' then "\\n"
    else if c == '\r' then "\\r"
    else if c == '\t' then "\\t"
    else if c == '\U{08}' then "\\b"
    else if c == '\U{0c}' then "\\f"
    else if c < ' ' then "\\u00" + [HexDigit(c as nat / 16), HexDigit(c as nat % 16)]
    else [c]
  }

  function Escaped(s: string): string {
    if s == "" then "" else Escape(s[0]) + Escaped(s[1..])
  }

  function Quoted(s: string): string {
    "\"" + Escaped(s) + "\""
  }

  function IntText(n: int): string {
    if n < 0 then "-" + Decimal(-n) else Decimal(n)
  }

  function Comma(i: nat): string {
    if i > 0 then "," else ""
  }

  ghost function Text(v: Json): string
    requires WellFormed(v)
    decreases v, 1
  {
    match v
    case Null => "null"
    case Bool(b) => if b then "true" else "false"
    case Number(n) => IntText(n)
    case Str(s) => Quoted(s)
    case Arr(items) => "[" + ItemsText(items, 0) + "]"
    case Obj(ms) => "{" + MembersText(v, SortKeys(Keys(ms)), 0) + "}"
  }

  /** The elements from position i on, each after its separator. */
  ghost function ItemsText(items: seq<Json>, i: nat): string
    requires i <= |items| && AllWellFormed(items)
    decreases items, 0, |items| - i
  {
    if i == |items| then ""
    else Comma(i) + Text(items[i]) + ItemsText(items, i + 1)
  }

  ghost predicate KeysOf(obj: Json, ks: seq<string>) {
    obj.Obj? && WellFormed(obj) && forall k | k in ks :: k in Keys(obj.members)
  }

  ghost function MemberText(obj: Json, ks: seq<string>, i: nat): string
    requires KeysOf(obj, ks) && i < |ks|
    decreases obj, 0, |ks| - i, 0
  {
    Comma(i) + Quoted(ks[i]) + ":" + Text(Lookup(obj.members, ks[i]))
  }

  /** The members named by ks from position i on. */
  ghost function MembersText(obj: Json, ks: seq<string>, i: nat): string
    requires KeysOf(obj, ks) && i <= |ks|
    decreases obj, 0, |ks| - i, 1
  {
    if i == |ks| then ""
    else MemberText(obj, ks, i) + MembersText(obj, ks, i + 1)
  }

  // ---- the writer ----------------------------------------------------------

  method WriteString(s: string, buffer: string) returns (out: string)
    ensures out == buffer + Quoted(s)
  {
    out := buffer + "\"";
    assert s[0..] == s;
    for i := 0 to |s|
      invariant out + Escaped(s[i..]) == buffer + "\"" + Escaped(s)
    {
      assert s[i..][1..] == s[i + 1..];
      Assoc(out, Escape(s[i]), Escaped(s[i + 1..]));
      out := out + Escape(s[i]);
    }
    assert out + "" == out;
    Assoc(buffer, "\"", Escaped(s));
    Assoc(buffer, "\"" + Escaped(s), "\"");
    out := out + "\"";
  }

  method WriteValue(v: Json, buffer: string) returns (out: string)
    requires WellFormed(v)
    ensures out == buffer + Text(v)
    decreases v, 3
  {
    match v
    case Null => out := buffer + "null";
    case Bool(b) => out := buffer + (if b then "true" else "false");
    case Number(n) => out := buffer + IntText(n);
    case Str(s) => out := WriteString(s, buffer);
    case Arr(items) => out := WriteArray(items, buffer);
    case Obj(_) => out := WriteObject(v, buffer);
  }

  /** One turn of the array loop: separator, then the element. */
  method WriteItem(v: Json, i: nat, buffer: string) returns (out: string)
    requires WellFormed(v)
    ensures out == buffer + Comma(i) + Text(v)
    decreases v, 4
  {
    out := buffer + Comma(i);
    out := WriteValue(v, out);
  }

  method WriteItems(items: seq<Json>, buffer: string) returns (out: string)
    requires AllWellFormed(items)
    ensures out == buffer + ItemsText(items, 0)
    decreases items, 0
  {
    out := buffer;
    for i := 0 to |items|
      invariant out + ItemsText(items, i) == buffer + ItemsText(items, 0)
    {
      ghost var before, tail := out, ItemsText(items, i + 1);
      out := WriteItem(items[i], i, out);
      Assoc(before, Comma(i), Text(items[i]));
      Assoc(before, Comma(i) + Text(items[i]), tail);
    }
    assert out + "" == out;
  }

  method WriteArray(items: seq<Json>, buffer: string) returns (out: string)
    requires AllWellFormed(items)
    ensures out == buffer + ("[" + ItemsText(items, 0) + "]")
    decreases items, 1
  {
    out := WriteItems(items, buffer + "[");
    Assoc(buffer, "[", ItemsText(items, 0));
    Assoc(buffer, "[" + ItemsText(items, 0), "]");
    out := out + "]";
  }

  /** One turn of the object loop: separator, key, colon, the value stored under the key. */
  method WriteMember(obj: Json, keys: seq<string>, i: nat, buffer: string) returns (out: string)
    requires KeysOf(obj, keys) && i < |keys|
    ensures out == buffer + MemberText(obj, keys, i)
    decreases obj, 0
  {
    var v := Lookup(obj.members, keys[i]);
    out := buffer + Comma(i);
    out := WriteString(keys[i], out);
    Assoc(buffer, Comma(i), Quoted(keys[i]));
    out := out + ":";
    Assoc(buffer, Comma(i) + Quoted(keys[i]), ":");
    out := WriteValue(v, out);
    Assoc(buffer, Comma(i) + Quoted(keys[i]) + ":", Text(v));
  }

  method WriteMembers(obj: Json, keys: seq<string>, buffer: string) returns (out: string)
    requires KeysOf(obj, keys)
    ensures out == buffer + MembersText(obj, keys, 0)
    decreases obj, 1
  {
    out := buffer;
    for i := 0 to |keys|
      invariant out + MembersText(obj, keys, i) == buffer + MembersText(obj, keys, 0)
    {
      ghost var before := out;
      out := WriteMember(obj, keys, i, out);
      Assoc(before, MemberText(obj, keys, i), MembersText(obj, keys, i + 1));
    }
    assert out + "" == out;
  }

  method WriteObject(obj: Json, buffer: string) returns (out: string)
    requires obj.Obj? && WellFormed(obj)
    ensures out == buffer + Text(obj)
    decreases obj, 2
  {
    var keys := SortKeys(Keys(obj.members));
    out := WriteMembers(obj, keys, buffer + "{");
    Assoc(buffer, "{", MembersText(obj, keys, 0));
    Assoc(buffer, "{" + MembersText(obj, keys, 0), "}");
    out := out + "}";
  }

  method CanonicalText(payload: Json) returns (out: string)
    requires payload.Obj? && WellFormed(payload)
    ensures out == Text(payload)
  {
    out := WriteObject(payload, "");
  }

  // ---- one meaning, one text ----------------------------------------------

  lemma {:induction false} TextByMeaning(a: Json, b: Json)
    requires WellFormed(a) && WellFormed(b) && Meaning(a) == Meaning(b)
    ensures Text(a) == Text(b)
    decreases a, 1
  {
    match a
    case Arr(items) =>
      assert b.Arr?;
      var f, g := Meaning(a).items, Meaning(b).items;
      assert |f| == |g|;
      forall i | 0 <= i < |items| ensures Meaning(items[i]) == Meaning(b.items[i]) {
        assert f[i] == Meaning(items[i]) && g[i] == Meaning(b.items[i]);
      }
      ItemsTextByMeaning(items, b.items, 0);
    case Obj(ms) =>
      assert b.Obj?;
      var f, g := Meaning(a).fields, Meaning(b).fields;
      assert forall k :: k in Keys(ms) <==> k in f;
      assert forall k :: k in Keys(b.members) <==> k in g;
      var ks := SortKeys(Keys(ms));
      SortedIsUnique(ks, SortKeys(Keys(b.members)));
      MembersTextByMeaning(a, b, ks, 0);
    case _ =>
  }

  lemma {:induction false} ItemsTextByMeaning(xs: seq<Json>, ys: seq<Json>, i: nat)
    requires i <= |xs| == |ys|
    requires AllWellFormed(xs) && AllWellFormed(ys) && forall j | 0 <= j < |xs| :: Meaning(xs[j]) == Meaning(ys[j])
    ensures ItemsText(xs, i) == ItemsText(ys, i)
    decreases xs, 0, |xs| - i
  {
    if i < |xs| {
      TextByMeaning(xs[i], ys[i]);
      ItemsTextByMeaning(xs, ys, i + 1);
    }
  }

  lemma {:induction false} MembersTextByMeaning(a: Json, b: Json, ks: seq<string>, i: nat)
    requires KeysOf(a, ks) && KeysOf(b, ks) && Meaning(a) == Meaning(b) && i <= |ks|
    ensures MembersText(a, ks, i) == MembersText(b, ks, i)
    decreases a, 0, |ks| - i
  {
    if i < |ks| {
      var x, y := Lookup(a.members, ks[i]), Lookup(b.members, ks[i]);
      assert Meaning(a).fields[ks[i]] == Meaning(x) && Meaning(b).fields[ks[i]] == Meaning(y);
      TextByMeaning(x, y);
      MembersTextByMeaning(a, b, ks, i + 1);
    }
  }
}
