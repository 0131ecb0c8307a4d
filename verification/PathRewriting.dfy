/**
 What resolving a path comes to, as the rewritings that leave it alone: the text of every segment is
 spelled out (edge/internal/sandbox/workdir.go).
 */
module PathRewriting {
  import opened Texts
  import opened WorkPath

  /** A proper name: no empty segment, no dot, no double dot. */
  predicate Proper(seg: string) { seg !in {"", ".", ".."} && '/' !in seg }

  predicate NoSlashes(segs: seq<string>) { forall i | 0 <= i < |segs| :: '/' !in segs[i] }

  // ---- the stack over a longer path -------------------------------------------------------

  lemma {:induction false} StackOfFront(a: seq<string>, b: seq<string>, n: nat)
    requires n <= |a|
    ensures Stack(a + b, n) == Stack(a, n)
  {
    if n > 0 { StackOfFront(a, b, n - 1); }
  }

  lemma {:induction false} SameRest(a: seq<string>, c: seq<string>, b: seq<string>, k: nat)
    requires k <= |b| && Stack(a, |a|) == Stack(c, |c|)
    ensures Stack(a + b, |a| + k) == Stack(c + b, |c| + k)
  {
    if k == 0 {
      StackOfFront(a, b, |a|);
      StackOfFront(c, b, |c|);
    } else {
      SameRest(a, c, b, k - 1);
      assert (a + b)[|a| + k - 1] == b[k - 1] == (c + b)[|c| + k - 1];
    }
  }

  lemma OneMore(a: seq<string>, seg: string)
    ensures Stack(a + [seg], |a| + 1) == match Stack(a, |a|)
      case None => None
      case Some(parts) =>
        if seg == "" || seg == "." then Some(parts)
        else if seg == ".." then (if parts == [] then None else Some(parts[..|parts| - 1]))
        else Some(parts + [seg])
  {
    StackOfFront(a, [seg], |a|);
    assert (a + [seg])[|a|] == seg;
  }

  lemma JoinedResolves(segs: seq<string>)
    requires segs != [] && NoSlashes(segs)
    ensures Resolved(JoinWith(segs, '/')) == Stack(segs, |segs|)
  {
    SplitOfJoin(segs, '/');
  }

  lemma JoinedNoSlashes(a: seq<string>, b: seq<string>)
    requires NoSlashes(a) && NoSlashes(b)
    ensures NoSlashes(a + b)
  {
  }

  lemma PartsResolve(a: seq<string>, b: seq<string>, k: nat)
    requires NoSlashes(a) && NoSlashes(b) && a + b != [] && k == |b|
    ensures Resolved(JoinWith(a + b, '/')) == Stack(a + b, |a| + k)
  {
    JoinedNoSlashes(a, b);
    JoinedResolves(a + b);
  }

  lemma SameResolved(a: seq<string>, c: seq<string>, b: seq<string>)
    requires NoSlashes(a) && NoSlashes(b) && NoSlashes(c) && a + b != [] && c + b != []
    requires Stack(a, |a|) == Stack(c, |c|)
    ensures Resolved(JoinWith(a + b, '/')) == Resolved(JoinWith(c + b, '/'))
  {
    var k := |b|;
    SameRest(a, c, b, k);
    PartsResolve(a, b, k);
    PartsResolve(c, b, k);
  }

  // ---- the rewritings ---------------------------------------------------------------------

  /** An empty segment or a dot may stand anywhere. */
  lemma DotsAreNothing(front: seq<string>, dot: string, back: seq<string>)
    requires NoSlashes(front) && NoSlashes(back) && front + back != [] && dot in {"", "."}
    ensures Resolved(JoinWith((front + [dot]) + back, '/')) == Resolved(JoinWith(front + back, '/'))
  {
    OneMore(front, dot);
    SameResolved(front + [dot], front, back);
  }

  lemma ThereAndBack(front: seq<string>, name: string)
    requires Proper(name)
    ensures var longer := front + [name] + [".."]; Stack(longer, |longer|) == Stack(front, |front|)
  {
    OneMore(front, name);
    OneMore(front + [name], "..");
    if Stack(front, |front|).Some? {
      var parts := Stack(front, |front|).value;
      assert (parts + [name])[..|parts|] == parts;
    }
  }

  /** A name followed by a double dot cancels. */
  lemma ClimbingUndoesName(front: seq<string>, name: string, back: seq<string>)
    requires NoSlashes(front) && NoSlashes(back) && front + back != [] && Proper(name)
    ensures Resolved(JoinWith((front + [name] + [".."]) + back, '/')) == Resolved(JoinWith(front + back, '/'))
  {
    ThereAndBack(front, name);
    var longer := front + [name] + [".."];
    JoinedNoSlashes(front, [name]);
    JoinedNoSlashes(front + [name], [".."]);
    SameResolved(longer, front, back);
  }

  lemma {:induction false} ProperStack(parts: seq<string>, n: nat)
    requires n <= |parts| && forall i | 0 <= i < |parts| :: Proper(parts[i])
    ensures Stack(parts, n) == Some(parts[..n])
  {
    if n > 0 {
      ProperStack(parts, n - 1);
      assert parts[..n] == parts[..n - 1] + [parts[n - 1]];
    }
  }

  /** Proper names alone stand for themselves. */
  lemma NamesStay(parts: seq<string>)
    requires parts != [] && forall i | 0 <= i < |parts| :: Proper(parts[i])
    ensures Resolved(JoinWith(parts, '/')) == Some(parts)
  {
    JoinedResolves(parts);
    ProperStack(parts, |parts|);
    assert parts[..|parts|] == parts;
  }

  /** A double dot with nothing before it passes the root, whatever follows. */
  lemma ClimbingPassesRoot(back: seq<string>)
    requires NoSlashes(back)
    ensures Resolved(JoinWith([".."] + back, '/')).None?
  {
    JoinedResolves([".."] + back);
    OneMore([], "..");
    assert [] + [".."] == [".."];
    StackOfFront([".."], back, 1);
    StackStaysNone([".."] + back, 1, |back| + 1);
  }

  /** A result is "/" and its proper names with single slashes between them. */
  lemma ResultIsProper(path: string, workdir: string)
    requires Normalized(path, workdir).Ok?
    ensures Resolved(path).Some? && forall seg | seg in Resolved(path).value :: Proper(seg)
    ensures Normalized(path, workdir).value == "/" + JoinWith(Resolved(path).value, '/')
  {
    var segs := SplitOn(path, '/');
    forall seg | seg in Resolved(path).value ensures Proper(seg) {
      assert seg in segs;
    }
  }

  // ---- the work directory -------------------------------------------------------------------

  lemma {:induction false} TrimmedOf(dir: string, slashes: string)
    requires (dir == "" || dir[|dir| - 1] != '/') && forall c | c in slashes :: c == '/'
    ensures TrimSlashes(dir + slashes) == dir
  {
    if slashes == "" {
      assert dir + "" == dir;
    } else {
      var n := |slashes| - 1;
      assert (dir + slashes)[..|dir| + n] == dir + slashes[..n] && slashes[n] in slashes;
      forall c | c in slashes[..n] ensures c == '/' { assert c in slashes; }
      TrimmedOf(dir, slashes[..n]);
    }
  }

  /** No work directory means "/work", nothing but slashes means the root, and slashes behind one do not count. */
  lemma WorkdirIs(path: string, dir: string, slashes: string)
    requires (dir == "" || dir[|dir| - 1] != '/') && forall c | c in slashes :: c == '/'
    ensures Normalized(path, "") == Normalized(path, "/work") && Required(path, "") == Required(path, "/work")
    ensures dir != "" ==> WorkdirOf(dir + slashes) == dir && Normalized(path, dir + slashes) == Normalized(path, dir)
    ensures dir == "" && slashes != "" ==> WorkdirOf(dir + slashes) == "/"
  {
    TrimmedOf(dir, slashes);
    TrimmedOf(dir, "");
    assert dir + "" == dir;
    TrimmedOf("/work", "");
    assert "/work" + "" == "/work";
  }

  /** The first of the four errors that applies: blank, not absolute, past the root, outside. */
  lemma ErrorIs(path: string, dir: string)
    requires dir != "" && dir[|dir| - 1] != '/'
    ensures Normalized(path, dir) ==
      if forall c | c in path :: IsWhiteSpace(c) then Err(Blank)
      else if path[0] != '/' then Err(NotAbsolute)
      else if Resolved(path) == None then Err(PastRoot)
      else var r := "/" + JoinWith(Resolved(path).value, '/');
        if r == dir || (exists below: string :: r == dir + "/" + below) then Ok(r) else Err(Outside)
  {
    TrimmedOf(dir, "");
    assert dir + "" == dir;
    if Resolved(path).Some? { InsideIs("/" + JoinWith(Resolved(path).value, '/'), dir); }
  }

  lemma InsideIs(r: string, dir: string)
    ensures Inside(r, dir) <==> r == dir || exists below: string :: r == dir + "/" + below
  {
    if StartsWith(r, dir + "/") { assert r == dir + "/" + r[|dir| + 1..]; }
    if below: string :| r == dir + "/" + below { assert r[..|dir| + 1] == dir + "/"; }
  }

  /** A file must moreover not be the work directory as it was given. */
  lemma FileIs(path: string, dir: string)
    requires dir != ""
    ensures Required(path, dir) == if Normalized(path, dir) == Ok(dir) then Err(IsDirectory) else Normalized(path, dir)
  {
  }
}
