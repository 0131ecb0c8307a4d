/**
 Paths inside the sandbox (edge/internal/sandbox/workdir.go): normalised on the text alone, and kept
 at or below the work directory.
 */
module WorkPath {
  import opened Texts

  const DEFAULT_WORKDIR := "/work"

  datatype PathError = Blank | NotAbsolute | PastRoot | Outside | IsDirectory

  function TrimSlashes(s: string): (r: string)
    ensures r == "" || r[|r| - 1] != '/'
    ensures r == s <==> s == "" || s[|s| - 1] != '/'
    ensures |r| <= |s| && r == s[..|r|]
  {
    if s != "" && s[|s| - 1] == '/' then TrimSlashes(s[..|s| - 1]) else s
  }

  function Given(workdir: string): string { if workdir == "" then DEFAULT_WORKDIR else workdir }

  /** The work directory without trailing slashes. */
  function WorkdirOf(workdir: string): string {
    var trimmed := TrimSlashes(Given(workdir));
    if trimmed != "" then trimmed else "/"
  }

  predicate IsBlank(path: string) { forall c | c in path :: IsWhiteSpace(c) }

  // ---- the stack of segments -----------------------------------------------------

  predicate IsName(seg: string) { seg != "" && seg != "." && seg != ".." }

  /** What the stack holds after the first n segments; none once it was popped empty. */
  function Stack(segs: seq<string>, n: nat): (r: Option<seq<string>>)
    requires n <= |segs|
    ensures r.Some? ==> forall seg | seg in r.value :: seg in segs && IsName(seg)
  {
    if n == 0 then Some([]) else
    match Stack(segs, n - 1)
    case None => None
    case Some(parts) =>
      var seg := segs[n - 1];
      if IsName(seg) then Some(parts + [seg])
      else if seg != ".." then Some(parts)
      else if parts == [] then None
      else Some(parts[..|parts| - 1])
  }

  function Resolved(path: string): Option<seq<string>> {
    var segs := SplitOn(path, '/');
    Stack(segs, |segs|)
  }

  function Rooted(parts: seq<string>): string { "/" + JoinWith(parts, '/') }

  predicate Inside(path: string, workdir: string) {
    path == workdir || StartsWith(path, workdir + "/")
  }

  function Normalized(path: string, workdir: string): Result<string, PathError> {
    if IsBlank(path) then Err(Blank)
    else if path[0] != '/' then Err(NotAbsolute)
    else match Resolved(path)
    case None => Err(PastRoot)
    case Some(parts) => if Inside(Rooted(parts), WorkdirOf(workdir)) then Ok(Rooted(parts)) else Err(Outside)
  }

  lemma {:induction false} StackStaysNone(segs: seq<string>, m: nat, n: nat)
    requires m <= n <= |segs| && Stack(segs, m).None?
    ensures Stack(segs, n).None?
  {
    if m < n { StackStaysNone(segs, m, n - 1); }
  }

  method NormalizeWorkPath(path: string, workdir: string) returns (r: Result<string, PathError>)
    ensures r == Normalized(path, workdir)
  {
    var dir := if workdir == "" then DEFAULT_WORKDIR else workdir;
    var trimmed := TrimSlashes(dir);
    if trimmed != "" { dir := trimmed; } else { dir := "/"; }
    if IsBlank(path) { return Err(Blank); }
    if path[0] != '/' { return Err(NotAbsolute); }
    var segs, parts: seq<string> := SplitOn(path, '/'), [];
    for i := 0 to |segs|
      invariant Stack(segs, i) == Some(parts)
    {
      var seg := segs[i];
      if seg == "" || seg == "." {
      } else if seg == ".." {
        if parts == [] {
          StackStaysNone(segs, i + 1, |segs|);
          return Err(PastRoot);
        }
        parts := parts[..|parts| - 1];
      } else {
        parts := parts + [seg];
      }
    }
    var normalized := "/" + JoinWith(parts, '/');
    if normalized != dir && !StartsWith(normalized, dir + "/") { return Err(Outside); }
    return Ok(normalized);
  }

  function Required(path: string, workdir: string): Result<string, PathError> {
    match Normalized(path, Given(workdir))
    case Err(e) => Err(e)
    case Ok(normalized) => if normalized == Given(workdir) then Err(IsDirectory) else Ok(normalized)
  }

  method RequireFilePath(path: string, workdir: string) returns (r: Result<string, PathError>)
    ensures r == Required(path, workdir)
  {
    var dir := if workdir == "" then DEFAULT_WORKDIR else workdir;
    r := NormalizeWorkPath(path, dir);
    if r.Ok? && r.value == dir { r := Err(IsDirectory); }
  }

  // ---- depth: what the stack means -------------------------------------------------

  /** Names less ".." among the first k segments. */
  function Depth(segs: seq<string>, k: nat): int
    requires k <= |segs|
  {
    if k == 0 then 0
    else Depth(segs, k - 1) + if IsName(segs[k - 1]) then 1 else if segs[k - 1] == ".." then -1 else 0
  }

  /** No prefix of the first n segments climbs above the root. */
  ghost predicate StaysBelowRoot(segs: seq<string>, n: nat)
    requires n <= |segs|
  {
    forall k | 0 <= k <= n :: Depth(segs, k) >= 0
  }

  /** A name stays when the path never climbs back to where the name was entered. */
  ghost predicate Survives(segs: seq<string>, i: nat, n: nat)
    requires n <= |segs|
  {
    i < n && IsName(segs[i]) && forall j | i < j <= n :: Depth(segs, j) > Depth(segs, i)
  }

  /** `at` lists the survivors in order, one at each depth. */
  ghost predicate Survivors(segs: seq<string>, n: nat, at: seq<nat>)
    requires n <= |segs|
  {
    && |at| == Depth(segs, n)
    && (forall m | 0 <= m < |at| :: at[m] < n && Depth(segs, at[m]) == m && Survives(segs, at[m], n))
    && (forall m | 1 <= m < |at| :: at[m - 1] < at[m])
    && (forall i | Survives(segs, i, n) :: i in at)
  }

  /** The stack is emptied past the root exactly when some prefix has more ".." than names. */
  lemma {:induction false} PastRootIff(segs: seq<string>, n: nat)
    requires n <= |segs|
    ensures Stack(segs, n).Some? <==> StaysBelowRoot(segs, n)
    ensures Stack(segs, n).Some? ==> |Stack(segs, n).value| == Depth(segs, n)
  {
    if n > 0 {
      PastRootIff(segs, n - 1);
      assert StaysBelowRoot(segs, n) <==> StaysBelowRoot(segs, n - 1) && Depth(segs, n) >= 0;
    }
  }

  lemma SurvivesStep(segs: seq<string>, i: nat, n: nat)
    requires n < |segs|
    ensures i < n ==> (Survives(segs, i, n + 1) <==> Survives(segs, i, n) && Depth(segs, n + 1) > Depth(segs, i))
    ensures i == n ==> (Survives(segs, i, n + 1) <==> IsName(segs[n]))
  {
  }

  lemma Push(segs: seq<string>, n: nat, at: seq<nat>)
    requires n < |segs| && Survivors(segs, n, at) && IsName(segs[n])
    ensures Survivors(segs, n + 1, at + [n])
  {
    var next := at + [n];
    forall m | 0 <= m < |next| ensures next[m] < n + 1 && Depth(segs, next[m]) == m && Survives(segs, next[m], n + 1) {
      SurvivesStep(segs, next[m], n);
    }
    forall i: nat | Survives(segs, i, n + 1) ensures i in next { SurvivesStep(segs, i, n); }
  }

  lemma Pop(segs: seq<string>, n: nat, at: seq<nat>)
    requires n < |segs| && Survivors(segs, n, at) && segs[n] == ".." && at != []
    ensures Survivors(segs, n + 1, at[..|at| - 1])
  {
    var next := at[..|at| - 1];
    forall m | 0 <= m < |next| ensures next[m] < n + 1 && Depth(segs, next[m]) == m && Survives(segs, next[m], n + 1) {
      SurvivesStep(segs, at[m], n);
    }
    forall i: nat | Survives(segs, i, n + 1) ensures i in next {
      SurvivesStep(segs, i, n);
      var m :| 0 <= m < |at| && at[m] == i;
      assert m < |next| && next[m] == i;
    }
  }

  lemma Skip(segs: seq<string>, n: nat, at: seq<nat>)
    requires n < |segs| && Survivors(segs, n, at) && !IsName(segs[n]) && segs[n] != ".."
    ensures Survivors(segs, n + 1, at)
  {
    forall m | 0 <= m < |at| ensures Survives(segs, at[m], n + 1) { SurvivesStep(segs, at[m], n); }
    forall i: nat | Survives(segs, i, n + 1) ensures i in at { SurvivesStep(segs, i, n); }
  }

  /** The stack holds, in order, just the names that survive. */
  lemma {:induction false} StackHoldsSurvivors(segs: seq<string>, n: nat) returns (at: seq<nat>)
    requires n <= |segs| && Stack(segs, n).Some?
    ensures Survivors(segs, n, at) && Stack(segs, n) == Some(ItemsAt(segs, at))
  {
    if n == 0 { return []; }
    var before := StackHoldsSurvivors(segs, n - 1);
    if IsName(segs[n - 1]) {
      Push(segs, n - 1, before);
      at := before + [n - 1];
    } else if segs[n - 1] == ".." {
      Pop(segs, n - 1, before);
      at := before[..|before| - 1];
    } else {
      Skip(segs, n - 1, before);
      at := before;
    }
    assert ItemsAt(segs, at) == Stack(segs, n).value;
  }

  // ---- the result ---------------------------------------------------------------------

  ghost predicate Clean(parts: seq<string>) {
    forall i | 0 <= i < |parts| :: IsName(parts[i]) && '/' !in parts[i]
  }

  function SegmentsOf(parts: seq<string>): seq<string> { [""] + if parts == [] then [""] else parts }

  lemma RootedSegments(parts: seq<string>)
    requires Clean(parts)
    ensures SplitOn(Rooted(parts), '/') == SegmentsOf(parts)
  {
    var segs := SegmentsOf(parts);
    var below := segs[1..];
    assert JoinWith(below, '/') == JoinWith(parts, '/');
    assert JoinWith(segs, '/') == "" + ['/'] + JoinWith(below, '/');
    SplitOfJoin(segs, '/');
    assert JoinWith(segs, '/') == Rooted(parts);
  }

  lemma {:induction false} StackOfClean(parts: seq<string>, n: nat)
    requires Clean(parts) && n <= |parts|
    ensures Stack([""] + parts, n + 1) == Some(parts[..n])
  {
    var segs := [""] + parts;
    if n == 0 {
      assert Stack(segs, 0) == Some([]);
    } else {
      StackOfClean(parts, n - 1);
      assert segs[n] == parts[n - 1] && parts[..n] == parts[..n - 1] + [parts[n - 1]];
    }
  }

  lemma ResolvedIsClean(path: string)
    ensures Resolved(path).Some? ==> Clean(Resolved(path).value)
  {
    var segs := SplitOn(path, '/');
    match Resolved(path)
    case None =>
    case Some(parts) =>
      forall i | 0 <= i < |parts| ensures IsName(parts[i]) && '/' !in parts[i] { assert parts[i] in segs; }
  }

  lemma RootedResolves(parts: seq<string>)
    requires Clean(parts)
    ensures Resolved(Rooted(parts)) == Some(parts)
    ensures !IsBlank(Rooted(parts)) && Rooted(parts)[0] == '/'
  {
    RootedSegments(parts);
    if parts == [] {
      var two := ["", ""];
      assert [""] + [""] == two && Stack(two, 0) == Some([]) && Stack(two, 1) == Some([]) && Stack(two, 2) == Some([]);
    } else {
      StackOfClean(parts, |parts|);
      assert parts[..|parts|] == parts;
    }
    assert Rooted(parts)[0] == '/' && !IsWhiteSpace('/');
  }

  /** A normalised path has only names for segments, and normalising it again changes nothing. */
  lemma NormalizedIsFixed(path: string, workdir: string)
    requires Normalized(path, workdir).Ok?
    ensures var r := Normalized(path, workdir).value;
      && Normalized(r, workdir) == Ok(r)
      && Resolved(path).Some? && Clean(Resolved(path).value) && r == Rooted(Resolved(path).value)
      && SplitOn(r, '/') == SegmentsOf(Resolved(path).value)
  {
    ResolvedIsClean(path);
    RootedResolves(Resolved(path).value);
    RootedSegments(Resolved(path).value);
  }

  // ---- inside, by whole segments ---------------------------------------------------------

  /** The textual test is the test on segments: the directory's are a prefix of the path's. */
  lemma InsideIsSegmentPrefix(path: string, dir: string)
    ensures Inside(path, dir) <==> SplitOn(dir, '/') <= SplitOn(path, '/')
  {
    var ps, ds := SplitOn(path, '/'), SplitOn(dir, '/');
    if StartsWith(path, dir + "/") {
      var rest := path[|dir| + 1..];
      assert path == dir + ['/'] + rest;
      JoinAppend(ds, SplitOn(rest, '/'), '/');
      SplitOfJoin(ds + SplitOn(rest, '/'), '/');
    }
    if ds <= ps {
      var rest := ps[|ds|..];
      assert ps == ds + rest;
      if rest == [] {
        assert ps == ds;
      } else {
        JoinAppend(ds, rest, '/');
        assert path == dir + ['/'] + JoinWith(rest, '/');
        assert path[..|dir| + 1] == dir + "/";
      }
    }
  }

  /**
   Below a work directory "/d1/.../dk" with k > 0 the result is accepted exactly when d1, ..., dk are
   its first segments: `/workspace` is not inside `/work`.
   */
  lemma AcceptedIff(path: string, workdir: string, dirs: seq<string>)
    requires Clean(dirs) && dirs != [] && WorkdirOf(workdir) == Rooted(dirs)
    ensures Normalized(path, workdir).Ok? <==>
      !IsBlank(path) && path[0] == '/' && Resolved(path).Some? && dirs <= Resolved(path).value
  {
    if !IsBlank(path) && path[0] == '/' && Resolved(path).Some? {
      var parts := Resolved(path).value;
      ResolvedIsClean(path);
      RootedSegments(parts);
      RootedSegments(dirs);
      InsideIsSegmentPrefix(Rooted(parts), Rooted(dirs));
      PrefixOfSegments(dirs, parts);
    }
  }

  lemma PrefixOfSegments(dirs: seq<string>, parts: seq<string>)
    requires Clean(dirs) && dirs != []
    ensures SegmentsOf(dirs) <= SegmentsOf(parts) <==> dirs <= parts
  {
    var ds, ps := SegmentsOf(dirs), SegmentsOf(parts);
    assert ds[1..] == dirs;
    if parts == [] { assert ps == ["", ""] && ds[1] != ""; } else { assert ps[1..] == parts; }
    if ds <= ps { assert forall i | 0 <= i < |dirs| :: dirs[i] == ds[i + 1] == ps[i + 1]; }
  }

  /** A root work directory, and it alone among the canonical ones, accepts nothing but itself. */
  lemma RootAcceptsOnlyItself(path: string, workdir: string)
    requires WorkdirOf(workdir) == "/"
    ensures Normalized(path, workdir).Ok? <==> !IsBlank(path) && path[0] == '/' && Resolved(path) == Some([])
  {
    if !IsBlank(path) && path[0] == '/' && Resolved(path).Some? {
      var parts := Resolved(path).value;
      ResolvedIsClean(path);
      RootedSegments(parts);
      RootedSegments([]);
      InsideIsSegmentPrefix(Rooted(parts), "/");
      assert SplitOn("/", '/') == ["", ""] by { assert Rooted([]) == "/"; }
      if parts != [] { assert SegmentsOf(parts)[1] == parts[0] != ""; }
    }
  }

  /** A work directory that is not itself normalised accepts nothing at all. */
  lemma OnlyCanonicalWorkdirAccepts(path: string, workdir: string)
    requires Normalized(path, workdir).Ok?
    ensures exists dirs :: Clean(dirs) && WorkdirOf(workdir) == Rooted(dirs)
  {
    var parts, dir := Resolved(path).value, WorkdirOf(workdir);
    ResolvedIsClean(path);
    RootedSegments(parts);
    InsideIsSegmentPrefix(Rooted(parts), dir);
    CanonicalOfPrefix(SplitOn(dir, '/'), parts, dir);
  }

  lemma CanonicalOfPrefix(ds: seq<string>, parts: seq<string>, dir: string)
    requires Clean(parts) && |ds| >= 1 && ds <= SegmentsOf(parts) && dir == JoinWith(ds, '/') && dir != ""
    ensures exists dirs :: Clean(dirs) && dir == Rooted(dirs)
  {
    if parts == [] {
      assert ds == [""] || ds == ["", ""];
      assert Clean([]) && dir == Rooted([]);
    } else {
      var dirs := parts[..|ds| - 1];
      assert Clean(dirs) && ds == [""] + dirs;
      assert ds[1..] == dirs;
      assert dir == Rooted(dirs);
    }
  }

  /**
   The file check compares with the directory as given: the work directory itself passes for a file
   exactly when it was given with trailing slashes.
   */
  lemma DirectoryPassesIff(path: string, workdir: string)
    requires Normalized(path, workdir) == Ok(WorkdirOf(workdir))
    ensures Required(path, workdir).Ok? <==> Given(workdir) != "/" && EndsWith(Given(workdir), "/")
  {
    var dir := Given(workdir);
    assert dir[|dir| - 1..] == [dir[|dir| - 1]];
  }

  lemma {:induction false} JoinedEndsInName(parts: seq<string>)
    requires Clean(parts) && parts != []
    ensures var s := JoinWith(parts, '/'); s != "" && s[|s| - 1] != '/'
  {
    if |parts| > 1 { JoinedEndsInName(parts[1..]); }
  }

  /** Everything else below the work directory is accepted unchanged. */
  lemma FilesPass(path: string, workdir: string)
    requires Normalized(path, workdir).Ok? && Normalized(path, workdir).value != WorkdirOf(workdir)
    ensures Required(path, workdir) == Normalized(path, workdir)
  {
    ResolvedIsClean(path);
    RootedKeepsTrim(Resolved(path).value);
  }

  lemma RootedKeepsTrim(parts: seq<string>)
    requires Clean(parts)
    ensures var r := Rooted(parts); r == "/" || TrimSlashes(r) == r
  {
    if parts != [] {
      JoinedEndsInName(parts);
      var joined := JoinWith(parts, '/');
      assert Rooted(parts)[|joined|] == joined[|joined| - 1];
    }
  }
}
