/**
 The sandbox's outbound policy (edge/internal/egress/policy.go): host patterns, compiling a policy,
 and deciding one connection.
 */
module Egress {
  import opened Texts

  // ---- host patterns ---------------------------------------------------------------

  /** An exact host, or with `wildcard` any host below it; port 0 stands for 80 and 443. */
  datatype Pattern = Pattern(host: string, wildcard: bool, port: nat)

  predicate IsHostChar(c: char) { 'a' <= c <= 'z' || '0' <= c <= '9' || c == '-' || c == '_' }

  predicate ValidLabel(part: string) {
    part != "" && |part| <= 63 && forall c | c in part :: IsHostChar(c)
  }

  predicate ValidHostname(host: string) {
    host != "" && forall part | part in SplitOn(host, '.') :: ValidLabel(part)
  }

  /** Lower case; two letters outside ASCII have an ASCII lower case. */
  function Lower(c: char): char {
    if 'A' <= c <= 'Z' then c + ' '
    else if c == '\U{212A}' then 'k'
    else if c == '\U{130}' then 'i'
    else c
  }

  function LowerAll(s: string): (r: string)
    ensures |r| == |s| && forall i | 0 <= i < |s| :: r[i] == Lower(s[i])
  {
    seq(|s|, i requires 0 <= i < |s| => Lower(s[i]))
  }

  function NormalizeHost(host: string): string {
    var lower := LowerAll(host);
    if EndsWith(lower, ".") then lower[..|lower| - 1] else lower
  }

  function TrimLeft(s: string): string {
    if s != "" && IsWhiteSpace(s[0]) then TrimLeft(s[1..]) else s
  }

  function TrimRight(s: string): string {
    if s != "" && IsWhiteSpace(s[|s| - 1]) then TrimRight(s[..|s| - 1]) else s
  }

  function IndexOf(s: string, c: char): (i: nat)
    ensures i <= |s| && c !in s[..i] && (i < |s| ==> s[i] == c)
  {
    if s == "" || s[0] == c then 0 else
    var i := 1 + IndexOf(s[1..], c);
    assert s[..i] == [s[0]] + s[1..][..i - 1];
    i
  }

  function LastIndexOf(s: string, c: char): (r: Option<nat>)
    ensures r.None? <==> c !in s
    ensures r.Some? ==> r.value < |s| && s[r.value] == c && c !in s[r.value + 1..]
  {
    if s == "" then None
    else if s[|s| - 1] == c then Some(|s| - 1)
    else
      var front := s[..|s| - 1];
      assert s == front + [s[|s| - 1]];
      var r := LastIndexOf(front, c);
      assert r.Some? ==> s[r.value + 1..] == front[r.value + 1..] + [s[|s| - 1]];
      r
  }

  /** `net.SplitHostPort`: host and port around the last colon, the host perhaps in square brackets. */
  function SplitHostPort(s: string): Option<(string, string)> {
    match LastIndexOf(s, ':')
    case None => None
    case Some(i) =>
      if s[0] == '[' then
        var end := IndexOf(s, ']');
        if end == |s| || end + 1 != i then None
        else if '[' in s[1..] || ']' in s[i..] then None
        else Some((s[1..end], s[i + 1..]))
      else if ':' in s[..i] || '[' in s || ']' in s then None
      else Some((s[..i], s[i + 1..]))
  }

  /** `strconv.Atoi`: an optional sign and decimal digits. */
  function Atoi(s: string): Option<int> {
    var signed := s != "" && (s[0] == '+' || s[0] == '-');
    var digits := if signed then s[1..] else s;
    if digits == "" || !AllDigits(digits) then None
    else
      var n: int := DecimalValue(digits);
      Some(if signed && s[0] == '-' then -n else n)
  }

  /** The host and port a pattern names; port 0 when it names none. */
  function HostAndPort(raw: string): Option<(string, nat)> {
    if ':' !in raw then Some((raw, 0)) else
    match SplitHostPort(raw)
    case None => None
    case Some((host, ps)) =>
      match Atoi(ps)
      case None => None
      case Some(n) => if n < 1 || n > 65535 then None else Some((host, n))
  }

  function PatternOf(h: string, port: nat): Option<Pattern> {
    var host := NormalizeHost(h);
    var wildcard := StartsWith(host, "*.");
    var p := Pattern(if wildcard then host[2..] else host, wildcard, port);
    if ValidHostname(p.host) then Some(p) else None
  }

  function ParsePattern(s: string): Option<Pattern> {
    match HostAndPort(TrimRight(TrimLeft(s)))
    case None => None
    case Some((h, port)) => PatternOf(h, port)
  }

  predicate ValidPattern(p: Pattern) { ValidHostname(p.host) && p.port <= 65535 }

  function Stem(p: Pattern): string { (if p.wildcard then "*." else "") + p.host }

  /** The plainest way to write a pattern. */
  function Rendered(p: Pattern): string { Stem(p) + if p.port == 0 then "" else ":" + Decimal(p.port) }

  predicate MatchHost(p: Pattern, host: string) {
    if p.wildcard then EndsWith(host, "." + p.host) else host == p.host
  }

  predicate DefaultPort(port: int) { port == 80 || port == 443 }

  predicate MatchPort(p: Pattern, port: int) { if p.port == 0 then DefaultPort(port) else port == p.port }

  // ---- policies -------------------------------------------------------------------------

  const CHINA_TRUSTED: seq<string> := [
    "pypi.tuna.tsinghua.edu.cn", "mirrors.tuna.tsinghua.edu.cn", "mirrors.aliyun.com",
    "mirrors.cloud.tencent.com", "repo.huaweicloud.com", "mirrors.huaweicloud.com",
    "registry.npmmirror.com", "cdn.npmmirror.com", "goproxy.cn", "mirrors.ustc.edu.cn",
    "modelscope.cn", "www.modelscope.cn", "hf-mirror.com"]

  const RESERVED_HOSTS: seq<string> := [
    "open.feishu.cn", "api.dingtalk.com", "mcp.dingtalk.com", "qyapi.weixin.qq.com"]

  function Exactly(host: string): Pattern { Pattern(host, false, 0) }

  /** The preset as compiled: each host exactly, on the default ports (the names are taken to be valid). */
  function PresetPatterns(): (r: seq<Pattern>)
    ensures |r| == |CHINA_TRUSTED| && forall i | 0 <= i < |r| :: r[i] == Exactly(CHINA_TRUSTED[i])
  {
    seq(|CHINA_TRUSTED|, i requires 0 <= i < |CHINA_TRUSTED| => Exactly(CHINA_TRUSTED[i]))
  }

  datatype Policy = Policy(level: string, allowHosts: seq<string>, auditTag: string, credentials: nat)

  datatype Compiled = Compiled(level: string, auditTag: string, patterns: seq<Pattern>)

  datatype CompileError =
    | CredentialsUnsupported
    | UnknownLevel(level: string)
    | BadPattern(text: string)
    | CoversReserved(text: string, host: string)

  predicate KnownLevel(level: string) { level in {"none", "trusted", "custom", "full"} }

  /** The first reserved host, from index k, that the pattern covers. */
  function CoveredFrom(p: Pattern, k: nat): (r: Option<string>)
    requires k <= |RESERVED_HOSTS|
    ensures r.None? <==> forall i | k <= i < |RESERVED_HOSTS| :: !MatchHost(p, RESERVED_HOSTS[i])
    ensures r.Some? ==> r.value in RESERVED_HOSTS && MatchHost(p, r.value)
    decreases |RESERVED_HOSTS| - k
  {
    if k == |RESERVED_HOSTS| then None
    else if MatchHost(p, RESERVED_HOSTS[k]) then Some(RESERVED_HOSTS[k])
    else CoveredFrom(p, k + 1)
  }

  function CompileHost(text: string): Result<Pattern, CompileError> {
    match ParsePattern(text)
    case None => Err(BadPattern(text))
    case Some(p) =>
      match CoveredFrom(p, 0)
      case Some(host) => Err(CoversReserved(text, host))
      case None => Ok(p)
  }

  type Compiler = string -> Result<Pattern, CompileError>

  /** f on the first n items in order; the first error ends it. */
  function Collect(f: Compiler, items: seq<string>, n: nat): Result<seq<Pattern>, CompileError>
    requires n <= |items|
  {
    if n == 0 then Ok([]) else
    match Collect(f, items, n - 1)
    case Err(e) => Err(e)
    case Ok(results) =>
      match f(items[n - 1])
      case Err(e) => Err(e)
      case Ok(p) => Ok(results + [p])
  }

  function Preset(level: string): seq<Pattern> { if level == "trusted" then PresetPatterns() else [] }

  function CompileSpec(pol: Policy): Result<Compiled, CompileError> {
    if pol.credentials > 0 then Err(CredentialsUnsupported)
    else if !KnownLevel(pol.level) then Err(UnknownLevel(pol.level))
    else match Collect(CompileHost, pol.allowHosts, |pol.allowHosts|)
      case Err(e) => Err(e)
      case Ok(patterns) => Ok(Compiled(pol.level, pol.auditTag, Preset(pol.level) + patterns))
  }

  lemma {:induction false} FirstErrorStays(f: Compiler, items: seq<string>, m: nat, n: nat)
    requires m <= n <= |items| && Collect(f, items, m).Err?
    ensures Collect(f, items, n) == Collect(f, items, m)
  {
    if m < n { FirstErrorStays(f, items, m, n - 1); }
  }

  lemma CollectStep(
      f: Compiler, items: seq<string>, i: nat, done: seq<Pattern>, one: Result<Pattern, CompileError>)
    requires i < |items| && Collect(f, items, i) == Ok(done) && f(items[i]) == one
    ensures one.Ok? ==> Collect(f, items, i + 1) == Ok(done + [one.value])
    ensures one.Err? ==> Collect(f, items, |items|) == Err(one.error)
  {
    if one.Err? { FirstErrorStays(f, items, i + 1, |items|); }
  }

  method Compile(pol: Policy) returns (r: Result<Compiled, CompileError>)
    ensures r == CompileSpec(pol)
  {
    if pol.credentials > 0 { return Err(CredentialsUnsupported); }
    if !KnownLevel(pol.level) { return Err(UnknownLevel(pol.level)); }
    var own := CompileEach(pol.allowHosts);
    if own.Err? { return Err(own.error); }
    var patterns := Preset(pol.level) + own.value;
    return Ok(Compiled(pol.level, pol.auditTag, patterns));
  }

  method CompileEach(hosts: seq<string>) returns (r: Result<seq<Pattern>, CompileError>)
    ensures r == Collect(CompileHost, hosts, |hosts|)
  {
    var patterns := [];
    for i := 0 to |hosts|
      invariant Collect(CompileHost, hosts, i) == Ok(patterns)
    {
      var one := CompileOne(hosts[i]);
      CollectStep(CompileHost, hosts, i, patterns, one);
      if one.Err? { return Err(one.error); }
      patterns := patterns + [one.value];
    }
    return Ok(patterns);
  }

  method CompileOne(text: string) returns (r: Result<Pattern, CompileError>)
    ensures r == CompileHost(text)
  {
    var parsed := ParsePattern(text);
    if parsed.None? { return Err(BadPattern(text)); }
    var covered := CoveredBy(parsed.value);
    if covered.Some? { return Err(CoversReserved(text, covered.value)); }
    return Ok(parsed.value);
  }

  method CoveredBy(p: Pattern) returns (r: Option<string>)
    ensures r == CoveredFrom(p, 0)
  {
    for k := 0 to |RESERVED_HOSTS|
      invariant CoveredFrom(p, 0) == CoveredFrom(p, k)
    {
      if MatchHost(p, RESERVED_HOSTS[k]) { return Some(RESERVED_HOSTS[k]); }
    }
    return None;
  }

  // ---- deciding ----------------------------------------------------------------------------

  datatype Decision = Allowed | LevelNone | ImApiHost | HostNotAllowed | PortNotAllowed

  ghost predicate CoversHost(patterns: seq<Pattern>, host: string) {
    exists p | p in patterns :: MatchHost(p, host)
  }

  /** Host and port are matched by one and the same pattern. */
  ghost predicate Covers(patterns: seq<Pattern>, host: string, port: int) {
    exists p | p in patterns :: MatchHost(p, host) && MatchPort(p, port)
  }

  ghost function DecideSpec(c: Compiled, host: string, port: int): Decision {
    if c.level == "none" then LevelNone
    else if host in RESERVED_HOSTS then ImApiHost
    else if c.level != "full" && !CoversHost(c.patterns, host) then HostNotAllowed
    else if !(c.level == "full" && DefaultPort(port)) && !Covers(c.patterns, host, port) then PortNotAllowed
    else Allowed
  }

  method Decide(c: Compiled, host: string, port: int) returns (d: Decision)
    ensures d == DecideSpec(c, host, port)
  {
    if c.level == "none" { return LevelNone; }
    if host in RESERVED_HOSTS { return ImApiHost; }
    var hostOk, portOk := false, false;
    if c.level == "full" { hostOk, portOk := true, DefaultPort(port); }
    for i := 0 to |c.patterns|
      invariant hostOk <==> c.level == "full" || CoversHost(c.patterns[..i], host)
      invariant portOk <==> (c.level == "full" && DefaultPort(port)) || Covers(c.patterns[..i], host, port)
    {
      var p := c.patterns[i];
      assert c.patterns[..i + 1] == c.patterns[..i] + [p];
      if MatchHost(p, host) {
        hostOk := true;
        if MatchPort(p, port) { portOk := true; }
      }
    }
    assert c.patterns[..|c.patterns|] == c.patterns;
    if !hostOk { return HostNotAllowed; }
    if !portOk { return PortNotAllowed; }
    return Allowed;
  }

  // ---- what a policy allows -------------------------------------------------------------------

  lemma {:induction false} CollectIff(f: Compiler, items: seq<string>, n: nat)
    requires n <= |items|
    ensures Collect(f, items, n).Ok? <==> forall i | 0 <= i < n :: f(items[i]).Ok?
  {
    if n > 0 { CollectIff(f, items, n - 1); }
  }

  /** The result for each item stands at that item's place. */
  lemma {:induction false} CollectAt(f: Compiler, items: seq<string>, n: nat) returns (results: seq<Pattern>)
    requires n <= |items| && Collect(f, items, n).Ok?
    ensures Collect(f, items, n) == Ok(results) && |results| == n
    ensures forall i | 0 <= i < n :: f(items[i]) == Ok(results[i])
  {
    if n == 0 { return []; }
    var front := CollectAt(f, items, n - 1);
    results := front + [f(items[n - 1]).value];
  }

  /** The text is a pattern, and one that covers no reserved host. */
  ghost predicate HostCompiles(text: string) {
    ParsePattern(text).Some? && forall r | r in RESERVED_HOSTS :: !MatchHost(ParsePattern(text).value, r)
  }

  lemma HostCompilesIff(text: string)
    ensures CompileHost(text).Ok? <==> HostCompiles(text)
  {
    if ParsePattern(text).Some? {
      var p := ParsePattern(text).value;
      assert CoveredFrom(p, 0).None? <==> forall r | r in RESERVED_HOSTS :: !MatchHost(p, r);
    }
  }

  /** A policy compiles exactly when each of its parts is acceptable by itself. */
  lemma CompilesIff(pol: Policy)
    ensures CompileSpec(pol).Ok? <==>
      pol.credentials == 0 && KnownLevel(pol.level)
      && forall i | 0 <= i < |pol.allowHosts| :: HostCompiles(pol.allowHosts[i])
  {
    var hosts := pol.allowHosts;
    CollectIff(CompileHost, hosts, |hosts|);
    forall i | 0 <= i < |hosts| ensures CompileHost(hosts[i]).Ok? <==> HostCompiles(hosts[i]) {
      HostCompilesIff(hosts[i]);
    }
  }

  /** No pattern of a compiled policy covers a reserved host. */
  lemma NoPatternCoversReserved(pol: Policy, host: string)
    requires CompileSpec(pol).Ok? && host in RESERVED_HOSTS
    ensures !CoversHost(CompileSpec(pol).value.patterns, host)
  {
    var own := CollectAt(CompileHost, pol.allowHosts, |pol.allowHosts|);
    forall p | p in CompileSpec(pol).value.patterns ensures !MatchHost(p, host) {
      if p in own {
        var i :| 0 <= i < |own| && own[i] == p;
        assert CompileHost(pol.allowHosts[i]) == Ok(p);
        assert CoveredFrom(p, 0).None?;
      } else {
        PresetSparesReserved(p, host);
      }
    }
  }

  lemma PresetSparesReserved(p: Pattern, host: string)
    requires p in PresetPatterns() && host in RESERVED_HOSTS
    ensures !MatchHost(p, host)
  {
    var i :| 0 <= i < |CHINA_TRUSTED| && p == Exactly(CHINA_TRUSTED[i]);
    var j :| 0 <= j < |RESERVED_HOSTS| && host == RESERVED_HOSTS[j];
    assert |host| == [14, 16, 16, 19][j];
    assert |p.host| == [25, 28, 18, 25, 20, 23, 22, 17, 10, 19, 13, 17, 13][i];
    assert i == 9 ==> p.host[0] == 'm';
    assert j == 3 ==> host[0] == 'q';
  }

  /** Some allow-host of the policy, or at the trusted level the preset, matches both host and port. */
  ghost predicate PolicyCovers(pol: Policy, host: string, port: int) {
    || (pol.level == "trusted" && host in CHINA_TRUSTED && DefaultPort(port))
    || (exists text | text in pol.allowHosts :: Lets(text, host, port))
  }

  ghost predicate Lets(text: string, host: string, port: int) {
    ParsePattern(text).Some? && MatchHost(ParsePattern(text).value, host) && MatchPort(ParsePattern(text).value, port)
  }

  /** From the policy as written to the answer: what exactly is let out. */
  lemma AllowedIff(pol: Policy, host: string, port: int)
    requires CompileSpec(pol).Ok?
    ensures DecideSpec(CompileSpec(pol).value, host, port) == Allowed <==>
      pol.level != "none" && host !in RESERVED_HOSTS
      && ((pol.level == "full" && DefaultPort(port)) || PolicyCovers(pol, host, port))
  {
    var c := CompileSpec(pol).value;
    CompiledCovers(pol, host, port);
    if Covers(c.patterns, host, port) {
      var p :| p in c.patterns && MatchHost(p, host) && MatchPort(p, port);
      assert CoversHost(c.patterns, host);
    }
  }

  lemma CompiledCovers(pol: Policy, host: string, port: int)
    requires CompileSpec(pol).Ok?
    ensures Covers(CompileSpec(pol).value.patterns, host, port) <==> PolicyCovers(pol, host, port)
  {
    var c, hosts := CompileSpec(pol).value, pol.allowHosts;
    var own := CollectAt(CompileHost, hosts, |hosts|);
    assert c.patterns == Preset(pol.level) + own;
    assert Covers(c.patterns, host, port) <==> Covers(Preset(pol.level), host, port) || Covers(own, host, port);
    PresetCovers(pol.level, host, port);
    CollectedCovers(hosts, own, host, port);
  }

  lemma PresetCovers(level: string, host: string, port: int)
    ensures Covers(Preset(level), host, port) <==> level == "trusted" && host in CHINA_TRUSTED && DefaultPort(port)
  {
    if level == "trusted" && host in CHINA_TRUSTED {
      var i :| 0 <= i < |CHINA_TRUSTED| && CHINA_TRUSTED[i] == host;
      assert PresetPatterns()[i] == Exactly(host) && PresetPatterns()[i] in Preset(level);
    }
  }

  lemma CollectedCovers(hosts: seq<string>, own: seq<Pattern>, host: string, port: int)
    requires |own| == |hosts| && forall i | 0 <= i < |hosts| :: CompileHost(hosts[i]) == Ok(own[i])
    ensures Covers(own, host, port) <==> exists text | text in hosts :: Lets(text, host, port)
  {
    if Covers(own, host, port) {
      var p :| p in own && MatchHost(p, host) && MatchPort(p, port);
      var i :| 0 <= i < |own| && own[i] == p;
      ParsedAt(hosts[i], p);
      assert Lets(hosts[i], host, port);
    }
    if text :| text in hosts && Lets(text, host, port) {
      var i :| 0 <= i < |hosts| && hosts[i] == text;
      ParsedAt(text, own[i]);
    }
  }

  lemma ParsedAt(text: string, p: Pattern)
    requires CompileHost(text) == Ok(p)
    ensures ParsePattern(text) == Some(p)
  {
  }

  /** More allow-hosts never turn an allowed connection away. */
  lemma AddingHostsKeepsAllowed(pol: Policy, more: Policy, host: string, port: int)
    requires CompileSpec(pol).Ok? && CompileSpec(more).Ok? && more.level == pol.level
    requires forall text | text in pol.allowHosts :: text in more.allowHosts
    requires DecideSpec(CompileSpec(pol).value, host, port) == Allowed
    ensures DecideSpec(CompileSpec(more).value, host, port) == Allowed
  {
    AllowedIff(pol, host, port);
    AllowedIff(more, host, port);
  }

  // ---- hosts by labels ------------------------------------------------------------------------

  /** A wildcard covers the hosts with at least one more label in front: not the suffix itself, nor `badsuffix`. */
  lemma WildcardIsLabelSuffix(p: Pattern, host: string)
    requires p.wildcard
    ensures var labels, suffix := SplitOn(host, '.'), SplitOn(p.host, '.');
      MatchHost(p, host) <==> |labels| > |suffix| && labels[|labels| - |suffix|..] == suffix
  {
    if MatchHost(p, host) { EndingIsLabels(host, p.host); }
    var labels, suffix := SplitOn(host, '.'), SplitOn(p.host, '.');
    if |labels| > |suffix| && labels[|labels| - |suffix|..] == suffix {
      var before := labels[..|labels| - |suffix|];
      assert labels == before + suffix;
      LabelsAreEnding(before, suffix, host, p.host);
    }
  }

  lemma LabelsAreEnding(before: seq<string>, suffix: seq<string>, host: string, end: string)
    requires before != [] && suffix != [] && host == JoinWith(before + suffix, '.') && end == JoinWith(suffix, '.')
    ensures EndsWith(host, "." + end)
  {
    JoinAppend(before, suffix, '.');
    var front := JoinWith(before, '.');
    assert host == front + ['.'] + end;
    assert host[|front|..] == "." + end;
  }

  lemma EndingIsLabels(host: string, end: string)
    requires EndsWith(host, "." + end)
    ensures var labels, suffix := SplitOn(host, '.'), SplitOn(end, '.');
      |labels| > |suffix| && labels[|labels| - |suffix|..] == suffix
  {
    var front, suffix := host[..|host| - |end| - 1], SplitOn(end, '.');
    var before := SplitOn(front, '.');
    assert host == front + ("." + end) == front + ['.'] + end;
    JoinAppend(before, suffix, '.');
    SplitOfJoin(before + suffix, '.');
    assert (before + suffix)[|before|..] == suffix;
  }

  // ---- writing and reading patterns --------------------------------------------------------------

  lemma {:induction false} JoinedLabels(labels: seq<string>)
    requires labels != [] && forall i | 0 <= i < |labels| :: ValidLabel(labels[i])
    ensures var host := JoinWith(labels, '.');
      host != "" && IsHostChar(host[0]) && IsHostChar(host[|host| - 1])
      && forall c | c in host :: IsHostChar(c) || c == '.'
  {
    assert ValidLabel(labels[0]);
    assert labels[0][0] in labels[0] && labels[0][|labels[0]| - 1] in labels[0];
    if |labels| > 1 { JoinedLabels(labels[1..]); }
  }

  /** A valid host name is lower-case already, and no character of it means anything to the parser. */
  lemma HostShape(host: string)
    requires ValidHostname(host)
    ensures IsHostChar(host[0]) && IsHostChar(host[|host| - 1])
    ensures forall c | c in host :: IsHostChar(c) || c == '.'
  {
    JoinedLabels(SplitOn(host, '.'));
  }

  /** Characters the parser leaves alone and gives no meaning, but for a leading "*.". */
  predicate IsStemChar(c: char) { IsHostChar(c) || c == '.' || c == '*' }

  lemma StemShape(p: Pattern)
    requires ValidPattern(p)
    ensures var stem := Stem(p);
      stem != "" && IsHostChar(stem[|stem| - 1]) && forall c | c in stem :: IsStemChar(c)
    ensures p.host[0] != '*'
  {
    HostShape(p.host);
    var stem := Stem(p);
    assert stem[|stem| - 1] == p.host[|p.host| - 1];
    forall c | c in stem ensures IsStemChar(c) { assert c in "*." || c in p.host; }
  }

  lemma StemIsNormal(stem: string)
    requires stem != "" && IsHostChar(stem[|stem| - 1]) && forall c | c in stem :: IsStemChar(c)
    ensures NormalizeHost(stem) == stem
  {
    forall i | 0 <= i < |stem| ensures Lower(stem[i]) == stem[i] { assert stem[i] in stem; }
    assert LowerAll(stem) == stem;
    assert stem[|stem| - 1..] == [stem[|stem| - 1]];
  }

  lemma IndexIs(s: string, c: char, i: nat)
    requires i < |s| && s[i] == c && c !in s[..i]
    ensures IndexOf(s, c) == i
  {
    var first := IndexOf(s, c);
    assert first <= i by { assert forall k | 0 <= k < first :: s[k] in s[..first]; }
    assert i <= first by { assert forall k | 0 <= k < i :: s[k] in s[..i]; }
  }

  /** Square brackets round the host change nothing. */
  lemma BracketedPair(stem: string, ps: string, raw: string)
    requires (forall c | c in stem :: NotPunctuation(c)) && (forall c | c in ps :: NotPunctuation(c))
    requires raw == "[" + stem + "]:" + ps
    ensures SplitHostPort(raw) == Some((stem, ps))
  {
    var end := |stem| + 1;
    assert raw[0] == '[' && raw[1..end] == stem && raw[end] == ']' && raw[end + 1] == ':' && raw[end + 2..] == ps;
    forall k | 1 <= k < |raw| && k != end && k != end + 1 ensures NotPunctuation(raw[k]) {
      if k < end { assert raw[k] in raw[1..end]; } else { assert raw[k] in raw[end + 2..]; }
    }
    assert forall k | 0 <= k < end :: raw[k] != ']';
    IndexIs(raw, ']', end);
    LastColon(raw, end + 1);
    assert forall k | 1 <= k < |raw| :: raw[k] != '[';
    assert forall k | end + 1 <= k < |raw| :: raw[k] != ']';
  }

  lemma AtoiOfDecimal(n: nat)
    ensures Atoi(Decimal(n)) == Some(n)
    ensures forall c | c in Decimal(n) :: IsDigit(c)
  {
    assert IsDigit(Decimal(n)[0]);
  }

  lemma NotTrimmed(s: string)
    requires s != "" && !IsWhiteSpace(s[0]) && !IsWhiteSpace(s[|s| - 1])
    ensures TrimRight(TrimLeft(s)) == s
  {
  }

  predicate NotPunctuation(c: char) { c != ':' && c != '[' && c != ']' }

  lemma HostAndPortOfPair(stem: string, ps: string, raw: string)
    requires (forall c | c in stem :: NotPunctuation(c)) && (forall c | c in ps :: NotPunctuation(c))
    requires stem != "" && raw == stem + (":" + ps)
    ensures ':' in raw && SplitHostPort(raw) == Some((stem, ps))
  {
    var i := |stem|;
    assert raw[..i] == stem && raw[i] == ':' && raw[i + 1..] == ps;
    LastColon(raw, i);
    assert raw[0] == stem[0] && NotPunctuation(stem[0]);
    forall k | 0 <= k < |raw| ensures raw[k] != '[' && raw[k] != ']' {
      if k < i { assert raw[k] in stem; }
      if k > i { assert raw[k] in raw[i + 1..]; }
    }
  }

  lemma LastColon(s: string, i: nat)
    requires i < |s| && s[i] == ':' && ':' !in s[i + 1..]
    ensures LastIndexOf(s, ':') == Some(i)
  {
    var last := LastIndexOf(s, ':').value;
    assert last <= i by { assert forall k | i + 1 <= k < |s| :: s[k] in s[i + 1..]; }
    assert i <= last by { assert forall k | last + 1 <= k < |s| :: s[k] in s[last + 1..]; }
  }

  lemma PortlessHost(stem: string)
    requires ':' !in stem
    ensures HostAndPort(stem + "") == Some((stem, 0))
  {
    assert stem + "" == stem;
  }

  lemma HostWithPort(stem: string, port: nat)
    requires stem != "" && 1 <= port <= 65535 && forall c | c in stem :: NotPunctuation(c)
    ensures HostAndPort(stem + (":" + Decimal(port))) == Some((stem, port))
  {
    var ps := Decimal(port);
    AtoiOfDecimal(port);
    forall c | c in ps ensures NotPunctuation(c) { assert IsDigit(c); }
    var raw := stem + (":" + ps);
    HostAndPortOfPair(stem, ps, raw);
    PairParses(raw, stem, ps, port);
  }

  lemma PairParses(raw: string, stem: string, ps: string, port: nat)
    requires ':' in raw && SplitHostPort(raw) == Some((stem, ps)) && Atoi(ps) == Some(port) && 1 <= port <= 65535
    ensures HostAndPort(raw) == Some((stem, port))
  {
  }

  lemma RenderedIsTrimmed(stem: string, port: nat)
    requires stem != "" && IsStemChar(stem[0]) && IsHostChar(stem[|stem| - 1])
    ensures var raw := stem + if port == 0 then "" else ":" + Decimal(port); TrimRight(TrimLeft(raw)) == raw
  {
    var end := if port == 0 then "" else ":" + Decimal(port);
    var raw := stem + end;
    assert raw[0] == stem[0];
    if port == 0 {
      assert raw == stem;
    } else {
      assert raw[|raw| - 1] == end[|end| - 1] && IsDigit(end[|end| - 1]);
    }
    NotTrimmed(raw);
  }

  lemma PatternOfStem(p: Pattern)
    requires ValidPattern(p)
    ensures PatternOf(Stem(p), p.port) == Some(p)
  {
    var stem := Stem(p);
    StemShape(p);
    StemIsNormal(stem);
    StemMark(stem, p.wildcard, p.host);
  }

  lemma StemMark(stem: string, wildcard: bool, host: string)
    requires stem == (if wildcard then "*." else "") + host && (!wildcard ==> host != "" && host[0] != '*')
    ensures StartsWith(stem, "*.") == wildcard
    ensures (if wildcard then stem[2..] else stem) == host
  {
    if wildcard {
      assert stem[..2] == "*." && stem[2..] == host;
    } else {
      assert stem == host;
      assert |stem| >= 2 ==> stem[..2][0] == stem[0];
    }
  }

  /** Writing a pattern down and parsing it gives the pattern back. */
  lemma ParseOfRendered(p: Pattern)
    requires ValidPattern(p)
    ensures ParsePattern(Rendered(p)) == Some(p)
  {
    var stem, raw := Stem(p), Rendered(p);
    StemShape(p);
    assert stem[0] in stem;
    RenderedIsTrimmed(stem, p.port);
    if p.port == 0 { PortlessHost(stem); } else { HostWithPort(stem, p.port); }
    assert HostAndPort(TrimRight(TrimLeft(raw))) == Some((stem, p.port));
    PatternOfStem(p);
  }

  /** So does the bracketed spelling, for a pattern with a port. */
  lemma ParseOfBracketed(p: Pattern)
    requires ValidPattern(p) && p.port > 0
    ensures ParsePattern("[" + Stem(p) + "]:" + Decimal(p.port)) == Some(p)
  {
    var stem, ps := Stem(p), Decimal(p.port);
    StemShape(p);
    AtoiOfDecimal(p.port);
    var raw := "[" + stem + "]:" + ps;
    forall c | c in ps ensures NotPunctuation(c) { assert IsDigit(c); }
    BracketedPair(stem, ps, raw);
    BracketedIsTrimmed(stem, ps, raw);
    PairParses(raw, stem, ps, p.port);
    PatternOfStem(p);
  }

  lemma BracketedIsTrimmed(stem: string, ps: string, raw: string)
    requires raw == "[" + stem + "]:" + ps && ps != "" && forall c | c in ps :: IsDigit(c)
    ensures TrimRight(TrimLeft(raw)) == raw && ':' in raw
  {
    assert raw[0] == '[' && raw[|stem| + 2] == ':';
    assert raw[|raw| - 1] == ps[|ps| - 1] && ps[|ps| - 1] in ps;
    NotTrimmed(raw);
  }

  /** What parses is a valid pattern, so every accepted text means the same as its plainest form. */
  lemma ParsedIsRenderable(text: string)
    requires ParsePattern(text).Some?
    ensures ValidPattern(ParsePattern(text).value)
    ensures ParsePattern(Rendered(ParsePattern(text).value)) == ParsePattern(text)
  {
    ParseOfRendered(ParsePattern(text).value);
  }
}
