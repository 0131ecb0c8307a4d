/**
 The outbound policy's rules with hosts, ports and characters spelled out
 (edge/internal/egress/policy.go).
 */
module EgressRules {
  import opened Texts
  import opened Egress

  // ---- hosts and ports ------------------------------------------------------------------

  /** The host is the pattern's, or with a wildcard any host that ends in a dot and the pattern's. */
  ghost predicate HostFits(p: Pattern, host: string) {
    if p.wildcard then exists front: string :: host == front + "." + p.host else host == p.host
  }

  /** The port is the one the pattern names; a pattern that names none means 80 and 443. */
  predicate PortFits(p: Pattern, port: int) {
    if p.port > 0 then port == p.port else port in {80, 443}
  }

  lemma MatchesAre(p: Pattern, host: string, port: int)
    ensures MatchHost(p, host) <==> HostFits(p, host)
    ensures MatchPort(p, port) <==> PortFits(p, port)
    ensures DefaultPort(port) <==> port in {80, 443}
  {
    var tail := "." + p.host;
    if EndsWith(host, tail) {
      var front := host[..|host| - |tail|];
      assert host == front + tail == front + "." + p.host;
    }
    if front: string :| host == front + "." + p.host { assert host[|front|..] == tail; }
  }

  /** The hosts nobody may reach, and the hosts the trusted level may. */
  lemma HostListsAre(host: string)
    ensures host in RESERVED_HOSTS <==>
      host in {"open.feishu.cn", "api.dingtalk.com", "mcp.dingtalk.com", "qyapi.weixin.qq.com"}
    ensures host in CHINA_TRUSTED <==> host in {
        "pypi.tuna.tsinghua.edu.cn", "mirrors.tuna.tsinghua.edu.cn", "mirrors.aliyun.com",
        "mirrors.cloud.tencent.com", "repo.huaweicloud.com", "mirrors.huaweicloud.com",
        "registry.npmmirror.com", "cdn.npmmirror.com", "goproxy.cn", "mirrors.ustc.edu.cn",
        "modelscope.cn", "www.modelscope.cn", "hf-mirror.com"}
  {
  }

  /** A policy is accepted exactly without credentials, at one of four levels, with patterns clear of those hosts. */
  lemma AcceptedIff(pol: Policy)
    ensures CompileSpec(pol).Ok? <==>
      && pol.credentials == 0 && pol.level in {"none", "trusted", "custom", "full"}
      && forall i | 0 <= i < |pol.allowHosts| :: Acceptable(pol.allowHosts[i])
  {
    CompilesIff(pol);
    forall i | 0 <= i < |pol.allowHosts| ensures HostCompiles(pol.allowHosts[i]) <==> Acceptable(pol.allowHosts[i]) {
      HostCompilesIff(pol.allowHosts[i]);
      AcceptableIff(pol.allowHosts[i]);
    }
  }

  ghost predicate SparesReserved(p: Pattern) {
    && !HostFits(p, "open.feishu.cn") && !HostFits(p, "api.dingtalk.com")
    && !HostFits(p, "mcp.dingtalk.com") && !HostFits(p, "qyapi.weixin.qq.com")
  }

  lemma SparesIff(p: Pattern)
    ensures SparesReserved(p) <==> forall host | host in RESERVED_HOSTS :: !MatchHost(p, host)
  {
    forall host ensures MatchHost(p, host) <==> HostFits(p, host) { MatchesAre(p, host, 0); }
    assert RESERVED_HOSTS[0] == "open.feishu.cn" && RESERVED_HOSTS[1] == "api.dingtalk.com";
    assert RESERVED_HOSTS[2] == "mcp.dingtalk.com" && RESERVED_HOSTS[3] == "qyapi.weixin.qq.com";
  }

  /** The first reserved host the pattern covers, in the order they are listed. */
  ghost function FirstCovered(p: Pattern): string
    requires !SparesReserved(p)
  {
    if HostFits(p, "open.feishu.cn") then "open.feishu.cn"
    else if HostFits(p, "api.dingtalk.com") then "api.dingtalk.com"
    else if HostFits(p, "mcp.dingtalk.com") then "mcp.dingtalk.com"
    else "qyapi.weixin.qq.com"
  }

  lemma CoveredIs(p: Pattern)
    requires !SparesReserved(p)
    ensures CoveredFrom(p, 0) == Some(FirstCovered(p))
  {
    forall host ensures MatchHost(p, host) <==> HostFits(p, host) { MatchesAre(p, host, 0); }
    assert RESERVED_HOSTS[0] == "open.feishu.cn" && RESERVED_HOSTS[1] == "api.dingtalk.com";
    assert RESERVED_HOSTS[2] == "mcp.dingtalk.com" && RESERVED_HOSTS[3] == "qyapi.weixin.qq.com";
    assert CoveredFrom(p, 2) == if MatchHost(p, RESERVED_HOSTS[2]) then Some(RESERVED_HOSTS[2]) else CoveredFrom(p, 3);
    assert CoveredFrom(p, 1) == if MatchHost(p, RESERVED_HOSTS[1]) then Some(RESERVED_HOSTS[1]) else CoveredFrom(p, 2);
  }

  /** Allow-host i is the first that is not acceptable, and nothing else is wrong with the policy. */
  ghost predicate FirstRefused(pol: Policy, i: nat) {
    && pol.credentials == 0 && pol.level in {"none", "trusted", "custom", "full"} && i < |pol.allowHosts|
    && (forall j | 0 <= j < i :: Acceptable(pol.allowHosts[j])) && !Acceptable(pol.allowHosts[i])
  }

  /** What a policy is refused for: credentials, else its level, else the first allow-host that is not acceptable. */
  lemma RefusalIs(pol: Policy, i: nat)
    ensures pol.credentials > 0 ==> CompileSpec(pol) == Err(CredentialsUnsupported)
    ensures pol.credentials == 0 && pol.level !in {"none", "trusted", "custom", "full"} ==>
      CompileSpec(pol) == Err(UnknownLevel(pol.level))
    ensures FirstRefused(pol, i) ==>
      CompileSpec(pol) == Err(
        match ParsePattern(pol.allowHosts[i])
        case None => BadPattern(pol.allowHosts[i])
        case Some(p) => CoversReserved(pol.allowHosts[i], FirstCovered(p)))
  {
    var hosts := pol.allowHosts;
    if FirstRefused(pol, i) {
      forall j | 0 <= j <= i ensures CompileHost(hosts[j]).Ok? <==> Acceptable(hosts[j]) { AcceptableIff(hosts[j]); }
      CollectIff(CompileHost, hosts, i);
      var done := CollectAt(CompileHost, hosts, i);
      CollectStep(CompileHost, hosts, i, done, CompileHost(hosts[i]));
      if ParsePattern(hosts[i]).Some? { CoveredIs(ParsePattern(hosts[i]).value); }
    }
  }

  ghost predicate Acceptable(text: string) {
    ParsePattern(text).Some? && SparesReserved(ParsePattern(text).value)
  }

  lemma AcceptableIff(text: string)
    ensures CompileHost(text).Ok? <==> Acceptable(text)
  {
    HostCompilesIff(text);
    if ParsePattern(text).Some? { SparesIff(ParsePattern(text).value); }
  }

  lemma PresetIs(level: string)
    ensures |Preset(level)| == if level == "trusted" then 13 else 0
    ensures forall i | 0 <= i < |Preset(level)| :: Preset(level)[i] == Pattern(CHINA_TRUSTED[i], false, 0)
  {
  }

  /** An accepted policy keeps its level and tag, and its patterns stand in order behind those of the preset. */
  lemma CompiledIs(pol: Policy, n: nat)
    requires CompileSpec(pol).Ok? && n == if pol.level == "trusted" then 13 else 0
    ensures var c := CompileSpec(pol).value;
      && c.level == pol.level && c.auditTag == pol.auditTag && |c.patterns| == n + |pol.allowHosts|
      && (forall i | 0 <= i < n :: c.patterns[i] == Pattern(CHINA_TRUSTED[i], false, 0))
      && (forall i | 0 <= i < |pol.allowHosts| :: ParsePattern(pol.allowHosts[i]) == Some(c.patterns[n + i]))
  {
    var c, hosts := CompileSpec(pol).value, pol.allowHosts;
    var own := CollectAt(CompileHost, hosts, |hosts|);
    var preset := Preset(pol.level);
    PresetIs(pol.level);
    assert c.patterns == preset + own;
    forall i | 0 <= i < |hosts| ensures ParsePattern(hosts[i]) == Some(own[i]) { ParsedAt(hosts[i], own[i]); }
  }

  // ---- the five answers, for a policy as written ------------------------------------------

  /** Some allow-host parses to a pattern that fits the host, and the port too. */
  ghost predicate SomeFits(hosts: seq<string>, host: string) {
    exists text | text in hosts :: FitsText(text, host)
  }

  ghost predicate FitsText(text: string, host: string) {
    ParsePattern(text).Some? && HostFits(ParsePattern(text).value, host)
  }

  ghost predicate SomeFitsBoth(hosts: seq<string>, host: string, port: int) {
    exists text | text in hosts :: FitsText(text, host) && PortFits(ParsePattern(text).value, port)
  }

  ghost predicate PresetFits(pol: Policy, host: string) { pol.level == "trusted" && host in CHINA_TRUSTED }

  lemma CompiledCoversHost(pol: Policy, host: string)
    requires CompileSpec(pol).Ok?
    ensures CoversHost(CompileSpec(pol).value.patterns, host)
      <==> PresetFits(pol, host) || SomeFits(pol.allowHosts, host)
  {
    var c, hosts := CompileSpec(pol).value, pol.allowHosts;
    var own := CollectAt(CompileHost, hosts, |hosts|);
    assert c.patterns == Preset(pol.level) + own;
    JoinCoversHost(Preset(pol.level), own, host);
    PresetCoversHost(pol, host);
    OwnCoversHost(hosts, own, host);
  }

  lemma JoinCoversHost(first: seq<Pattern>, second: seq<Pattern>, host: string)
    ensures CoversHost(first + second, host) <==> CoversHost(first, host) || CoversHost(second, host)
  {
  }

  lemma PresetCoversHost(pol: Policy, host: string)
    ensures CoversHost(Preset(pol.level), host) <==> PresetFits(pol, host)
  {
    if PresetFits(pol, host) {
      var i :| 0 <= i < |CHINA_TRUSTED| && CHINA_TRUSTED[i] == host;
      assert PresetPatterns()[i] == Exactly(host) && PresetPatterns()[i] in Preset(pol.level);
    }
  }

  lemma FitsTextIs(text: string, p: Pattern, host: string)
    requires CompileHost(text) == Ok(p)
    ensures FitsText(text, host) <==> MatchHost(p, host)
  {
    ParsedAt(text, p);
    MatchesAre(p, host, 0);
  }

  lemma OwnCoversHost(hosts: seq<string>, own: seq<Pattern>, host: string)
    requires |own| == |hosts| && forall i | 0 <= i < |hosts| :: CompileHost(hosts[i]) == Ok(own[i])
    ensures CoversHost(own, host) <==> SomeFits(hosts, host)
  {
    if p :| p in own && MatchHost(p, host) {
      var i :| 0 <= i < |own| && own[i] == p;
      FitsTextIs(hosts[i], p, host);
      assert hosts[i] in hosts;
    }
    if text :| text in hosts && FitsText(text, host) {
      var i :| 0 <= i < |hosts| && hosts[i] == text;
      FitsTextIs(text, own[i], host);
      assert own[i] in own;
    }
  }

  lemma LetsIs(text: string, host: string, port: int)
    ensures Lets(text, host, port) <==> FitsText(text, host) && PortFits(ParsePattern(text).value, port)
  {
    if ParsePattern(text).Some? { MatchesAre(ParsePattern(text).value, host, port); }
  }

  lemma CompiledCoversBoth(pol: Policy, host: string, port: int)
    requires CompileSpec(pol).Ok?
    ensures Covers(CompileSpec(pol).value.patterns, host, port) <==>
      (PresetFits(pol, host) && port in {80, 443}) || SomeFitsBoth(pol.allowHosts, host, port)
  {
    CompiledCovers(pol, host, port);
    forall text ensures Lets(text, host, port) <==> FitsText(text, host) && PortFits(ParsePattern(text).value, port) {
      LetsIs(text, host, port);
    }
  }

  /** Which of the five answers a policy gives, in the order the checks are made. */
  lemma AnswerIs(pol: Policy, host: string, port: int)
    requires CompileSpec(pol).Ok?
    ensures var d := DecideSpec(CompileSpec(pol).value, host, port);
      var hostFits := pol.level == "full" || PresetFits(pol, host) || SomeFits(pol.allowHosts, host);
      var bothFit := ((pol.level == "full" || PresetFits(pol, host)) && port in {80, 443})
        || SomeFitsBoth(pol.allowHosts, host, port);
      d == if pol.level == "none" then LevelNone
           else if host in RESERVED_HOSTS then ImApiHost
           else if !hostFits then HostNotAllowed
           else if !bothFit then PortNotAllowed
           else Allowed
  {
    CompiledCoversHost(pol, host);
    CompiledCoversBoth(pol, host, port);
  }

  // ---- patterns written plainly --------------------------------------------------------------

  function Written(ps: seq<Pattern>): (texts: seq<string>)
    ensures |texts| == |ps| && forall i | 0 <= i < |ps| :: texts[i] == Rendered(ps[i])
  {
    seq(|ps|, i requires 0 <= i < |ps| => Rendered(ps[i]))
  }

  /** Some pattern of the list fits both the host and the port. */
  ghost predicate ListFits(ps: seq<Pattern>, host: string, port: int) {
    exists p | p in ps :: HostFits(p, host) && PortFits(p, port)
  }

  lemma WrittenFits(ps: seq<Pattern>, host: string, port: int)
    requires forall i | 0 <= i < |ps| :: ValidPattern(ps[i])
    ensures SomeFitsBoth(Written(ps), host, port) <==> ListFits(ps, host, port)
  {
    var texts := Written(ps);
    if text :| text in texts && FitsText(text, host) && PortFits(ParsePattern(text).value, port) {
      var i :| 0 <= i < |ps| && texts[i] == text;
      ParseOfRendered(ps[i]);
      assert ps[i] in ps;
    }
    if p :| p in ps && HostFits(p, host) && PortFits(p, port) {
      var i :| 0 <= i < |ps| && ps[i] == p;
      ParseOfRendered(p);
      assert texts[i] in texts && FitsText(texts[i], host);
    }
  }

  lemma WrittenCompiles(ps: seq<Pattern>, tag: string)
    requires forall i | 0 <= i < |ps| :: ValidPattern(ps[i])
    requires forall i, r | 0 <= i < |ps| && r in RESERVED_HOSTS :: !MatchHost(ps[i], r)
    ensures CompileSpec(Policy("custom", Written(ps), tag, 0)).Ok?
  {
    var texts := Written(ps);
    forall i | 0 <= i < |ps| ensures HostCompiles(texts[i]) { ParseOfRendered(ps[i]); }
    CompilesIff(Policy("custom", texts, tag, 0));
  }

  /** Under the custom level a list of plain patterns allows a host and port exactly when one of them fits both. */
  lemma CustomAllowsIff(ps: seq<Pattern>, host: string, port: int, tag: string)
    requires forall i | 0 <= i < |ps| :: ValidPattern(ps[i])
    requires forall i, r | 0 <= i < |ps| && r in RESERVED_HOSTS :: !MatchHost(ps[i], r)
    ensures var pol := Policy("custom", Written(ps), tag, 0);
      && CompileSpec(pol).Ok?
      && (DecideSpec(CompileSpec(pol).value, host, port) == Allowed <==>
            host !in RESERVED_HOSTS && ListFits(ps, host, port))
  {
    var pol := Policy("custom", Written(ps), tag, 0);
    WrittenCompiles(ps, tag);
    CompiledCoversBoth(pol, host, port);
    WrittenFits(ps, host, port);
    CustomAllowed(pol, host, port);
  }

  lemma CustomAllowed(pol: Policy, host: string, port: int)
    requires CompileSpec(pol).Ok? && pol.level == "custom"
    ensures DecideSpec(CompileSpec(pol).value, host, port) == Allowed
      <==> host !in RESERVED_HOSTS && Covers(CompileSpec(pol).value.patterns, host, port)
  {
  }

  lemma OneInList(p: Pattern, host: string, port: int)
    ensures Written([p]) == [Rendered(p)]
    ensures ListFits([p], host, port) <==> HostFits(p, host) && PortFits(p, port)
    ensures forall i | 0 <= i < |[p]| :: [p][i] == p
  {
    assert p in [p];
  }

  /** One plain allow-host: a host it matches is allowed on its own port, or if it names none on 80 and 443. */
  lemma OneAllowHost(h: string, wildcard: bool, n: nat, host: string, port: int, tag: string)
    requires ValidHostname(h) && n <= 65535 && host !in RESERVED_HOSTS
    requires forall r | r in RESERVED_HOSTS :: !MatchHost(Pattern(h, wildcard, n), r)
    requires if wildcard then exists front: string :: host == front + "." + h else host == h
    ensures var pol := Policy("custom", [Rendered(Pattern(h, wildcard, n))], tag, 0);
      && CompileSpec(pol).Ok?
      && (DecideSpec(CompileSpec(pol).value, host, port) == Allowed <==>
            if n > 0 then port == n else port == 80 || port == 443)
  {
    var p := Pattern(h, wildcard, n);
    OneInList(p, host, port);
    MatchesAre(p, host, port);
    CustomAllowsIff([p], host, port, tag);
  }

  // ---- what may be written for a pattern ------------------------------------------------------

  const CAPITALS: string := "ABCDEFGHIJKLMNOPQRSTUVWXYZ"
  const SMALLS: string := "abcdefghijklmnopqrstuvwxyz"

  lemma SmallAt(i: nat)
    requires i < 26
    ensures SMALLS[i] == 'a' + i as char && CAPITALS[i] == 'A' + i as char
  {
  }

  lemma SmallIndex(c: char)
    requires 'a' <= c <= 'z'
    ensures c in SMALLS
  {
    var i := (c - 'a') as nat;
    SmallAt(i);
  }

  lemma HostCharIs(c: char)
    ensures IsHostChar(c) <==> c in SMALLS || c in "0123456789" || c in "-_"
  {
    if 'a' <= c <= 'z' { SmallIndex(c); }
    if '0' <= c <= '9' { assert c == "0123456789"[(c - '0') as nat]; }
  }

  predicate HostChars(part: string) { forall c | c in part :: c in SMALLS || c in "0123456789" || c in "-_" }

  /** A host name is labels of 1 to 63 small letters, digits, hyphens and underscores with dots between them. */
  lemma HostnameIff(labels: seq<string>)
    requires |labels| >= 1 && forall i | 0 <= i < |labels| :: '.' !in labels[i]
    ensures ValidHostname(JoinWith(labels, '.')) <==>
      forall i | 0 <= i < |labels| :: 1 <= |labels[i]| <= 63 && HostChars(labels[i])
  {
    SplitOfJoin(labels, '.');
    forall c ensures IsHostChar(c) <==> c in SMALLS || c in "0123456789" || c in "-_" { HostCharIs(c); }
    forall i | 0 <= i < |labels|
      ensures ValidLabel(labels[i]) <==> 1 <= |labels[i]| <= 63 && HostChars(labels[i])
    {
    }
    if ValidLabel(labels[0]) { assert JoinWith(labels, '.') != ""; }
  }

  /** The same letter, or the capital of it; the Kelvin sign is a capital k, and an I with a dot a capital i. */
  predicate IsLetterOf(c: char, small: char) {
    || c == small || (c == '\U{212A}' && small == 'k') || (c == '\U{130}' && small == 'i')
    || exists i :: 0 <= i < 26 && c == CAPITALS[i] && small == SMALLS[i]
  }

  predicate IsSpellingOf(raw: string, stem: string) {
    |raw| == |stem| && forall i | 0 <= i < |raw| :: IsLetterOf(raw[i], stem[i])
  }

  lemma LetterLowers(c: char, small: char)
    requires IsLetterOf(c, small) && IsStemChar(small)
    ensures Lower(c) == small && NotPunctuation(c) && !IsWhiteSpace(c)
  {
    if i :| 0 <= i < 26 && c == CAPITALS[i] && small == SMALLS[i] { SmallAt(i); }
  }

  lemma SpellingLowers(raw: string, stem: string)
    requires IsSpellingOf(raw, stem) && stem != "" && IsHostChar(stem[|stem| - 1])
    requires forall c | c in stem :: IsStemChar(c)
    ensures LowerAll(raw) == stem
    ensures forall c | c in raw :: NotPunctuation(c) && !IsWhiteSpace(c)
  {
    forall i | 0 <= i < |raw| ensures Lower(raw[i]) == stem[i] && NotPunctuation(raw[i]) && !IsWhiteSpace(raw[i]) {
      assert stem[i] in stem;
      LetterLowers(raw[i], stem[i]);
    }
  }

  lemma DottedNormalizes(raw: string, stem: string)
    requires LowerAll(raw) == stem
    ensures NormalizeHost(raw + ".") == stem
  {
    var lower := LowerAll(raw + ".");
    assert lower == stem + ".";
    assert lower[|stem|..] == "." && lower[..|stem|] == stem;
  }

  lemma UndottedNormalizes(raw: string, stem: string)
    requires LowerAll(raw) == stem && stem != "" && stem[|stem| - 1] != '.'
    ensures NormalizeHost(raw) == stem
  {
    assert stem[|stem| - 1..] == [stem[|stem| - 1]];
  }

  lemma SpellingNormalizes(raw: string, stem: string, dot: bool)
    requires IsSpellingOf(raw, stem) && stem != "" && IsHostChar(stem[|stem| - 1])
    requires forall c | c in stem :: IsStemChar(c)
    ensures NormalizeHost(raw + if dot then "." else "") == stem
    ensures forall c | c in raw + if dot then "." else "" :: NotPunctuation(c) && !IsWhiteSpace(c)
  {
    SpellingLowers(raw, stem);
    if dot {
      DottedNormalizes(raw, stem);
    } else {
      assert raw + "" == raw;
      UndottedNormalizes(raw, stem);
    }
  }

  lemma WrittenTrims(host: string, port: nat)
    requires host != "" && !IsWhiteSpace(host[0]) && !IsWhiteSpace(host[|host| - 1])
    ensures var raw := host + if port == 0 then "" else ":" + Decimal(port); TrimRight(TrimLeft(raw)) == raw
  {
    var end := if port == 0 then "" else ":" + Decimal(port);
    var raw := host + end;
    assert raw[0] == host[0];
    if port == 0 {
      assert raw == host;
    } else {
      assert raw[|raw| - 1] == end[|end| - 1] && IsDigit(end[|end| - 1]);
    }
    NotTrimmed(raw);
  }

  /** Capitals and one dot behind the host make no difference. */
  lemma SpellingParses(p: Pattern, raw: string, dot: bool)
    requires ValidPattern(p) && IsSpellingOf(raw, (if p.wildcard then "*." else "") + p.host)
    ensures var written := (raw + if dot then "." else "") + if p.port == 0 then "" else ":" + Decimal(p.port);
      ParsePattern(written) == Some(p)
  {
    var stem, host := Stem(p), raw + if dot then "." else "";
    StemShape(p);
    SpellingNormalizes(raw, stem, dot);
    StemIsNormal(stem);
    PatternOfStem(p);
    SamePattern(host, stem, p.port);
    assert host != "";
    WrittenHost(host, p.port);
  }

  lemma WrittenHost(host: string, port: nat)
    requires host != "" && port <= 65535 && forall c | c in host :: NotPunctuation(c) && !IsWhiteSpace(c)
    ensures ParsePattern(host + if port == 0 then "" else ":" + Decimal(port)) == PatternOf(host, port)
  {
    assert host[0] in host && host[|host| - 1] in host;
    WrittenTrims(host, port);
    if port == 0 {
      assert !NotPunctuation(':');
      PortlessHost(host);
    } else {
      HostWithPort(host, port);
    }
  }

  lemma SamePattern(host: string, stem: string, port: nat)
    requires NormalizeHost(host) == stem && NormalizeHost(stem) == stem
    ensures PatternOf(host, port) == PatternOf(stem, port)
  {
  }

  /** A port must be from 1 to 65535. */
  lemma PortRefused(host: string, n: nat)
    requires host != "" && !IsWhiteSpace(host[0]) && forall c | c in host :: NotPunctuation(c)
    requires n < 1 || n > 65535
    ensures ParsePattern(host + (":" + Decimal(n))) == None
  {
    var ps := Decimal(n);
    var raw := host + (":" + ps);
    AtoiOfDecimal(n);
    forall c | c in ps ensures NotPunctuation(c) { assert IsDigit(c); }
    HostAndPortOfPair(host, ps, raw);
    PairIsTrimmed(host, ps);
  }

  lemma PairIsTrimmed(host: string, ps: string)
    requires host != "" && !IsWhiteSpace(host[0]) && ps != "" && AllDigits(ps)
    ensures TrimRight(TrimLeft(host + (":" + ps))) == host + (":" + ps)
  {
    var raw := host + (":" + ps);
    assert raw[0] == host[0] && raw[|raw| - 1] == ps[|ps| - 1] && IsDigit(ps[|ps| - 1]);
    NotTrimmed(raw);
  }

  lemma {:induction false} TrimLeftOf(lead: string, rest: string)
    requires (forall c | c in lead :: IsWhiteSpace(c)) && (rest == "" || !IsWhiteSpace(rest[0]))
    ensures TrimLeft(lead + rest) == rest
  {
    if lead == "" {
      assert lead + rest == rest;
    } else {
      assert lead[0] in lead && (lead + rest)[1..] == lead[1..] + rest;
      TrimLeftOf(lead[1..], rest);
    }
  }

  lemma {:induction false} TrimRightOf(rest: string, trail: string)
    requires (forall c | c in trail :: IsWhiteSpace(c)) && (rest == "" || !IsWhiteSpace(rest[|rest| - 1]))
    ensures TrimRight(rest + trail) == rest
  {
    if trail == "" {
      assert rest + trail == rest;
    } else {
      var n := |trail| - 1;
      assert trail[n] in trail && (rest + trail)[..|rest| + n] == rest + trail[..n];
      TrimRightOf(rest, trail[..n]);
    }
  }

  /** Nor does white space round the whole. */
  lemma BlanksAround(lead: string, text: string, trail: string)
    requires forall c | c in lead + trail :: IsWhiteSpace(c)
    requires text != "" && !IsWhiteSpace(text[0]) && !IsWhiteSpace(text[|text| - 1])
    ensures ParsePattern(lead + (text + trail)) == ParsePattern(text)
  {
    forall c | c in lead ensures IsWhiteSpace(c) { assert c in lead + trail; }
    forall c | c in trail ensures IsWhiteSpace(c) { assert c in lead + trail; }
    assert (text + trail)[0] == text[0];
    TrimLeftOf(lead, text + trail);
    TrimRightOf(text, trail);
    NotTrimmed(text);
  }

  // ---- host and port --------------------------------------------------------------------------

  predicate NoneOf(s: string, chars: string) { forall c | c in s :: c !in chars }

  predicate PlainPair(s: string, host: string, ps: string) {
    s == host + [':'] + ps && NoneOf(host, ":[]") && NoneOf(ps, ":[]")
  }

  predicate BracketedWith(s: string, host: string, ps: string) {
    s == ['['] + host + [']', ':'] + ps && NoneOf(host, "[]") && NoneOf(ps, ":[]")
  }

  lemma FirstBracket(host: string, ps: string)
    requires NoneOf(host, "[]")
    ensures IndexOf(['['] + host + [']', ':'] + ps, ']') == |host| + 1
  {
    var s := ['['] + host + [']', ':'] + ps;
    forall k | 0 <= k < |host| + 1 ensures s[k] != ']' { assert k > 0 ==> s[k] == host[k - 1] && s[k] in host; }
    IndexIs(s, ']', |host| + 1);
  }

  lemma BracketedSlices(s: string, host: string, ps: string)
    requires s == ['['] + host + [']', ':'] + ps
    ensures var i := |host| + 2; s[1..i - 1] == host && s[i..] == [':'] + ps && s[i + 1..] == ps && s[i] == ':'
    ensures s[1..] == host + [']', ':'] + ps && s[0] == '['
  {
  }

  lemma BracketedSplits(host: string, ps: string)
    requires NoneOf(host, "[]") && NoneOf(ps, ":[]")
    ensures SplitHostPort(['['] + host + [']', ':'] + ps) == Some((host, ps))
  {
    var s, i := ['['] + host + [']', ':'] + ps, |host| + 2;
    BracketedSlices(s, host, ps);
    FirstBracket(host, ps);
    LastColon(s, i);
    assert '[' !in s[1..] && ']' !in s[i..];
  }

  lemma PlainSplits(host: string, ps: string)
    requires NoneOf(host, ":[]") && NoneOf(ps, ":[]")
    ensures SplitHostPort(host + [':'] + ps) == Some((host, ps))
  {
    var s, i := host + [':'] + ps, |host|;
    assert s[..i] == host && s[i + 1..] == ps;
    LastColon(s, i);
    assert '[' !in s && ']' !in s;
    assert s[0] in s;
  }

  /** A text is host and port if it is both with a colon between them, the host perhaps in brackets. */
  lemma SplitHostPortIff(s: string, host: string, ps: string)
    ensures SplitHostPort(s) == Some((host, ps)) <==> PlainPair(s, host, ps) || BracketedWith(s, host, ps)
  {
    if PlainPair(s, host, ps) { PlainSplits(host, ps); }
    if BracketedWith(s, host, ps) { BracketedSplits(host, ps); }
    if SplitHostPort(s) == Some((host, ps)) { SplitHasForm(s, host, ps); }
  }

  lemma SplitHasForm(s: string, host: string, ps: string)
    requires SplitHostPort(s) == Some((host, ps))
    ensures PlainPair(s, host, ps) || BracketedWith(s, host, ps)
  {
    var i := LastIndexOf(s, ':').value;
    if s[0] == '[' { BracketedForm(s, i, host, ps); } else { PlainForm(s, i, host, ps); }
  }

  lemma BracketedParts(s: string, i: nat)
    requires 2 <= i < |s| && s[0] == '[' && s[i - 1] == ']' && s[i] == ':'
    ensures s == ['['] + s[1..i - 1] + [']', ':'] + s[i + 1..]
  {
  }

  lemma BracketedSpares(s: string, i: nat)
    requires 2 <= i < |s| && ']' !in s[..i - 1] && '[' !in s[1..] && ']' !in s[i..] && ':' !in s[i + 1..]
    ensures NoneOf(s[1..i - 1], "[]") && NoneOf(s[i + 1..], ":[]")
  {
    forall k | 1 <= k < i - 1 ensures s[k] !in "[]" { assert s[k] in s[..i - 1] && s[k] in s[1..]; }
    forall k | i < k < |s| ensures s[k] !in ":[]" {
      assert s[k] in s[1..] && s[k] in s[i + 1..];
      assert s[k] == s[i..][k - i];
    }
  }

  lemma BracketedFacts(s: string, i: nat, host: string, ps: string)
    requires SplitHostPort(s) == Some((host, ps)) && LastIndexOf(s, ':') == Some(i) && s[0] == '['
    ensures 2 <= i < |s| && s[i - 1] == ']' && s[i] == ':' && host == s[1..i - 1] && ps == s[i + 1..]
    ensures ']' !in s[..i - 1] && '[' !in s[1..] && ']' !in s[i..] && ':' !in s[i + 1..]
  {
  }

  lemma BracketedForm(s: string, i: nat, host: string, ps: string)
    requires SplitHostPort(s) == Some((host, ps)) && LastIndexOf(s, ':') == Some(i) && s[0] == '['
    ensures BracketedWith(s, host, ps)
  {
    BracketedFacts(s, i, host, ps);
    BracketedParts(s, i);
    BracketedSpares(s, i);
  }

  lemma PlainForm(s: string, i: nat, host: string, ps: string)
    requires SplitHostPort(s) == Some((host, ps)) && LastIndexOf(s, ':') == Some(i) && s[0] != '['
    ensures PlainPair(s, host, ps)
  {
    assert s == host + [':'] + ps;
    assert s[i + 1..] == ps && s[..i] == host;
  }

  /** A port is decimal digits, perhaps with a sign before them. */
  lemma AtoiIff(s: string, n: int)
    ensures Atoi(s) == Some(n) <==> exists digits: string :: IsNumeral(s, n, digits)
  {
    if digits: string :| IsNumeral(s, n, digits) {
      assert digits[0] in "0123456789";
      if s != digits { assert s[1..] == digits; }
      assert AllDigits(digits);
    }
    if Atoi(s) == Some(n) {
      var digits := if s[0] == '+' || s[0] == '-' then s[1..] else s;
      assert s == digits || s == [s[0]] + digits;
      assert IsNumeral(s, n, digits);
    }
  }

  predicate IsNumeral(s: string, n: int, digits: string) {
    && digits != "" && AllDigits(digits)
    && var value: int := DecimalValue(digits);
      (s == digits && n == value) || (s == "+" + digits && n == value) || (s == "-" + digits && n == -value)
  }
}
