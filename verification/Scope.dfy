/** Scope matching of host names against configured targets, globs and regular expressions. */
module Scope {
  import opened Basics
  import opened Strings

  type Pattern = string -> bool

  /** What the matcher takes from libraries: IDNA encoding of a label, lower-casing, glob and regex compilation. */
  datatype Library = Library(
    Idna: string -> Option<string>,
    Lower: string -> string,
    Glob: string -> Pattern,
    Regex: string -> Option<Pattern>)

  datatype ScopeMatch = ScopeMatch(matched: bool, matchedTarget: Option<string>)

  /** A configured pattern, reported under the text it was configured with. */
  datatype Rule = Rule(original: string, pattern: Pattern)

  predicate HasGlobChar(s: string) { exists c | c in s :: c in "*?[]" }

  function NormalizeLabel(lib: Library, part: string): string {
    if HasGlobChar(part) then lib.Lower(part)
    else match lib.Idna(part)
      case Some(encoded) => encoded
      case None => lib.Lower(part)
  }

  function NormalizeHostname(lib: Library, hostname: string): string {
    var labels := Split(StripTrailing(Strip(hostname), '.'), '.');
    Join(seq(|labels|, i requires 0 <= i < |labels| => NormalizeLabel(lib, labels[i])), '.')
  }

  /** The host is the target or one of its subdomains: the last labels of the host are the target's labels. */
  predicate InDomain(host: string, target: string) { IsSuffix(Split(target, '.'), Split(host, '.')) }

  // ---------------------------------------------------------------- specification of the compiled scope

  function ExactTargets(lib: Library, targets: seq<string>): seq<string> {
    if targets == [] then []
    else
      var front, n := ExactTargets(lib, targets[..|targets| - 1]), NormalizeHostname(lib, targets[|targets| - 1]);
      if HasGlobChar(n) then front else front + [n]
  }

  function GlobRules(lib: Library, targets: seq<string>): seq<Rule> {
    if targets == [] then []
    else
      var front, t := GlobRules(lib, targets[..|targets| - 1]), targets[|targets| - 1];
      var n := NormalizeHostname(lib, t);
      if HasGlobChar(n) then front + [Rule(t, lib.Glob(n))] else front
  }

  function RegexRules(lib: Library, regexes: seq<string>): seq<Rule>
    requires forall r | r in regexes :: lib.Regex(r).Some?
  {
    seq(|regexes|, i requires 0 <= i < |regexes| => Rule(regexes[i], lib.Regex(regexes[i]).value))
  }

  /** The first exact target whose domain the host is in. */
  function FirstExact(host: string, exact: seq<string>): Option<string> {
    if exact == [] then None
    else if InDomain(host, exact[0]) then Some(exact[0])
    else FirstExact(host, exact[1..])
  }

  function FirstRule(host: string, rules: seq<Rule>): Option<string> {
    if rules == [] then None
    else if rules[0].pattern(host) then Some(rules[0].original)
    else FirstRule(host, rules[1..])
  }

  /** The entry that puts a normalised host in scope: targets before globs before regexes, each in order. */
  function FirstHit(host: string, exact: seq<string>, globs: seq<Rule>, regexes: seq<Rule>): Option<string> {
    if FirstExact(host, exact).Some? then FirstExact(host, exact)
    else if FirstRule(host, globs).Some? then FirstRule(host, globs)
    else FirstRule(host, regexes)
  }

  /** What configuration puts a host in scope, in terms of the configuration itself. */
  ghost predicate InScope(lib: Library, targets: seq<string>, regexes: seq<string>, hostname: string) {
    var host := NormalizeHostname(lib, hostname);
    || (exists t | t in targets :: TargetAccepts(lib, t, host))
    || (exists r | r in regexes :: lib.Regex(r).Some? && lib.Regex(r).value(host))
  }

  lemma {:induction false} FirstExactIff(host: string, exact: seq<string>)
    ensures FirstExact(host, exact).Some? <==> exists t | t in exact :: InDomain(host, t)
  {
    if exact != [] {
      FirstExactIff(host, exact[1..]);
      assert exact == [exact[0]] + exact[1..];
    }
  }

  lemma {:induction false} FirstRuleIff(host: string, rules: seq<Rule>)
    ensures FirstRule(host, rules).Some? <==> exists r | r in rules :: r.pattern(host)
  {
    if rules != [] {
      FirstRuleIff(host, rules[1..]);
      assert rules == [rules[0]] + rules[1..];
    }
  }

  /** A glob has an asterisk, a question mark or a bracket somewhere. */
  predicate IsGlob(s: string) {
    exists k :: 0 <= k < |s| && (s[k] == '*' || s[k] == '?' || s[k] == '[' || s[k] == ']')
  }

  lemma GlobCharIff(s: string)
    ensures HasGlobChar(s) <==> IsGlob(s)
  {
    var globs := "*?[]";
    assert globs[0] == '*' && globs[1] == '?' && globs[2] == '[' && globs[3] == ']';
    forall k | 0 <= k < |s| && (s[k] == '*' || s[k] == '?' || s[k] == '[' || s[k] == ']')
      ensures s[k] in s && s[k] in globs
    {
    }
  }

  ghost predicate TargetAccepts(lib: Library, target: string, host: string) {
    var n := NormalizeHostname(lib, target);
    if IsGlob(n) then lib.Glob(n)(host) else InDomain(host, n)
  }

  /** Some compiled target, exact or glob, accepts the host. */
  ghost predicate CompiledAccepts(lib: Library, targets: seq<string>, host: string) {
    || (exists n | n in ExactTargets(lib, targets) :: InDomain(host, n))
    || (exists r | r in GlobRules(lib, targets) :: r.pattern(host))
  }

  lemma {:induction false} TargetsHit(lib: Library, targets: seq<string>, host: string)
    ensures CompiledAccepts(lib, targets, host) <==> exists t | t in targets :: TargetAccepts(lib, t, host)
  {
    if targets != [] {
      var front, last := targets[..|targets| - 1], targets[|targets| - 1];
      assert targets == front + [last];
      TargetsHit(lib, front, host);
      assert CompiledAccepts(lib, targets, host) <==>
             CompiledAccepts(lib, front, host) || TargetAccepts(lib, last, host) by {
        hide InDomain;
        var n := NormalizeHostname(lib, last);
        GlobCharIff(n);
        if HasGlobChar(n) {
          assert Rule(last, lib.Glob(n)) in GlobRules(lib, targets);
        } else {
          assert n in ExactTargets(lib, targets);
        }
      }
    }
  }

  /** A host is hit exactly when the configuration puts it in scope. */
  lemma HitIffInScope(lib: Library, targets: seq<string>, regexes: seq<string>, hostname: string)
    requires forall r | r in regexes :: lib.Regex(r).Some?
    ensures FirstHit(NormalizeHostname(lib, hostname), ExactTargets(lib, targets), GlobRules(lib, targets),
                     RegexRules(lib, regexes)).Some?
            <==> InScope(lib, targets, regexes, hostname)
  {
    var host, rules := NormalizeHostname(lib, hostname), RegexRules(lib, regexes);
    FirstExactIff(host, ExactTargets(lib, targets));
    FirstRuleIff(host, GlobRules(lib, targets));
    FirstRuleIff(host, rules);
    TargetsHit(lib, targets, host);
    assert (exists r | r in rules :: r.pattern(host)) <==> exists r | r in regexes :: lib.Regex(r).value(host) by {
      forall r | r in regexes && lib.Regex(r).value(host) ensures exists rule | rule in rules :: rule.pattern(host) {
        var i :| 0 <= i < |regexes| && regexes[i] == r;
        assert rules[i] in rules;
      }
    }
  }

  // ---------------------------------------------------------------- normalised names

  /** A label with a glob character is lower-cased; any other is IDNA-encoded, or lower-cased if it cannot be. */
  predicate IsNormalLabel(lib: Library, part: string, normal: string) {
    if IsGlob(part) then normal == lib.Lower(part)
    else if lib.Idna(part).Some? then normal == lib.Idna(part).value
    else normal == lib.Lower(part)
  }

  lemma LabelIsNormal(lib: Library, part: string, normal: string)
    ensures NormalizeLabel(lib, part) == normal <==> IsNormalLabel(lib, part, normal)
  {
    GlobCharIff(part);
  }

  /**
   A name written as labels with dots between them, with any spaces around it and any dots behind it: its
   normal form has the normal forms of those labels.
   */
  lemma NormalizedLabels(
      lib: Library, labels: seq<string>, before: string, dots: string, after: string, normal: seq<string>)
    requires labels != [] && |normal| == |labels| && forall part | part in labels :: '.' !in part
    requires forall i | 0 <= i < |labels| :: IsNormalLabel(lib, labels[i], normal[i])
    requires forall i | 0 <= i < |before| :: IsSpace(before[i])
    requires forall i | 0 <= i < |after| :: IsSpace(after[i])
    requires forall i | 0 <= i < |dots| :: dots[i] == '.'
    requires var name := Join(labels, '.');
             name != "" && !IsSpace(name[0]) && !IsSpace(name[|name| - 1]) && name[|name| - 1] != '.'
    ensures NormalizeHostname(lib, before + (Join(labels, '.') + dots) + after) == Join(normal, '.')
  {
    var name := Join(labels, '.');
    var dotted := name + dots;
    assert dotted[|dotted| - 1] == if dots == "" then name[|name| - 1] else '.';
    StripBetween(before, dotted, after);
    StripTrailingRun(name, dots, '.');
    SplitJoin(labels, '.');
    var parts := seq(|labels|, i requires 0 <= i < |labels| => NormalizeLabel(lib, labels[i]));
    forall i | 0 <= i < |labels| ensures parts[i] == normal[i] {
      LabelIsNormal(lib, labels[i], normal[i]);
    }
    assert parts == normal;
    hide Strip, StripTrailing, Split, Join, NormalizeLabel;
  }

  // ---------------------------------------------------------------- the matcher

  /** The first of the regexes that does not compile. */
  ghost predicate FirstBroken(lib: Library, regexes: seq<string>, pattern: string) {
    exists i: nat | i < |regexes| ::
      regexes[i] == pattern && lib.Regex(pattern).None? && forall p | p in regexes[..i] :: lib.Regex(p).Some?
  }

  class ScopeMatcher {
    const lib: Library
    var exactTargets: seq<string>
    var globTargets: seq<Rule>
    var regexTargets: seq<Rule>

    /** The matcher holds exactly this configuration, compiled. */
    ghost predicate Configured(targets: seq<string>, regexes: seq<string>)
      reads this
    {
      && exactTargets == ExactTargets(lib, targets)
      && globTargets == GlobRules(lib, targets)
      && (forall r | r in regexes :: lib.Regex(r).Some?)
      && regexTargets == RegexRules(lib, regexes)
    }

    constructor (lib: Library)
      ensures this.lib == lib && exactTargets == [] && globTargets == [] && regexTargets == []
    {
      this.lib := lib;
      exactTargets, globTargets, regexTargets := [], [], [];
    }

    /** The body of `__init__`; `Err` names the first regex that does not compile. */
    method Configure(targets: seq<string>, regexes: seq<string>) returns (r: Result<(), string>)
      requires exactTargets == [] && globTargets == [] && regexTargets == []
      modifies this
      ensures r.Ok? ==> Configured(targets, regexes)
      ensures r.Err? ==> FirstBroken(lib, regexes, r.error)
      ensures r.Ok? <==> forall p | p in regexes :: lib.Regex(p).Some?
    {
      for i := 0 to |targets|
        invariant exactTargets == ExactTargets(lib, targets[..i])
        invariant globTargets == GlobRules(lib, targets[..i])
        invariant regexTargets == []
      {
        assert targets[..i + 1][..i] == targets[..i];
        var normalized := NormalizeHostname(lib, targets[i]);
        if HasGlobChar(normalized) {
          globTargets := globTargets + [Rule(targets[i], lib.Glob(normalized))];
        } else {
          exactTargets := exactTargets + [normalized];
        }
      }
      assert targets[..|targets|] == targets;
      for i := 0 to |regexes|
        invariant exactTargets == ExactTargets(lib, targets) && globTargets == GlobRules(lib, targets)
        invariant forall p | p in regexes[..i] :: lib.Regex(p).Some?
        invariant regexTargets == RegexRules(lib, regexes[..i])
      {
        assert regexes[..i + 1] == regexes[..i] + [regexes[i]];
        var compiled := lib.Regex(regexes[i]);
        if compiled.None? {
          return Err(regexes[i]);
        }
        regexTargets := regexTargets + [Rule(regexes[i], compiled.value)];
      }
      assert regexes[..|regexes|] == regexes;
      return Ok(());
    }

    /** `match`. */
    method Match(hostname: string) returns (m: ScopeMatch)
      ensures m.matched <==> m.matchedTarget.Some?
      ensures m.matchedTarget == FirstHit(NormalizeHostname(lib, hostname), exactTargets, globTargets, regexTargets)
    {
      var normalized := NormalizeHostname(lib, hostname);
      for i := 0 to |exactTargets|
        invariant FirstExact(normalized, exactTargets[i..]) == FirstExact(normalized, exactTargets)
      {
        var target := exactTargets[i];
        EndsWithIffPartsSuffix(normalized, target, '.');
        if normalized == target || EndsWith(normalized, "." + target) {
          return ScopeMatch(true, Some(target));
        }
      }
      for i := 0 to |globTargets|
        invariant FirstRule(normalized, globTargets[i..]) == FirstRule(normalized, globTargets)
      {
        if globTargets[i].pattern(normalized) {
          return ScopeMatch(true, Some(globTargets[i].original));
        }
      }
      for i := 0 to |regexTargets|
        invariant FirstRule(normalized, regexTargets[i..]) == FirstRule(normalized, regexTargets)
      {
        if regexTargets[i].pattern(normalized) {
          return ScopeMatch(true, Some(regexTargets[i].original));
        }
      }
      return ScopeMatch(false, None);
    }
  }
}
