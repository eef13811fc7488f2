/** Endpoint rules of a host: path prefixes with a mode of their own.  The longest prefix that
    ends at a path segment wins, whatever the order the rules were given in. */
module EndpointRules {
  import opened Wrappers
  import opened Sequences
  import opened Sorting
  import opened Texts

  const MAX_ENDPOINT_RULES_PER_HOST: nat := 50

  datatype Mode = Off | Observe | Protect | Strict

  datatype EndpointRule = EndpointRule(pathPrefix: string, mode: Mode)

  /** A rule as entered; the mode is none when it is not one of the four. */
  datatype Candidate = Candidate(pathPrefix: string, mode: Option<Mode>)

  // ----- Path prefixes -----

  function CutQuery(s: string): (r: string)
    ensures |r| <= |s| && r == s[..|r|]
    ensures forall i :: 0 <= i < |r| ==> r[i] != '?' && r[i] != '#'
  {
    if s == [] || s[0] == '?' || s[0] == '#' then [] else [s[0]] + CutQuery(s[1..])
  }

  function CollapseSlashes(s: string): (r: string)
    ensures s != [] ==> r != [] && r[0] == s[0]
    ensures forall i :: 0 <= i < |r| - 1 ==> !(r[i] == '/' && r[i + 1] == '/')
  {
    if |s| < 2 then s
    else if s[0] == '/' && s[1] == '/' then CollapseSlashes(s[1..])
    else [s[0]] + CollapseSlashes(s[1..])
  }

  function DropFinalSlashes(s: string): (r: string)
    ensures |r| <= |s| && r == s[..|r|] && (r != [] ==> r[|r| - 1] != '/')
  {
    if s != [] && s[|s| - 1] == '/' then DropFinalSlashes(s[..|s| - 1]) else s
  }

  /** A usable prefix starts with a slash, has no empty segment and does not end in a slash
      unless it is the root. */
  predicate CleanPrefix(p: string) {
    p != [] && p[0] == '/' && |p| <= 200 &&
    (forall i :: 0 <= i < |p| - 1 ==> !(p[i] == '/' && p[i + 1] == '/')) &&
    (|p| > 1 ==> p[|p| - 1] != '/') &&
    forall i :: 0 <= i < |p| ==> p[i] != '?' && p[i] != '#'
  }

  function NormalizePathPrefix(value: string): (r: Option<string>)
    ensures r.Some? ==> CleanPrefix(r.value)
  {
    var trimmed := Trim(value);
    if trimmed == [] || '\r' in trimmed || '\n' in trimmed then None
    else
      var path := CutQuery(trimmed);
      var rooted := if path != [] && path[0] == '/' then path else ['/'] + path;
      KeepsClean(rooted);
      var collapsed := CollapseSlashes(rooted);
      var clean := if |collapsed| > 1 then DropFinalSlashes(collapsed) else collapsed;
      if |clean| <= 200 then Some(clean) else None
  }

  lemma {:induction false} KeepsClean(s: string)
    requires s != [] && s[0] == '/' && forall i :: 0 <= i < |s| ==> s[i] != '?' && s[i] != '#'
    ensures var c := CollapseSlashes(s);
      (forall i :: 0 <= i < |c| ==> c[i] != '?' && c[i] != '#') && (|c| > 1 ==> DropFinalSlashes(c) != [])
  {
    CollapseKeepsOut(s, '?');
    CollapseKeepsOut(s, '#');
    var c := CollapseSlashes(s);
    if |c| > 1 {
      assert c[1] != '/';
      DropKeeps(c, 1);
    }
  }

  lemma {:induction false} CollapseKeepsOut(s: string, ch: char)
    requires ch != '/' && forall i :: 0 <= i < |s| ==> s[i] != ch
    ensures forall i :: 0 <= i < |CollapseSlashes(s)| ==> CollapseSlashes(s)[i] != ch
  {
    if |s| >= 2 {
      CollapseKeepsOut(s[1..], ch);
    }
  }

  lemma {:induction false} DropKeeps(s: string, i: nat)
    requires i < |s| && s[i] != '/'
    ensures |DropFinalSlashes(s)| > i
  {
    if s[|s| - 1] == '/' {
      DropKeeps(s[..|s| - 1], i);
    }
  }

  /** A prefix that is as it should be is taken as it is. */
  lemma CleanIsKept(p: string)
    requires CleanPrefix(p) && '\r' !in p && '\n' !in p && !IsSpace(p[|p| - 1])
    ensures NormalizePathPrefix(p) == Some(p)
  {
    assert Trim(p) == p;
    CutNothing(p);
    CollapseNothing(p);
  }

  lemma {:induction false} CutNothing(s: string)
    requires forall i :: 0 <= i < |s| ==> s[i] != '?' && s[i] != '#'
    ensures CutQuery(s) == s
  {
    if s != [] { CutNothing(s[1..]); }
  }

  lemma {:induction false} CollapseNothing(s: string)
    requires forall i :: 0 <= i < |s| - 1 ==> !(s[i] == '/' && s[i + 1] == '/')
    ensures CollapseSlashes(s) == s
  {
    if |s| >= 2 {
      assert !(s[0] == '/' && s[1] == '/');
      forall i | 0 <= i < |s[1..]| - 1
        ensures !(s[1..][i] == '/' && s[1..][i + 1] == '/')
      {
        assert s[1..][i] == s[i + 1];
      }
      CollapseNothing(s[1..]);
    }
  }

  // ----- The list of rules -----

  function RuleOf(c: Candidate): Option<EndpointRule> {
    match (NormalizePathPrefix(c.pathPrefix), c.mode)
    case (Some(p), Some(m)) => Some(EndpointRule(p, m))
    case _ => None
  }

  /** The usable candidates in order, each prefix once, the first one kept. */
  function Usable(candidates: seq<Candidate>): seq<EndpointRule> {
    if candidates == [] then []
    else
      var r := Usable(candidates[..|candidates| - 1]);
      match RuleOf(candidates[|candidates| - 1])
      case None => r
      case Some(rule) => if HasPrefix(r, rule.pathPrefix) then r else r + [rule]
  }

  predicate HasPrefix(rules: seq<EndpointRule>, pathPrefix: string) {
    exists i :: 0 <= i < |rules| && rules[i].pathPrefix == pathPrefix
  }

  function NegativeLength(rule: EndpointRule): int { -|rule.pathPrefix| }

  function NormalizeEndpointRules(candidates: seq<Candidate>): seq<EndpointRule> {
    SortBy(Usable(candidates[..Min(|candidates|, MAX_ENDPOINT_RULES_PER_HOST)]), NegativeLength)
  }

  method CollectRules(candidates: seq<Candidate>) returns (rules: seq<EndpointRule>)
    ensures rules == NormalizeEndpointRules(candidates)
  {
    assert forall p :: !HasPrefix([], p);
    hide RuleOf, HasPrefix, SortBy;
    var considered := candidates[..Min(|candidates|, MAX_ENDPOINT_RULES_PER_HOST)];
    var seen: set<string> := {};
    rules := [];
    var i := 0;
    while i < |considered|
      invariant 0 <= i <= |considered|
      invariant rules == Usable(considered[..i])
      invariant forall p :: p in seen <==> HasPrefix(rules, p)
    {
      var rule := RuleOf(considered[i]);
      assert considered[..i + 1][..i] == considered[..i];
      if rule.Some? && rule.value.pathPrefix !in seen {
        HasPrefixAppend(rules, rule.value);
        seen := seen + {rule.value.pathPrefix};
        rules := rules + [rule.value];
      }
      i := i + 1;
    }
    assert considered[..|considered|] == considered;
    rules := SortBy(rules, NegativeLength);
  }

  lemma HasPrefixAppend(rules: seq<EndpointRule>, rule: EndpointRule)
    ensures forall p :: HasPrefix(rules + [rule], p) <==> HasPrefix(rules, p) || p == rule.pathPrefix
  {
    forall p
      ensures HasPrefix(rules + [rule], p) <==> HasPrefix(rules, p) || p == rule.pathPrefix
    {
      if HasPrefix(rules, p) {
        var i :| 0 <= i < |rules| && rules[i].pathPrefix == p;
        assert (rules + [rule])[i].pathPrefix == p;
      }
      assert (rules + [rule])[|rules|] == rule;
    }
  }

  // ----- Matching -----

  predicate Matches(rule: EndpointRule, path: string) {
    rule.pathPrefix == "/" || path == rule.pathPrefix || StartsWith(path, rule.pathPrefix + "/")
  }

  /** The first matching rule of the list. */
  function FindRule(rules: seq<EndpointRule>, path: string): Option<EndpointRule> {
    if rules == [] then None
    else if Matches(rules[0], path) then Some(rules[0])
    else FindRule(rules[1..], path)
  }

  /** The rule is among the given ones, matches the path, and no other that does is longer. */
  ghost predicate IsLongest(rules: seq<EndpointRule>, path: string, rule: EndpointRule) {
    rule in rules && Matches(rule, path) &&
    forall other <- rules :: Matches(other, path) ==> |other.pathPrefix| <= |rule.pathPrefix|
  }

  ghost predicate LongestFirst(rules: seq<EndpointRule>) {
    forall i, j :: 0 <= i < j < |rules| ==> |rules[i].pathPrefix| >= |rules[j].pathPrefix|
  }

  lemma {:induction false} FirstIsLongest(rules: seq<EndpointRule>, path: string)
    requires LongestFirst(rules)
    ensures match FindRule(rules, path)
      case None => forall rule <- rules :: !Matches(rule, path)
      case Some(rule) => IsLongest(rules, path, rule)
  {
    if rules != [] {
      FirstIsLongest(rules[1..], path);
      assert rules == [rules[0]] + rules[1..];
    }
  }

  lemma NormalizedLongestFirst(candidates: seq<Candidate>)
    ensures LongestFirst(NormalizeEndpointRules(candidates))
    ensures forall rule :: rule in NormalizeEndpointRules(candidates) <==>
      rule in Usable(candidates[..Min(|candidates|, MAX_ENDPOINT_RULES_PER_HOST)])
  {
    var usable := Usable(candidates[..Min(|candidates|, MAX_ENDPOINT_RULES_PER_HOST)]);
    SortIsStable(usable, NegativeLength, (x, y) => true);
    SameMembers(usable, NegativeLength);
  }

  /** Two matching rules of one length have the same prefix: both begin the path. */
  lemma MatchesOfOneLength(a: EndpointRule, b: EndpointRule, path: string)
    requires Matches(a, path) && Matches(b, path) && |a.pathPrefix| == |b.pathPrefix|
    requires CleanPrefix(a.pathPrefix) && CleanPrefix(b.pathPrefix)
    ensures a.pathPrefix == b.pathPrefix
  {
    if |a.pathPrefix| > 1 {
      BeginsPath(a, path);
      BeginsPath(b, path);
    } else {
      assert a.pathPrefix == "/" && b.pathPrefix == "/";
    }
  }

  lemma BeginsPath(a: EndpointRule, path: string)
    requires Matches(a, path) && |a.pathPrefix| > 1
    ensures |a.pathPrefix| <= |path| && path[..|a.pathPrefix|] == a.pathPrefix
  {
    if path != a.pathPrefix {
      assert (a.pathPrefix + "/")[..|a.pathPrefix|] == a.pathPrefix;
    }
  }

  /** A prefix matches at segment borders only: what follows it in the path, if anything,
      starts with a slash. */
  lemma MatchEndsAtSegment(rule: EndpointRule, path: string)
    requires CleanPrefix(rule.pathPrefix) && rule.pathPrefix != "/"
    ensures Matches(rule, path) <==>
      StartsWith(path, rule.pathPrefix) && (|path| == |rule.pathPrefix| || path[|rule.pathPrefix|] == '/')
  {
    var n := |rule.pathPrefix|;
    if StartsWith(path, rule.pathPrefix) && n < |path| && path[n] == '/' {
      assert path[..n + 1] == rule.pathPrefix + "/";
    }
    if StartsWith(path, rule.pathPrefix + "/") {
      assert (rule.pathPrefix + "/")[n] == '/';
      assert path[..n] == (rule.pathPrefix + "/")[..n] == rule.pathPrefix;
    }
  }

  // ----- Order independence -----

  /** The usable candidates of the list have different prefixes. */
  ghost predicate DistinctPrefixes(candidates: seq<Candidate>) {
    forall i, j :: 0 <= i < j < |candidates| && RuleOf(candidates[i]).Some? && RuleOf(candidates[j]).Some? ==>
      RuleOf(candidates[i]).value.pathPrefix != RuleOf(candidates[j]).value.pathPrefix
  }

  lemma {:induction false} UsableAreClean(candidates: seq<Candidate>)
    ensures forall rule <- Usable(candidates) :: CleanPrefix(rule.pathPrefix)
  {
    hide CleanPrefix;
    if candidates != [] {
      UsableAreClean(candidates[..|candidates| - 1]);
    }
  }

  lemma {:induction false} UsableComeFrom(candidates: seq<Candidate>, rule: EndpointRule) returns (k: nat)
    requires rule in Usable(candidates)
    ensures k < |candidates| && RuleOf(candidates[k]) == Some(rule)
  {
    hide RuleOf, HasPrefix;
    var n := |candidates| - 1;
    if rule in Usable(candidates[..n]) {
      k := UsableComeFrom(candidates[..n], rule);
    } else {
      k := n;
    }
  }

  lemma {:induction false} UsableKept(candidates: seq<Candidate>, k: nat)
    requires DistinctPrefixes(candidates) && k < |candidates| && RuleOf(candidates[k]).Some?
    ensures RuleOf(candidates[k]).value in Usable(candidates)
  {
    hide RuleOf;
    var n := |candidates| - 1;
    var init := candidates[..n];
    if k < n {
      assert init[k] == candidates[k];
      assert DistinctPrefixes(init);
      UsableKept(init, k);
    } else {
      var r, p := Usable(init), RuleOf(candidates[n]).value.pathPrefix;
      forall i | 0 <= i < |r|
        ensures r[i].pathPrefix != p
      {
        var j := UsableComeFrom(init, r[i]);
        assert RuleOf(candidates[j]) == Some(r[i]);
      }
    }
  }

  lemma SameUsable(a: seq<Candidate>, b: seq<Candidate>, rule: EndpointRule)
    requires DistinctPrefixes(b) && forall c <- a :: c in b
    ensures rule in Usable(a) ==> rule in Usable(b)
  {
    hide RuleOf, Usable, DistinctPrefixes;
    if rule in Usable(a) {
      var i := UsableComeFrom(a, rule);
      assert a[i] in a;
      var j :| 0 <= j < |b| && b[j] == a[i];
      UsableKept(b, j);
    }
  }

  /** Of clean rules with different prefixes at most one is the longest match. */
  lemma LongestIsUnique(rules: seq<EndpointRule>, path: string, a: EndpointRule, b: EndpointRule)
    requires IsLongest(rules, path, a) && IsLongest(rules, path, b)
    requires forall rule <- rules :: CleanPrefix(rule.pathPrefix)
    ensures a.pathPrefix == b.pathPrefix
  {
    MatchesOfOneLength(a, b, path);
  }

  lemma OnePrefixOneRule(candidates: seq<Candidate>, a: EndpointRule, b: EndpointRule)
    requires DistinctPrefixes(candidates) && a in Usable(candidates) && b in Usable(candidates)
    requires a.pathPrefix == b.pathPrefix
    ensures a == b
  {
    var i := UsableComeFrom(candidates, a);
    var j := UsableComeFrom(candidates, b);
  }

  /** The rule that applies to a path does not depend on the order of the candidates. */
  lemma OrderDoesNotMatter(a: seq<Candidate>, b: seq<Candidate>, path: string)
    requires |a| <= MAX_ENDPOINT_RULES_PER_HOST && |b| <= MAX_ENDPOINT_RULES_PER_HOST
    requires DistinctPrefixes(a) && DistinctPrefixes(b)
    requires forall c :: c in a <==> c in b
    ensures FindRule(NormalizeEndpointRules(a), path) == FindRule(NormalizeEndpointRules(b), path)
  {
    var ra, rb := NormalizeEndpointRules(a), NormalizeEndpointRules(b);
    assert a[..|a|] == a && b[..|b|] == b;
    NormalizedLongestFirst(a);
    NormalizedLongestFirst(b);
    hide NormalizeEndpointRules, Usable, LongestFirst, DistinctPrefixes;
    UsableAreClean(b);
    forall rule
      ensures rule in ra <==> rule in rb
    {
      SameUsable(a, b, rule);
      SameUsable(b, a, rule);
    }
    FirstIsLongest(ra, path);
    FirstIsLongest(rb, path);
    hide Matches, CleanPrefix;
    var fa, fb := FindRule(ra, path), FindRule(rb, path);
    if fa.Some? && fb.Some? {
      LongestIsUnique(rb, path, fa.value, fb.value);
      OnePrefixOneRule(b, fa.value, fb.value);
    }
  }
}
