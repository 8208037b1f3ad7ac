/** How traces are grouped for metrics and display: URL rules, the keys of repeated failures
    (internal/traffic/grouping.go) and of folded successes (success_folding.go). */
module TraceGroups {
  import opened Text
  import opened Traces
  import opened WildcardMatch

  /** An optional boolean of the configuration. */
  datatype Switch = Unset | Set(on: bool)

  /** A URL rule.  Success folding uses only its patterns. */
  datatype Rule = Rule(hostPattern: string, pathPattern: string, dropKeys: seq<string>, sort: Switch)

  datatype Config = Config(
    grouping: Switch, normalization: Switch, urlRules: seq<Rule>, folding: Switch, foldRules: seq<Rule>)

  /** What the code uses of a parsed URL; `path` is its escaped form, `user` the remaining parts. */
  datatype Url = Url(scheme: string, user: string, host: string, path: string, query: map<string, seq<string>>,
                     fragment: string)

  datatype ParsedUrl = Parsed(url: Url) | Malformed

  /** Go's net/url: parsing, printing with a canonically encoded query, and a host without its port. */
  datatype UrlLib = UrlLib(parse: string -> ParsedUrl, format: Url -> string, hostname: string -> string)

  /** Everything that decides how a trace is grouped. */
  datatype Grouping = Grouping(lib: UrlLib, cfg: Config)

  predicate StartsWithLetter(s: string) {
    s != "" && ('a' <= s[0] <= 'z' || 'A' <= s[0] <= 'Z')
  }

  /** The facts about net/url that matter here: a scheme starts with a letter, and a URL with a
      scheme is written with its scheme first. */
  ghost predicate Lawful(lib: UrlLib) {
    (forall s :: lib.parse(s).Parsed? && lib.parse(s).url.scheme != "" ==>
       StartsWithLetter(s) && StartsWithLetter(lib.parse(s).url.scheme)) &&
    (forall u: Url :: u.scheme != "" ==> u.scheme <= lib.format(u))
  }

  predicate SwitchedOn(switch: Switch, fallback: bool) {
    if switch.Unset? then fallback else switch.on
  }

  // ----- rules -----

  /** urlRuleMatches */
  ghost predicate RuleFits(lib: UrlLib, rule: Rule, u: Url) {
    HostFits(Lower(lib.hostname(u.host)), rule.hostPattern) && PathFits(u.path, rule.pathPattern)
  }

  method RuleMatches(lib: UrlLib, rule: Rule, u: Url) returns (matched: bool)
    ensures matched <==> RuleFits(lib, rule, u)
  {
    matched := MatchHost(Lower(lib.hostname(u.host)), rule.hostPattern);
    if matched {
      matched := MatchPath(u.path, rule.pathPattern);
    }
  }

  function NonEmpty(value: string, fallback: string): string {
    if TrimSpace(value) == "" then fallback else value
  }

  function TargetArea(t: Trace): string {
    if t.egressGroup != "" then t.egressGroup
    else if t.region != "" then
      if t.residential && Index(t.region, "-RES") < 0 then t.region + "-RES" else t.region
    else "DIRECT"
  }

  /** Both kinds of key: kind, target and area, joined by NUL characters. */
  function KeyOf(t: Trace, target: string): string {
    NonEmpty(t.kind, "proxy") + "\0" + target + "\0" + TargetArea(t)
  }

  // ----- folded successes -----

  ghost predicate Folds(g: Grouping, t: Trace) {
    var parsed := g.lib.parse(TrimSpace(t.url));
    SwitchedOn(g.cfg.folding, g.cfg.foldRules != []) && t.status == 200 && t.error == "" &&
    parsed.Parsed? && parsed.url.host != "" &&
    exists i :: 0 <= i < |g.cfg.foldRules| && RuleFits(g.lib, g.cfg.foldRules[i], parsed.url)
  }

  function FoldTarget(u: Url): string {
    "//" + Lower(u.host) + (if u.path == "" then "/" else u.path)
  }

  function FoldKey(g: Grouping, t: Trace): string
    requires g.lib.parse(TrimSpace(t.url)).Parsed?
  {
    KeyOf(t, FoldTarget(g.lib.parse(TrimSpace(t.url)).url))
  }

  method SuccessFoldGroup(g: Grouping, t: Trace) returns (key: string, target: string, folded: bool)
    ensures folded <==> Folds(g, t)
    ensures folded ==> target == FoldTarget(g.lib.parse(TrimSpace(t.url)).url) && key == FoldKey(g, t)
  {
    key, target, folded := "", "", false;
    if !SwitchedOn(g.cfg.folding, g.cfg.foldRules != []) || t.status != 200 || t.error != "" {
      return;
    }
    var parsed := g.lib.parse(TrimSpace(t.url));
    if parsed.Malformed? || parsed.url.host == "" {
      return;
    }
    for i := 0 to |g.cfg.foldRules|
      invariant !folded && forall j :: 0 <= j < i ==> !RuleFits(g.lib, g.cfg.foldRules[j], parsed.url)
    {
      folded := RuleMatches(g.lib, g.cfg.foldRules[i], parsed.url);
      if folded {
        break;
      }
    }
    if !folded {
      return;
    }
    target := FoldTarget(parsed.url);
    key := KeyOf(t, target);
  }

  // ----- repeated failures -----

  /** The query keys that the matching rules drop. */
  ghost function DroppedBy(lib: UrlLib, rules: seq<Rule>, u: Url): set<string> {
    if rules == [] then {}
    else
      var last := rules[|rules| - 1];
      DroppedBy(lib, rules[..|rules| - 1], u) + (if RuleFits(lib, last, u) then set k | k in last.dropKeys else {})
  }

  /** Some matching rule sorts the query. */
  ghost predicate SortedBy(lib: UrlLib, rules: seq<Rule>, u: Url) {
    rules != [] &&
    var last := rules[|rules| - 1];
    SortedBy(lib, rules[..|rules| - 1], u) || (RuleFits(lib, last, u) && SwitchedOn(last.sort, true))
  }

  /** The URL without fragment and dropped query keys, its host in lower case. */
  function Cleaned(u: Url, dropped: set<string>): Url {
    u.(host := Lower(u.host), fragment := "", query := u.query - dropped)
  }

  /** normalizeFailureURL */
  ghost function NormalizedUrl(g: Grouping, raw: string): string {
    if !SwitchedOn(g.cfg.normalization, g.cfg.urlRules != []) then raw
    else
      match g.lib.parse(raw)
      case Malformed => raw
      case Parsed(u) =>
        var dropped := DroppedBy(g.lib, g.cfg.urlRules, u);
        if u.host == "" || dropped == {} then raw
        else if u.query.Keys !! dropped && !SortedBy(g.lib, g.cfg.urlRules, u) then raw
        else g.lib.format(Cleaned(u, dropped))
  }

  lemma RulesStep(lib: UrlLib, rules: seq<Rule>, u: Url, i: nat)
    requires i < |rules|
    ensures DroppedBy(lib, rules[..i + 1], u)
         == DroppedBy(lib, rules[..i], u) + (if RuleFits(lib, rules[i], u) then set k | k in rules[i].dropKeys else {})
    ensures SortedBy(lib, rules[..i + 1], u)
       <==> SortedBy(lib, rules[..i], u) || (RuleFits(lib, rules[i], u) && SwitchedOn(rules[i].sort, true))
  {
    assert rules[..i + 1][..i] == rules[..i];
  }

  /** The loop over the rules: the keys to drop and whether to sort. */
  method CollectDropKeys(lib: UrlLib, rules: seq<Rule>, u: Url) returns (dropped: set<string>, sorts: bool)
    ensures dropped == DroppedBy(lib, rules, u)
    ensures sorts <==> SortedBy(lib, rules, u)
  {
    dropped, sorts := {}, false;
    for i := 0 to |rules|
      invariant dropped == DroppedBy(lib, rules[..i], u)
      invariant sorts <==> SortedBy(lib, rules[..i], u)
    {
      RulesStep(lib, rules, u, i);
      var matched := RuleMatches(lib, rules[i], u);
      if !matched {
        continue;
      }
      dropped := dropped + set k | k in rules[i].dropKeys;
      if SwitchedOn(rules[i].sort, true) {
        sorts := true;
      }
    }
    assert rules[..|rules|] == rules;
  }

  method DropFrom(query: map<string, seq<string>>, dropped: set<string>)
    returns (left: map<string, seq<string>>, changed: bool)
    ensures left == query - dropped
    ensures changed <==> !(query.Keys !! dropped)
  {
    left, changed := query, false;
    var keys := query.Keys;
    while keys != {}
      invariant keys <= query.Keys
      invariant left == query - ((query.Keys - keys) * dropped)
      invariant changed <==> !((query.Keys - keys) !! dropped)
      decreases keys
    {
      var key :| key in keys;
      ghost var seen := query.Keys - keys;
      keys := keys - {key};
      assert query.Keys - keys == seen + {key};
      if key in dropped {
        left := left - {key};
        changed := true;
      }
    }
    assert query - (query.Keys * dropped) == query - dropped;
  }

  method NormalizeFailureURL(g: Grouping, raw: string) returns (target: string)
    ensures target == NormalizedUrl(g, raw)
  {
    if !SwitchedOn(g.cfg.normalization, g.cfg.urlRules != []) {
      return raw;
    }
    var parsed := g.lib.parse(raw);
    if parsed.Malformed? || parsed.url.host == "" {
      return raw;
    }
    var dropped, sorts := CollectDropKeys(g.lib, g.cfg.urlRules, parsed.url);
    if dropped == {} {
      return raw;
    }
    var query, changed := DropFrom(parsed.url.query, dropped);
    if !changed && !sorts {
      return raw;
    }
    var normalized := parsed.url.(host := Lower(parsed.url.host), fragment := "", query := query);
    return g.lib.format(normalized);
  }

  /** failureGroupTarget */
  ghost function FailureTarget(g: Grouping, t: Trace): string {
    if TrimSpace(t.url) != "" then NormalizedUrl(g, TrimSpace(t.url)) else TrimSpace(t.target)
  }

  /** failureGroupKey */
  ghost function FailureKey(g: Grouping, t: Trace): string {
    if !SwitchedOn(g.cfg.grouping, true) || FailureTarget(g, t) == "" then ""
    else KeyOf(t, FailureTarget(g, t))
  }

  method FailureGroupTarget(g: Grouping, t: Trace) returns (target: string)
    ensures target == FailureTarget(g, t)
  {
    target := TrimSpace(t.url);
    if target != "" {
      target := NormalizeFailureURL(g, target);
    } else {
      target := TrimSpace(t.target);
    }
  }

  method FailureGroupKey(g: Grouping, t: Trace) returns (key: string)
    ensures key == FailureKey(g, t)
  {
    if !SwitchedOn(g.cfg.grouping, true) {
      return "";
    }
    var target := FailureGroupTarget(g, t);
    if target == "" {
      return "";
    }
    return KeyOf(t, target);
  }

  /** Two URLs that differ only in dropped query keys and in their fragments are the same target,
      provided the rules sort the query or drop something from both. */
  lemma DroppedKeysDoNotMatter(g: Grouping, a: string, b: string)
    requires SwitchedOn(g.cfg.normalization, g.cfg.urlRules != [])
    requires g.lib.parse(a).Parsed? && g.lib.parse(b).Parsed?
    requires var u, v := g.lib.parse(a).url, g.lib.parse(b).url;
             var dropped := DroppedBy(g.lib, g.cfg.urlRules, u);
             u.host != "" && dropped != {} && v == u.(query := v.query, fragment := v.fragment) &&
             v.query - dropped == u.query - dropped &&
             (SortedBy(g.lib, g.cfg.urlRules, u) || !(u.query.Keys !! dropped || v.query.Keys !! dropped))
    ensures NormalizedUrl(g, a) == NormalizedUrl(g, b)
  {
    var u, v := g.lib.parse(a).url, g.lib.parse(b).url;
    SameRules(g.lib, g.cfg.urlRules, u, v);
    assert Cleaned(v, DroppedBy(g.lib, g.cfg.urlRules, u)) == Cleaned(u, DroppedBy(g.lib, g.cfg.urlRules, u));
  }

  lemma {:induction false} SameRules(lib: UrlLib, rules: seq<Rule>, u: Url, v: Url)
    requires u.host == v.host && u.path == v.path
    ensures DroppedBy(lib, rules, u) == DroppedBy(lib, rules, v)
    ensures SortedBy(lib, rules, u) <==> SortedBy(lib, rules, v)
  {
    if rules != [] {
      SameRules(lib, rules[..|rules| - 1], u, v);
      assert RuleFits(lib, rules[|rules| - 1], u) <==> RuleFits(lib, rules[|rules| - 1], v);
    }
  }

  // ----- the two kinds of key -----

  lemma FoldKeyIsNotEmpty(t: Trace, target: string)
    ensures KeyOf(t, target) != ""
  {
    assert |KeyOf(t, target)| >= 2;
  }

  lemma LongerKind(k: string, a: string, l: string, b: string)
    requires '\0' !in l && |k| < |l|
    ensures k + "\0" + a != l + "\0" + b
  {
    assert (k + "\0" + a)[|k|] == '\0' && (l + "\0" + b)[|k|] == l[|k|];
  }

  /** Before the first NUL, two keys have the same kind. */
  lemma SameKind(k: string, a: string, l: string, b: string)
    requires '\0' !in k && '\0' !in l && k + "\0" + a == l + "\0" + b
    ensures k == l && a == b
  {
    if |k| < |l| { LongerKind(k, a, l, b); }
    if |l| < |k| { LongerKind(l, b, k, a); }
    var s, t := k + "\0" + a, l + "\0" + b;
    assert k == s[..|k|] && l == t[..|l|] && a == s[|k| + 1..] && b == t[|l| + 1..];
  }

  /** A trace whose target, should it fail, cannot be mistaken for a folded one. */
  ghost predicate Distinguishable(g: Grouping, t: Trace) {
    !("//" <= FailureTarget(g, t)) && '\0' !in NonEmpty(t.kind, "proxy")
  }

  lemma SlashesDiffer(x: string, y: string, xs: string, ys: string)
    requires "//" <= x && y != "" && !("//" <= y)
    ensures x + "\0" + xs != y + "\0" + ys
  {
    var s, t := x + "\0" + xs, y + "\0" + ys;
    assert s[0] == '/' && s[1] == '/';
    if |y| == 1 {
      assert t[1] == '\0';
    } else {
      assert t[0] == y[0] && t[1] == y[1];
      assert y[0] != '/' || y[1] != '/' by {
        assert y[..2] == [y[0], y[1]];
      }
    }
  }

  /** Keys of folded successes and of failures share one index of display rows.  They differ as long
      as kinds hold no NUL and the failing target does not start with two slashes. */
  lemma KeysAreDisjoint(g: Grouping, folded: Trace, failed: Trace)
    requires Folds(g, folded) && Distinguishable(g, failed)
    requires '\0' !in NonEmpty(folded.kind, "proxy") && FailureKey(g, failed) != ""
    ensures FoldKey(g, folded) != FailureKey(g, failed)
  {
    var k, l := NonEmpty(folded.kind, "proxy"), NonEmpty(failed.kind, "proxy");
    var x, y := FoldTarget(g.lib.parse(TrimSpace(folded.url)).url), FailureTarget(g, failed);
    DifferentKeys(k, x, TargetArea(folded), l, y, TargetArea(failed));
  }

  lemma DifferentKeys(k: string, x: string, xs: string, l: string, y: string, ys: string)
    requires '\0' !in k && '\0' !in l && "//" <= x && y != "" && !("//" <= y)
    ensures k + "\0" + x + "\0" + xs != l + "\0" + y + "\0" + ys
  {
    var a, b := x + "\0" + xs, y + "\0" + ys;
    SlashesDiffer(x, y, xs, ys);
    assert k + "\0" + x + "\0" + xs == k + "\0" + a;
    assert l + "\0" + y + "\0" + ys == l + "\0" + b;
    if k + "\0" + a == l + "\0" + b {
      SameKind(k, a, l, b);
    }
  }

  /** A URL with a scheme never yields such a target. */
  lemma SchemesDistinguish(g: Grouping, t: Trace)
    requires Lawful(g.lib) && '\0' !in NonEmpty(t.kind, "proxy")
    requires var parsed := g.lib.parse(TrimSpace(t.url));
             TrimSpace(t.url) != "" && parsed.Parsed? && parsed.url.scheme != ""
    ensures Distinguishable(g, t)
  {
    var raw := TrimSpace(t.url);
    var u := g.lib.parse(raw).url;
    var cleaned := Cleaned(u, DroppedBy(g.lib, g.cfg.urlRules, u));
    assert StartsWithLetter(raw) && StartsWithLetter(u.scheme);
    assert cleaned.scheme <= g.lib.format(cleaned);
    assert StartsWithLetter(FailureTarget(g, t));
  }
}
