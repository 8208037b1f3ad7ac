/** The three reductions in terms of the traces' own fields (internal/traffic/store.go): which traces are
    counted as what, which share a display row and what a bucket holds. */
module TraceMeaning {
  import opened Text
  import opened Traces
  import opened TraceLog
  import opened WildcardMatch
  import opened TraceGroups
  import opened TraceReductions
  import opened TraceDisplay
  import opened TraceSeries
  import opened Ordering
  import E = Egress

  /** The request got an answer, and one that reports no error. */
  predicate Succeeded(t: Trace) {
    t.status != 0 && t.status < 400 && t.error == ""
  }

  // ----- what is folded, and what is grouped -----

  /** A success is folded exactly if folding is on (unset means that there are rules), its status is 200, its
      URL has a host, and host and path fit some rule. */
  lemma FoldedIff(g: Grouping, t: Trace)
    ensures var parsed := g.lib.parse(TrimSpace(t.url));
            Folds(g, t) <==>
              (match g.cfg.folding case Unset => |g.cfg.foldRules| > 0 case Set(on) => on) &&
              t.status == 200 && |t.error| == 0 && parsed.Parsed? && |parsed.url.host| > 0 &&
              exists rule :: rule in g.cfg.foldRules &&
                HostFits(Lower(g.lib.hostname(parsed.url.host)), rule.hostPattern) &&
                PathFits(parsed.url.path, rule.pathPattern)
    ensures Folds(g, t) ==> Succeeded(t)
  {
    var parsed := g.lib.parse(TrimSpace(t.url));
    if parsed.Parsed? {
      forall i | 0 <= i < |g.cfg.foldRules|
        ensures RuleFits(g.lib, g.cfg.foldRules[i], parsed.url) ==> g.cfg.foldRules[i] in g.cfg.foldRules
      {
      }
      RuleAt(g, parsed.url);
    }
  }

  lemma RuleAt(g: Grouping, u: Url)
    ensures (exists i :: 0 <= i < |g.cfg.foldRules| && RuleFits(g.lib, g.cfg.foldRules[i], u)) <==>
            exists rule :: rule in g.cfg.foldRules &&
              HostFits(Lower(g.lib.hostname(u.host)), rule.hostPattern) && PathFits(u.path, rule.pathPattern)
  {
    forall rule: Rule | rule in g.cfg.foldRules
      ensures exists i :: 0 <= i < |g.cfg.foldRules| && g.cfg.foldRules[i] == rule
    {
    }
  }

  /** Two folded successes have the same target exactly if their hosts agree but for letter case and their
      paths agree, where no path is the path "/". */
  lemma SameFoldTargetIff(u: Url, v: Url)
    requires '/' !in u.host && '/' !in v.host
    requires (u.path != "" ==> u.path[0] == '/') && (v.path != "" ==> v.path[0] == '/')
    ensures FoldTarget(u) == FoldTarget(v) <==>
            Lower(u.host) == Lower(v.host) &&
            (u.path == v.path || (u.path in {"", "/"} && v.path in {"", "/"}))
  {
    var p, q := (if u.path == "" then "/" else u.path), (if v.path == "" then "/" else v.path);
    var a, b := Lower(u.host), Lower(v.host);
    NoSlash(u.host);
    NoSlash(v.host);
    assert FoldTarget(u) == "//" + (a + p) && FoldTarget(v) == "//" + (b + q);
    if FoldTarget(u) == FoldTarget(v) {
      assert FoldTarget(u)[2..] == a + p && FoldTarget(v)[2..] == b + q;
      HostEnds(a, p, b, q);
    }
  }

  lemma NoSlash(host: string)
    requires '/' !in host
    ensures '/' !in Lower(host)
  {
    forall i | 0 <= i < |host|
      ensures Lower(host)[i] != '/'
    {
      assert host[i] in host;
    }
  }

  /** A host ends where the path begins. */
  lemma HostEnds(a: string, p: string, b: string, q: string)
    requires '/' !in a && '/' !in b && p != "" && q != "" && p[0] == '/' && q[0] == '/' && a + p == b + q
    ensures a == b && p == q
  {
    FirstSlash(a, p);
    FirstSlash(b, q);
    assert |a| == |b|;
    assert a == (a + p)[..|a|] && b == (b + q)[..|b|] && p == (a + p)[|a|..] && q == (b + q)[|b|..];
  }

  lemma FirstSlash(a: string, p: string)
    requires '/' !in a && p != "" && p[0] == '/'
    ensures |a| < |a + p| && (a + p)[|a|] == '/' && forall i :: 0 <= i < |a| ==> (a + p)[i] != '/'
  {
    forall i | 0 <= i < |a|
      ensures (a + p)[i] != '/'
    {
      assert (a + p)[i] == a[i] && a[i] in a;
    }
  }

  /** Where a trace went: the egress group of its route, if it is known; else the group that selection uses
      for its region and class, where a region may already name the residential group. */
  lemma AreaIsGroup(t: Trace)
    ensures t.egressGroup != "" ==> TargetArea(t) == t.egressGroup
    ensures t.egressGroup == "" && Index(t.region, "-RES") < 0 ==> TargetArea(t) == E.GroupOf(t.region, t.residential)
    ensures t.egressGroup == "" && Index(t.region, "-RES") >= 0 ==> TargetArea(t) == t.region
  {
  }

  function KindName(t: Trace): string {
    if |TrimSpace(t.kind)| > 0 then t.kind else "proxy"
  }

  /** Two traces have the same key exactly if they agree in kind, target and area, as long as kinds and
      targets hold no NUL. */
  lemma SameKeyIff(t: Trace, a: string, u: Trace, b: string)
    requires '\0' !in KindName(t) && '\0' !in KindName(u) && '\0' !in a && '\0' !in b
    ensures KeyOf(t, a) == KeyOf(u, b) <==> KindName(t) == KindName(u) && a == b && TargetArea(t) == TargetArea(u)
  {
    var x, y := a + "\0" + TargetArea(t), b + "\0" + TargetArea(u);
    assert KeyOf(t, a) == KindName(t) + "\0" + x && KeyOf(u, b) == KindName(u) + "\0" + y;
    if KeyOf(t, a) == KeyOf(u, b) {
      SameKind(KindName(t), x, KindName(u), y);
      SameKind(a, TargetArea(t), b, TargetArea(u));
    }
  }

  /** A failure stands alone if grouping is off or it has neither URL nor target; otherwise its key is that
      of its URL, normalised, or of its target. */
  lemma FailureKeyIs(g: Grouping, t: Trace)
    ensures FailureKey(g, t) == "" <==> g.cfg.grouping == Set(false) || |FailureTarget(g, t)| == 0
    ensures FailureKey(g, t) != "" ==> FailureKey(g, t) == KeyOf(t, FailureTarget(g, t))
    ensures |TrimSpace(t.url)| == 0 ==> FailureTarget(g, t) == TrimSpace(t.target)
    ensures |TrimSpace(t.url)| > 0 ==> FailureTarget(g, t) == NormalizedUrl(g, TrimSpace(t.url))
  {
    FoldKeyIsNotEmpty(t, FailureTarget(g, t));
  }

  /** The rules that match a URL. */
  ghost predicate Matches(g: Grouping, rule: Rule, u: Url) {
    rule in g.cfg.urlRules && HostFits(Lower(g.lib.hostname(u.host)), rule.hostPattern) &&
    PathFits(u.path, rule.pathPattern)
  }

  ghost predicate Drops(g: Grouping, u: Url, key: string) {
    exists rule :: Matches(g, rule, u) && key in rule.dropKeys
  }

  ghost predicate Sorts(g: Grouping, u: Url) {
    exists rule :: Matches(g, rule, u) && rule.sort != Set(false)
  }

  ghost predicate SomeDrops(lib: UrlLib, rules: seq<Rule>, u: Url, key: string) {
    exists rule :: rule in rules && RuleFits(lib, rule, u) && key in rule.dropKeys
  }

  ghost predicate SomeSorts(lib: UrlLib, rules: seq<Rule>, u: Url) {
    exists rule :: rule in rules && RuleFits(lib, rule, u) && rule.sort != Set(false)
  }

  lemma SomeSnoc(lib: UrlLib, rules: seq<Rule>, last: Rule, u: Url, key: string)
    ensures SomeDrops(lib, rules + [last], u, key) <==>
            SomeDrops(lib, rules, u, key) || (RuleFits(lib, last, u) && key in last.dropKeys)
    ensures SomeSorts(lib, rules + [last], u) <==>
            SomeSorts(lib, rules, u) || (RuleFits(lib, last, u) && last.sort != Set(false))
  {
    assert forall rule :: rule in rules + [last] <==> rule in rules || rule == last;
  }

  lemma {:induction false} DroppedByIs(lib: UrlLib, rules: seq<Rule>, u: Url, key: string)
    ensures RulesDo(lib, rules, u, key)
  {
    if rules != [] {
      DroppedByIs(lib, rules[..|rules| - 1], u, key);
      DroppedStep(lib, rules[..|rules| - 1], rules[|rules| - 1], u, key);
      LastRule(rules);
    }
  }

  ghost predicate RulesDo(lib: UrlLib, rules: seq<Rule>, u: Url, key: string) {
    (key in DroppedBy(lib, rules, u) <==> SomeDrops(lib, rules, u, key)) &&
    (SortedBy(lib, rules, u) <==> SomeSorts(lib, rules, u))
  }

  lemma LastRule(rules: seq<Rule>)
    requires rules != []
    ensures rules == rules[..|rules| - 1] + [rules[|rules| - 1]]
  {
  }

  lemma DroppedStep(lib: UrlLib, rules: seq<Rule>, last: Rule, u: Url, key: string)
    requires RulesDo(lib, rules, u, key)
    ensures RulesDo(lib, rules + [last], u, key)
  {
    SomeSnoc(lib, rules, last, u, key);
    assert (rules + [last])[..|rules|] == rules;
  }

  /** A URL is rewritten exactly if normalization is on (unset means that there are rules), it has a host, a
      matching rule drops some key, and either its query has such a key or a matching rule sorts. */
  ghost predicate Rewrites(g: Grouping, raw: string) {
    (match g.cfg.normalization case Unset => |g.cfg.urlRules| > 0 case Set(on) => on) &&
    g.lib.parse(raw).Parsed? &&
    var u := g.lib.parse(raw).url;
    |u.host| > 0 && (exists key :: Drops(g, u, key)) &&
    (Sorts(g, u) || exists key :: key in u.query && Drops(g, u, key))
  }

  /** It then loses its fragment and those keys, and its host is in lower case. */
  lemma NormalizedIs(g: Grouping, raw: string)
    ensures !Rewrites(g, raw) ==> NormalizedUrl(g, raw) == raw
    ensures Rewrites(g, raw) ==>
              var u := g.lib.parse(raw).url;
              exists v: Url :: NormalizedUrl(g, raw) == g.lib.format(v) &&
                v.fragment == "" && v.host == Lower(u.host) &&
                v.scheme == u.scheme && v.user == u.user && v.path == u.path &&
                (forall key :: key in v.query <==> key in u.query && !Drops(g, u, key)) &&
                forall key :: key in v.query ==> v.query[key] == u.query[key]
  {
    if g.lib.parse(raw).Parsed? {
      var u := g.lib.parse(raw).url;
      var dropped := DroppedBy(g.lib, g.cfg.urlRules, u);
      forall key: string
        ensures key in dropped <==> Drops(g, u, key)
        ensures SortedBy(g.lib, g.cfg.urlRules, u) <==> Sorts(g, u)
      {
        DropsIs(g, u, key);
      }
      if Rewrites(g, raw) {
        var v := Cleaned(u, dropped);
        assert NormalizedUrl(g, raw) == g.lib.format(v);
      }
    }
  }

  lemma DropsIs(g: Grouping, u: Url, key: string)
    ensures key in DroppedBy(g.lib, g.cfg.urlRules, u) <==> Drops(g, u, key)
    ensures SortedBy(g.lib, g.cfg.urlRules, u) <==> Sorts(g, u)
  {
    DroppedByIs(g.lib, g.cfg.urlRules, u, key);
    forall rule: Rule
      ensures rule in g.cfg.urlRules && RuleFits(g.lib, rule, u) <==> Matches(g, rule, u)
    {
    }
  }

  // ----- the metrics -----

  /** How many traces succeeded. */
  function Successes(L: Log): nat {
    if L == [] then 0 else Successes(L[..|L| - 1]) + (if Succeeded(L[|L| - 1]) then 1 else 0)
  }

  /** Failures that no key groups. */
  ghost function Ungrouped(g: Grouping, L: Log): nat {
    if L == [] then 0
    else
      var t := L[|L| - 1];
      Ungrouped(g, L[..|L| - 1]) + (if !Succeeded(t) && FailureKey(g, t) == "" then 1 else 0)
  }

  /** The different keys of failures. */
  ghost function KeysOfFailures(g: Grouping, L: Log): set<string> {
    set t | t in L && !Succeeded(t) && FailureKey(g, t) != "" :: FailureKey(g, t)
  }

  lemma EventIs(g: Grouping, t: Trace)
    ensures EventOf(g, t).Folded? <==> Folds(g, t)
    ensures EventOf(g, t).Success? <==> Succeeded(t) && !Folds(g, t)
    ensures EventOf(g, t).LoneFailure? <==> !Succeeded(t) && FailureKey(g, t) == ""
    ensures EventOf(g, t).Repeated? <==> !Succeeded(t) && FailureKey(g, t) != ""
    ensures EventOf(g, t).Repeated? ==> EventOf(g, t).key == FailureKey(g, t)
  {
    FoldedIff(g, t);
  }

  lemma {:induction false} CountsAre(g: Grouping, L: Log)
    ensures Count(g, L, AFold) + Count(g, L, ASuccess) == Successes(L)
    ensures Count(g, L, ALoneFailure) == Ungrouped(g, L)
  {
    if L != [] {
      CountsAre(g, L[..|L| - 1]);
      EventIs(g, L[|L| - 1]);
    }
  }

  lemma {:induction false} FailureKeysAre(g: Grouping, L: Log)
    ensures FailureKeys(g, L) == KeysOfFailures(g, L)
  {
    if L != [] {
      var front, t := L[..|L| - 1], L[|L| - 1];
      FailureKeysAre(g, front);
      EventIs(g, t);
      assert L == front + [t];
      assert forall u :: u in L <==> u in front || u == t;
    }
  }

  /** The traces whose bytes and latencies count. */
  ghost function Unfolded(g: Grouping, L: Log): Log {
    if L == [] then []
    else Unfolded(g, L[..|L| - 1]) + (if Folds(g, L[|L| - 1]) then [] else [L[|L| - 1]])
  }

  function SentBytes(L: Log): int {
    if L == [] then 0 else SentBytes(L[..|L| - 1]) + L[|L| - 1].requestBytes
  }

  function ReceivedBytes(L: Log): int {
    if L == [] then 0 else ReceivedBytes(L[..|L| - 1]) + L[|L| - 1].responseBytes
  }

  lemma BytesOfSnoc(L: Log, t: Trace)
    ensures SentBytes(L + [t]) == SentBytes(L) + t.requestBytes
    ensures ReceivedBytes(L + [t]) == ReceivedBytes(L) + t.responseBytes
  {
    assert (L + [t])[..|L|] == L;
  }

  ghost predicate SameBytes(g: Grouping, L: Log) {
    Bytes(g, L, true) == SentBytes(Unfolded(g, L)) && Bytes(g, L, false) == ReceivedBytes(Unfolded(g, L))
  }

  lemma {:induction false} BytesAre(g: Grouping, L: Log)
    ensures SameBytes(g, L)
  {
    if L == [] {
      NoBytes(g);
    } else {
      BytesAre(g, L[..|L| - 1]);
      FrontAndLast(L);
      NextBytes(g, L[..|L| - 1], L[|L| - 1]);
    }
  }

  lemma NoBytes(g: Grouping)
    ensures SameBytes(g, [])
  {
  }

  lemma NextBytes(g: Grouping, L: Log, t: Trace)
    requires SameBytes(g, L)
    ensures SameBytes(g, L + [t])
  {
    BytesSnoc(g, L, t);
    EventIs(g, t);
    UnfoldedSnoc(g, L, t);
    BytesOfSnoc(Unfolded(g, L), t);
  }

  lemma UnfoldedSnoc(g: Grouping, L: Log, t: Trace)
    ensures Unfolded(g, L + [t]) == if Folds(g, t) then Unfolded(g, L) else Unfolded(g, L) + [t]
  {
    assert (L + [t])[..|L|] == L;
  }

  /** What the metrics say: successes, folded or not, are the traces with an answer that reports no error;
      all others are failures; of these, the ungrouped ones count singly and the grouped ones once per
      key; folded traces add no bytes. */
  lemma MetricsMean(g: Grouping, L: Log, m: Metrics)
    requires Measures(g, L, m)
    ensures m.success + m.ignoredSuccess == Successes(L) && m.rawFailures == |L| - Successes(L)
    ensures m.failures == Ungrouped(g, L) + |KeysOfFailures(g, L)| && m.requests == m.success + m.failures
    ensures m.ignoredSuccess == |L| - |Unfolded(g, L)| && m.rawRequests == |L|
    ensures m.requestBytes == SentBytes(Unfolded(g, L)) && m.responseBytes == ReceivedBytes(Unfolded(g, L))
  {
    KindsPartition(g, L);
    CountsAre(g, L);
    FailureKeysAre(g, L);
    BytesAre(g, L);
    UnfoldedCount(g, L);
  }

  lemma {:induction false} UnfoldedCount(g: Grouping, L: Log)
    ensures |Unfolded(g, L)| + Count(g, L, AFold) == |L|
  {
    if L != [] {
      UnfoldedCount(g, L[..|L| - 1]);
      EventIs(g, L[|L| - 1]);
    }
  }

  /** The positive latencies of successes that are not folded. */
  ghost function CountedLatencies(g: Grouping, L: Log): seq<int> {
    if L == [] then []
    else
      var t := L[|L| - 1];
      CountedLatencies(g, L[..|L| - 1]) +
      (if Succeeded(t) && !Folds(g, t) && t.latencyMS > 0 then [t.latencyMS] else [])
  }

  lemma {:induction false} LatenciesAre(g: Grouping, L: Log)
    ensures Latencies(g, L) == CountedLatencies(g, L)
    ensures forall x :: x in Latencies(g, L) ==> x > 0
  {
    if L != [] {
      LatenciesAre(g, L[..|L| - 1]);
      EventIs(g, L[|L| - 1]);
    }
  }

  /** The sum, from the front. */
  function Sum(xs: seq<int>): int {
    if xs == [] then 0 else xs[0] + Sum(xs[1..])
  }

  lemma {:induction false} SumSnoc(xs: seq<int>, x: int)
    ensures Sum(xs + [x]) == Sum(xs) + x
  {
    if xs == [] {
      assert [] + [x] == [x] && [x][1..] == [];
    } else {
      SumSnoc(xs[1..], x);
      assert (xs + [x])[1..] == xs[1..] + [x];
    }
  }

  lemma {:induction false} TotalIsSum(xs: seq<int>)
    ensures Total(xs) == Sum(xs)
  {
    if xs != [] {
      TotalIsSum(xs[..|xs| - 1]);
      SumSnoc(xs[..|xs| - 1], xs[|xs| - 1]);
      assert xs == xs[..|xs| - 1] + [xs[|xs| - 1]];
    }
  }

  /** An average is the whole part of sum by count, and 0 of nothing. */
  lemma AverageIs(xs: seq<int>)
    ensures xs == [] ==> Average(xs) == 0
    ensures xs != [] ==> |xs| * Average(xs) <= Sum(xs) < |xs| * Average(xs) + |xs|
  {
    TotalIsSum(xs);
  }

  // ----- the display -----

  lemma {:induction false} MembersHave(g: Grouping, L: Log, key: string, t: Trace)
    ensures t in Members(g, L, key) <==> t in L && GroupKey(g, t) == key
  {
    if L != [] {
      MembersHave(g, L[..|L| - 1], key, t);
      assert L == L[..|L| - 1] + [L[|L| - 1]];
    }
  }

  /** Row `r` stands for trace `t`. */
  predicate Shows(r: Row, t: Trace) {
    if r.groupCount > 1 then t in r.children else t == r.trace
  }

  lemma KeyIs(g: Grouping, t: Trace)
    ensures !Succeeded(t) ==> GroupKey(g, t) == FailureKey(g, t)
    ensures Succeeded(t) && !Folds(g, t) ==> GroupKey(g, t) == ""
    ensures Folds(g, t) ==> GroupKey(g, t) == FoldKey(g, t) != ""
  {
    EventIs(g, t);
    KeyedExactly(g, t);
  }

  /** Rows that stand for several traces: all have the row's key, so a success among them is folded.  Every
      row shows the target of its newest trace, and is left out of the metrics exactly if that one is
      folded. */
  lemma SharedRowsAre(g: Grouping, L: Log, i: nat, t: Trace)
    requires i < |Display(g, L)| && Shows(Display(g, L)[i], t)
    ensures Display(g, L)[i].groupCount > 1 ==> t in L && (Folds(g, t) || !Succeeded(t))
    ensures Display(g, L)[i].groupCount > 1 ==>
              Display(g, L)[i].groupKey == (if Folds(g, t) then FoldKey(g, t) else FailureKey(g, t)) != ""
    ensures Display(g, L)[i].excluded <==> Folds(g, Display(g, L)[i].trace)
    ensures var r := Display(g, L)[i];
            r.groupTarget == if Folds(g, r.trace) then FoldTarget(g.lib.parse(TrimSpace(r.trace.url)).url)
                             else if Succeeded(r.trace) || r.groupKey == "" then ""
                             else FailureTarget(g, r.trace)
  {
    var r := Display(g, L)[i];
    DisplayIs(g, L);
    MembersHave(g, L, r.groupKey, t);
    KeyIs(g, t);
    KeyIs(g, r.trace);
    EventIs(g, r.trace);
  }

  /** Every trace is shown, and all failures with one key by the same row. */
  lemma FailuresShareARow(g: Grouping, L: Log, key: string) returns (i: nat)
    requires key != "" && exists t :: t in L && !Succeeded(t) && FailureKey(g, t) == key
    ensures i < |Display(g, L)| && Display(g, L)[i].groupKey == key
    ensures forall t :: t in L && !Succeeded(t) && FailureKey(g, t) == key ==> Shows(Display(g, L)[i], t)
  {
    var rows := Display(g, L);
    DisplayIs(g, L);
    forall t: Trace
      ensures t in Members(g, L, key) <==> t in L && GroupKey(g, t) == key
      ensures !Succeeded(t) ==> GroupKey(g, t) == FailureKey(g, t)
    {
      MembersHave(g, L, key, t);
      KeyIs(g, t);
    }
    assert Members(g, L, key) != [];
    i := Find(rows, key);
    assert ShownRowIs(g, L, rows[i]);
  }

  // ----- the series -----

  /** The trace belongs to the minute that starts at `minute`. */
  predicate InMinute(t: Trace, minute: int) {
    minute <= t.timestamp < minute + 60_000_000_000
  }

  lemma MinuteIs(t: int, minute: int)
    requires minute % 60_000_000_000 == 0
    ensures MinuteOf(t) == minute <==> minute <= t < minute + 60_000_000_000
  {
  }

  lemma MinuteIsWhole(t: int)
    ensures MinuteOf(t) % 60_000_000_000 == 0 && MinuteOf(t) <= t < MinuteOf(t) + 60_000_000_000
  {
  }

  /** Successes of a minute that are not folded. */
  ghost function SuccessesIn(g: Grouping, L: Log, minute: int): nat {
    if L == [] then 0
    else
      var t := L[|L| - 1];
      SuccessesIn(g, L[..|L| - 1], minute) +
      (if InMinute(t, minute) && Succeeded(t) && !Folds(g, t) then 1 else 0)
  }

  function FailedIn(L: Log, minute: int): nat {
    if L == [] then 0
    else FailedIn(L[..|L| - 1], minute) + (if InMinute(L[|L| - 1], minute) && !Succeeded(L[|L| - 1]) then 1 else 0)
  }

  lemma {:induction false} BucketCounts(g: Grouping, L: Log, minute: int)
    requires minute % 60_000_000_000 == 0
    ensures RequestsIn(g, L, minute) == SuccessesIn(g, L, minute) + FailuresIn(g, L, minute)
    ensures FailuresIn(g, L, minute) <= FailedIn(L, minute)
  {
    if L != [] {
      BucketCounts(g, L[..|L| - 1], minute);
      EventIs(g, L[|L| - 1]);
      MinuteIs(L[|L| - 1].timestamp, minute);
    }
  }

  lemma FailedInSnoc(L: Log, t: Trace, minute: int)
    ensures FailedIn(L + [t], minute) == FailedIn(L, minute) + (if InMinute(t, minute) && !Succeeded(t) then 1 else 0)
  {
    assert (L + [t])[..|L|] == L;
  }

  lemma SuccessesInSnoc(g: Grouping, L: Log, t: Trace, minute: int)
    ensures SuccessesIn(g, L + [t], minute)
         == SuccessesIn(g, L, minute) + (if InMinute(t, minute) && Succeeded(t) && !Folds(g, t) then 1 else 0)
  {
    assert (L + [t])[..|L|] == L;
  }

  /** The positive latencies of those successes. */
  ghost function CountedLatenciesIn(g: Grouping, L: Log, minute: int): seq<int> {
    if L == [] then []
    else
      var t := L[|L| - 1];
      CountedLatenciesIn(g, L[..|L| - 1], minute) +
      (if InMinute(t, minute) && Succeeded(t) && !Folds(g, t) && t.latencyMS > 0 then [t.latencyMS] else [])
  }

  lemma CountedLatenciesSnoc(g: Grouping, L: Log, t: Trace, minute: int)
    ensures CountedLatenciesIn(g, L + [t], minute) == CountedLatenciesIn(g, L, minute) +
              (if InMinute(t, minute) && Succeeded(t) && !Folds(g, t) && t.latencyMS > 0 then [t.latencyMS] else [])
  {
    assert (L + [t])[..|L|] == L;
  }

  lemma {:induction false} LatenciesOfMinute(g: Grouping, L: Log, minute: int)
    requires minute % 60_000_000_000 == 0
    ensures LatenciesIn(g, L, minute) == CountedLatenciesIn(g, L, minute)
  {
    if L != [] {
      LatenciesOfMinute(g, L[..|L| - 1], minute);
      EventIs(g, L[|L| - 1]);
      MinuteIs(L[|L| - 1].timestamp, minute);
    }
  }

  /** Leaving out earlier traces changes nothing in a later minute. */
  ghost predicate SameIn(g: Grouping, L: Log, cutoff: int, minute: int) {
    var recent := Since(L, cutoff);
    FailedIn(recent, minute) == FailedIn(L, minute) && SuccessesIn(g, recent, minute) == SuccessesIn(g, L, minute) &&
    CountedLatenciesIn(g, recent, minute) == CountedLatenciesIn(g, L, minute)
  }

  lemma {:induction false} SinceIs(g: Grouping, L: Log, cutoff: int, minute: int)
    requires cutoff <= minute && minute % 60_000_000_000 == 0
    ensures SameIn(g, L, cutoff, minute)
  {
    if L != [] {
      SinceIs(g, L[..|L| - 1], cutoff, minute);
      NextIn(g, L[..|L| - 1], L[|L| - 1], cutoff, minute);
      FrontAndLast(L);
    }
  }

  lemma NextIn(g: Grouping, L: Log, t: Trace, cutoff: int, minute: int)
    requires cutoff <= minute && minute % 60_000_000_000 == 0 && SameIn(g, L, cutoff, minute)
    ensures SameIn(g, L + [t], cutoff, minute)
  {
    SinceSnoc(L, t, cutoff);
    InMinuteSnoc(g, L, t, minute);
    InMinuteSnoc(g, Since(L, cutoff), t, minute);
    MinuteIs(t.timestamp, minute);
  }

  lemma InMinuteSnoc(g: Grouping, L: Log, t: Trace, minute: int)
    ensures FailedIn(L + [t], minute) == FailedIn(L, minute) + (if InMinute(t, minute) && !Succeeded(t) then 1 else 0)
    ensures SuccessesIn(g, L + [t], minute)
         == SuccessesIn(g, L, minute) + (if InMinute(t, minute) && Succeeded(t) && !Folds(g, t) then 1 else 0)
    ensures CountedLatenciesIn(g, L + [t], minute) == CountedLatenciesIn(g, L, minute) +
              (if InMinute(t, minute) && Succeeded(t) && !Folds(g, t) && t.latencyMS > 0 then [t.latencyMS] else [])
  {
    FailedInSnoc(L, t, minute);
    SuccessesInSnoc(g, L, t, minute);
    CountedLatenciesSnoc(g, L, t, minute);
  }

  /** The minutes of a list. */
  lemma {:induction false} MinutesAre(g: Grouping, L: Log, minute: int)
    requires minute % 60_000_000_000 == 0
    ensures minute in Minutes(g, L) <==> SomeIn(g, L, minute)
  {
    if L != [] {
      var front, t := L[..|L| - 1], L[|L| - 1];
      MinutesAre(g, front, minute);
      MinutesSnoc(g, front, t);
      SomeInSnoc(g, front, t, minute);
      FrontAndLast(L);
      EventIs(g, t);
      MinuteIs(t.timestamp, minute);
    }
  }

  /** A trace of the minute is not folded. */
  ghost predicate SomeIn(g: Grouping, L: Log, minute: int) {
    exists t :: t in L && InMinute(t, minute) && !Folds(g, t)
  }

  lemma SomeInSnoc(g: Grouping, L: Log, t: Trace, minute: int)
    ensures SomeIn(g, L + [t], minute) <==> SomeIn(g, L, minute) || (InMinute(t, minute) && !Folds(g, t))
  {
    assert forall u :: u in L + [t] <==> u in L || u == t;
  }

  lemma {:induction false} SinceHas(L: Log, cutoff: int, t: Trace)
    ensures t in Since(L, cutoff) <==> t in L && MinuteOf(t.timestamp) >= cutoff
  {
    if L != [] {
      SinceHas(L[..|L| - 1], cutoff, t);
      assert L == L[..|L| - 1] + [L[|L| - 1]];
    }
  }

  /** The first minute of the series. */
  lemma CutoffMinute(now: int)
    ensures var cutoff := MinuteOf(now - DAY);
            cutoff % 60_000_000_000 == 0 && cutoff <= now - 86_400_000_000_000 < cutoff + 60_000_000_000
  {
    MinuteIsWhole(now - DAY);
  }

  lemma {:induction false} WholeMinutes(g: Grouping, L: Log)
    ensures forall m :: m in Minutes(g, L) ==> m % 60_000_000_000 == 0
  {
    if L != [] {
      WholeMinutes(g, L[..|L| - 1]);
      MinuteIsWhole(L[|L| - 1].timestamp);
    }
  }

  lemma BucketFrom(g: Grouping, L: Log, now: int, b: Bucket)
    ensures b in Series(g, L, now) <==>
            var recent := Since(L, MinuteOf(now - DAY));
            b.time in Minutes(g, recent) && b == BucketOf(g, recent, b.time)
  {
    var recent := Since(L, MinuteOf(now - DAY));
    BucketsAreOrdered(g, recent);
    ListingLists(Before, BucketsOf(g, recent));
    assert b in Series(g, L, now) <==> b in Elements(Series(g, L, now));
    if b.time in Minutes(g, recent) && b == BucketOf(g, recent, b.time) {
      assert b in BucketsOf(g, recent);
    }
  }

  lemma {:induction false} NoneBefore(L: Log, cutoff: int, t: Trace)
    requires t in Since(L, cutoff)
    ensures MinuteOf(t.timestamp) >= cutoff && t in L
  {
    SinceHas(L, cutoff, t);
  }

  /** A bucket counts the traces of its minute: its requests that are no failures are the successes that
      are not folded, and it has at most as many failures as there are failed traces. */
  lemma BucketMeans(g: Grouping, L: Log, now: int, b: Bucket)
    requires b in Series(g, L, now)
    ensures b.time % 60_000_000_000 == 0 && now - 86_400_000_000_000 < b.time + 60_000_000_000
    ensures b.requests - b.failures == SuccessesIn(g, L, b.time)
    ensures 0 <= b.failures <= FailedIn(L, b.time)
    ensures b.avgLatencyMS == Average(CountedLatenciesIn(g, L, b.time))
    ensures exists t :: t in L && InMinute(t, b.time) && !Folds(g, t)
  {
    var cutoff := MinuteOf(now - DAY);
    var recent := Since(L, cutoff);
    BucketFrom(g, L, now, b);
    WholeMinutes(g, recent);
    CutoffMinute(now);
    MinutesAre(g, recent, b.time);
    var t :| t in recent && InMinute(t, b.time) && !Folds(g, t);
    NoneBefore(L, cutoff, t);
    MinuteIs(t.timestamp, b.time);
    BucketCounts(g, recent, b.time);
    SinceIs(g, L, cutoff, b.time);
    LatenciesOfMinute(g, recent, b.time);
  }

  /** Every trace of the last 24 hours that is not folded has its bucket. */
  lemma TraceHasBucket(g: Grouping, L: Log, now: int, t: Trace)
    requires t in L && !Folds(g, t) && t.timestamp >= now - 86_400_000_000_000
    ensures exists b :: b in Series(g, L, now) && InMinute(t, b.time)
  {
    var cutoff, minute := MinuteOf(now - DAY), MinuteOf(t.timestamp);
    CutoffMinute(now);
    MinuteIsWhole(t.timestamp);
    LaterMinute(now - DAY, t.timestamp);
    SinceHas(L, cutoff, t);
    MinutesAre(g, Since(L, cutoff), minute);
    BucketFrom(g, L, now, BucketOf(g, Since(L, cutoff), minute));
  }

  lemma LaterMinute(a: int, b: int)
    requires a <= b
    ensures MinuteOf(a) <= MinuteOf(b)
  {
    MinuteIsWhole(a);
    MinuteIsWhole(b);
  }
}
