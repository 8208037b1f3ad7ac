/** Glob matching of URL rules (internal/traffic/grouping.go).

    `Fits` is the meaning of a pattern, written over its characters: a `*` stands for any
    string.  The code splits the pattern at its stars and searches each piece greedily,
    leftmost first; the method is proved to decide `Fits`. */
module WildcardMatch {
  import opened Text

  /** `value` can be obtained from `pattern` by replacing every `*` with some string. */
  ghost predicate Fits(pattern: string, value: string) {
    if pattern == "" then value == ""
    else if pattern[0] == '*' then
      exists k :: 0 <= k <= |value| && Fits(pattern[1..], value[k..])
    else value != "" && value[0] == pattern[0] && Fits(pattern[1..], value[1..])
  }

  /** The same meaning over the pieces between the stars: the first piece starts `value`. */
  ghost predicate PartsFit(parts: seq<string>, value: string)
    requires |parts| >= 1
    decreases |parts|, 0
  {
    if |parts| == 1 then value == parts[0]
    else parts[0] <= value && AfterStar(parts[1..], value[|parts[0]|..])
  }

  /** The pieces fit somewhere in `value`, the text before them belonging to a star. */
  ghost predicate AfterStar(parts: seq<string>, value: string)
    requires |parts| >= 1
    decreases |parts|, 1
  {
    exists k :: 0 <= k <= |value| && PartsFit(parts, value[k..])
  }

  /** Splitting at the stars keeps the meaning. */
  lemma {:induction false} SplitKeepsMeaning(pattern: string, value: string)
    ensures Fits(pattern, value) <==> PartsFit(Split(pattern, '*'), value)
    decreases |pattern|
  {
    if pattern != "" {
      var rest := Split(pattern[1..], '*');
      var parts := Split(pattern, '*');
      if pattern[0] == '*' {
        assert parts[1..] == rest && value[0..] == value;
        forall k | 0 <= k <= |value|
          ensures Fits(pattern[1..], value[k..]) <==> PartsFit(rest, value[k..])
        {
          SplitKeepsMeaning(pattern[1..], value[k..]);
        }
      } else if value != "" && value[0] == pattern[0] {
        SplitKeepsMeaning(pattern[1..], value[1..]);
        assert parts[0][1..] == rest[0] && parts[1..] == rest[1..];
        assert parts[0] <= value <==> rest[0] <= value[1..] by {
          assert value == [value[0]] + value[1..];
          assert parts[0] == [value[0]] + rest[0];
        }
        if rest[0] <= value[1..] {
          assert value[|parts[0]|..] == value[1..][|rest[0]|..];
        }
      }
    }
  }

  /** A star absorbs more text: what fits late also fits for a longer text. */
  lemma AfterStarWidens(parts: seq<string>, value: string, k: nat)
    requires |parts| >= 1 && k <= |value| && AfterStar(parts, value[k..])
    ensures AfterStar(parts, value)
  {
    var j :| 0 <= j <= |value[k..]| && PartsFit(parts, value[k..][j..]);
    assert value[k..][j..] == value[k + j..];
  }

  /** Taking the leftmost occurrence of a piece between two stars loses no match. */
  lemma LeftmostIsEnough(parts: seq<string>, value: string)
    requires |parts| >= 2
    ensures var found := Index(value, parts[0]);
            AfterStar(parts, value) <==>
            found >= 0 && AfterStar(parts[1..], value[found + |parts[0]|..])
  {
    var found, n := Index(value, parts[0]), |parts[0]|;
    if AfterStar(parts, value) {
      var k :| 0 <= k <= |value| && PartsFit(parts, value[k..]);
      assert value[k..][..n] == value[k..k + n];
      assert OccursAt(value, parts[0], k);
      assert value[k..][n..] == value[found + n..][k - found..];
      AfterStarWidens(parts[1..], value[found + n..], k - found);
    }
    if found >= 0 && AfterStar(parts[1..], value[found + n..]) {
      assert value[found..][n..] == value[found + n..];
      assert value[found..][..n] == value[found..found + n];
      assert PartsFit(parts, value[found..]);
    }
  }

  /** The last piece must end the text. */
  lemma LastIsSuffix(last: string, value: string)
    ensures AfterStar([last], value) <==> HasSuffix(value, last)
  {
    if HasSuffix(value, last) {
      assert PartsFit([last], value[|value| - |last|..]);
    }
  }

  /** wildcardMatch: true exactly when the pattern fits the value. */
  method Match(pattern: string, value: string) returns (matched: bool)
    ensures matched <==> Fits(pattern, value)
  {
    SplitKeepsMeaning(pattern, value);
    var parts := Split(pattern, '*');
    if pattern == "*" {
      assert Split("", '*') == [""];
      assert parts == ["", ""] && value[0..] == value;
      LastIsSuffix("", value);
      return true;
    }
    if '*' !in pattern {
      return pattern == value;
    }
    var index := 0;
    if parts[0] != "" {
      if !HasPrefix(value, parts[0]) {
        return false;
      }
      index := |parts[0]|;
    }
    assert value[0..] == value;
    var i := 1;
    while i < |parts| - 1
      invariant 1 <= i <= |parts| - 1
      invariant 0 <= index <= |value|
      invariant PartsFit(parts, value) <==> AfterStar(parts[i..], value[index..])
    {
      var part := parts[i];
      assert parts[i..][1..] == parts[i + 1..];
      LeftmostIsEnough(parts[i..], value[index..]);
      if part != "" {
        var found := Index(value[index..], part);
        if found < 0 {
          return false;
        }
        assert value[index..][found + |part|..] == value[index + found + |part|..];
        index := index + found + |part|;
      } else {
        assert OccursAt(value[index..], part, 0);
        assert value[index..][0..] == value[index..];
      }
      i := i + 1;
    }
    var last := parts[|parts| - 1];
    assert parts[i..] == [last];
    LastIsSuffix(last, value[index..]);
    if last == "" {
      return true;
    }
    return HasSuffix(value[index..], last);
  }

  /** Patterns compose: matching two texts separately matches their concatenation. */
  lemma {:induction false} FitsConcat(p: string, v: string, q: string, w: string)
    requires Fits(p, v) && Fits(q, w)
    ensures Fits(p + q, v + w)
    decreases |p|
  {
    if p == "" {
      assert p + q == q && v + w == w;
    } else if p[0] == '*' {
      var k :| 0 <= k <= |v| && Fits(p[1..], v[k..]);
      FitsConcat(p[1..], v[k..], q, w);
      assert (p + q)[1..] == p[1..] + q && (v + w)[k..] == v[k..] + w;
    } else {
      FitsConcat(p[1..], v[1..], q, w);
      assert (p + q)[1..] == p[1..] + q && (v + w)[1..] == v[1..] + w;
    }
  }

  // ----- rules match segment by segment -----

  /** splitHostSegments and splitPathSegments */
  function Segments(s: string, sep: char): seq<string> {
    var trimmed := TrimChar(s, sep);
    if trimmed == "" then [] else Split(trimmed, sep)
  }

  /** Equally many segments, each fitting its pattern segment. */
  ghost predicate SegmentsFit(patterns: seq<string>, values: seq<string>) {
    |patterns| == |values| &&
    forall i :: 0 <= i < |patterns| ==> Fits(patterns[i], values[i])
  }

  method MatchSegments(patterns: seq<string>, values: seq<string>) returns (matched: bool)
    ensures matched <==> SegmentsFit(patterns, values)
  {
    if |values| != |patterns| {
      return false;
    }
    for i := 0 to |patterns|
      invariant forall j :: 0 <= j < i ==> Fits(patterns[j], values[j])
    {
      var ok := Match(patterns[i], values[i]);
      if !ok {
        return false;
      }
    }
    return true;
  }

  ghost predicate HostFits(host: string, pattern: string) {
    var p := Lower(TrimSpace(pattern));
    p == "" || SegmentsFit(Segments(p, '.'), Segments(host, '.'))
  }

  ghost predicate PathFits(path: string, pattern: string) {
    var p := TrimSpace(pattern);
    p == "" || SegmentsFit(Segments(p, '/'), Segments(path, '/'))
  }

  /** matchHostPattern */
  method MatchHost(host: string, pattern: string) returns (matched: bool)
    ensures matched <==> HostFits(host, pattern)
  {
    var p := Lower(TrimSpace(pattern));
    if p == "" {
      return true;
    }
    matched := MatchSegments(Segments(p, '.'), Segments(host, '.'));
  }

  /** matchPathPattern */
  method MatchPath(path: string, pattern: string) returns (matched: bool)
    ensures matched <==> PathFits(path, pattern)
  {
    var p := TrimSpace(pattern);
    if p == "" {
      return true;
    }
    matched := MatchSegments(Segments(p, '/'), Segments(path, '/'));
  }

  function Join(parts: seq<string>, sep: char): string {
    if parts == [] then ""
    else if |parts| == 1 then parts[0]
    else parts[0] + [sep] + Join(parts[1..], sep)
  }

  lemma {:induction false} JoinSplit(s: string, sep: char)
    ensures Join(Split(s, sep), sep) == s
  {
    if s != "" {
      var rest := Split(s[1..], sep);
      JoinSplit(s[1..], sep);
      if s[0] == sep {
        assert ([""] + rest)[1..] == rest;
      } else {
        assert ([[s[0]] + rest[0]] + rest[1..])[1..] == rest[1..];
      }
    }
  }

  lemma {:induction false} JoinFits(patterns: seq<string>, values: seq<string>, sep: char)
    requires SegmentsFit(patterns, values) && sep != '*'
    ensures Fits(Join(patterns, sep), Join(values, sep))
  {
    if |patterns| > 1 {
      JoinFits(patterns[1..], values[1..], sep);
      assert Fits([sep], [sep]);
      FitsConcat(patterns[0], values[0], [sep], [sep]);
      FitsConcat(patterns[0] + [sep], values[0] + [sep], Join(patterns[1..], sep), Join(values[1..], sep));
    }
  }

  /** Segment-wise matching is stricter than one glob over the whole host: a star may not
      cross a dot, and everything a rule matches also fits the pattern read as one glob. */
  lemma HostFitsIsStricter(host: string, pattern: string)
    requires Lower(TrimSpace(pattern)) != "" && HostFits(host, pattern)
    ensures var p, h := TrimChar(Lower(TrimSpace(pattern)), '.'), TrimChar(host, '.');
            Fits(p, h) && |Segments(h, '.')| == |Segments(p, '.')|
  {
    var p := Lower(TrimSpace(pattern));
    var ps, hs := Segments(p, '.'), Segments(host, '.');
    JoinSplit(TrimChar(p, '.'), '.');
    JoinSplit(TrimChar(host, '.'), '.');
    JoinFits(ps, hs, '.');
    TrimTwice(p, '.');
    TrimTwice(host, '.');
  }

  lemma {:induction false} TrimTwice(s: string, c: char)
    ensures TrimChar(TrimChar(s, c), c) == TrimChar(s, c)
    decreases |s|
  {
    if s != "" && s[0] == c {
      TrimTwice(s[1..], c);
    } else if s != "" && s[|s| - 1] == c {
      TrimTwice(s[..|s| - 1], c);
    }
  }

  // ----- rules over given segments -----

  /** Non-empty segments without the separator. */
  predicate AreSegments(parts: seq<string>, sep: char) {
    |parts| > 0 && forall i :: 0 <= i < |parts| ==> parts[i] != "" && sep !in parts[i]
  }

  lemma {:induction false} SplitWord(s: string, rest: string, sep: char)
    requires sep !in s
    ensures Split(s + [sep] + rest, sep) == [s] + Split(rest, sep)
    decreases |s|
  {
    if s == "" {
      assert s + [sep] + rest == [sep] + rest && ([sep] + rest)[1..] == rest;
    } else {
      SplitWord(s[1..], rest, sep);
      assert (s + [sep] + rest)[1..] == s[1..] + [sep] + rest;
      assert [s[0]] + s[1..] == s;
    }
  }

  lemma {:induction false} SplitJoin(parts: seq<string>, sep: char)
    requires AreSegments(parts, sep)
    ensures Split(Join(parts, sep), sep) == parts
  {
    if |parts| > 1 {
      SplitJoin(parts[1..], sep);
      SplitWord(parts[0], Join(parts[1..], sep), sep);
      assert parts == [parts[0]] + parts[1..];
    }
  }

  lemma {:induction false} JoinEnds(parts: seq<string>, sep: char)
    requires AreSegments(parts, sep)
    ensures var s := Join(parts, sep); s != "" && s[0] != sep && s[|s| - 1] != sep
  {
    assert parts[0][0] in parts[0];
    if |parts| > 1 {
      JoinEnds(parts[1..], sep);
    } else {
      assert parts[0][|parts[0]| - 1] in parts[0];
    }
  }

  predicate Only(s: string, c: char) {
    forall i :: 0 <= i < |s| ==> s[i] == c
  }

  lemma {:induction false} TrimAround(lead: string, s: string, trail: string, c: char)
    requires s != "" && s[0] != c && s[|s| - 1] != c && Only(lead, c) && Only(trail, c)
    ensures TrimChar(lead + s + trail, c) == s
    decreases |lead| + |trail|
  {
    var all := lead + s + trail;
    if lead != "" {
      assert all[1..] == lead[1..] + s + trail;
      TrimAround(lead[1..], s, trail, c);
    } else if trail != "" {
      assert all[0] == s[0];
      assert all[..|all| - 1] == lead + s + trail[..|trail| - 1];
      TrimAround(lead, s, trail[..|trail| - 1], c);
    } else {
      assert all == s;
    }
  }

  /** `text` consists of these segments, with any number of separators around. */
  ghost predicate Consists(text: string, parts: seq<string>, sep: char) {
    AreSegments(parts, sep) &&
    exists lead, trail :: Only(lead, sep) && Only(trail, sep) && text == lead + Join(parts, sep) + trail
  }

  lemma SegmentsAre(text: string, parts: seq<string>, sep: char)
    requires Consists(text, parts, sep)
    ensures Segments(text, sep) == parts && text != ""
  {
    var lead, trail :| Only(lead, sep) && Only(trail, sep) && text == lead + Join(parts, sep) + trail;
    JoinEnds(parts, sep);
    TrimAround(lead, Join(parts, sep), trail, sep);
    SplitJoin(parts, sep);
  }

  /** A path rule of some segments matches exactly the paths with as many segments, each of which fits its
      own pattern, whatever slashes stand around; letter case matters. */
  lemma PathRule(path: string, values: seq<string>, rule: string, patterns: seq<string>)
    requires Consists(path, values, '/') && Consists(TrimSpace(rule), patterns, '/')
    ensures PathFits(path, rule) <==>
            |patterns| == |values| && forall i :: 0 <= i < |patterns| ==> Fits(patterns[i], values[i])
  {
    SegmentsAre(path, values, '/');
    SegmentsAre(TrimSpace(rule), patterns, '/');
  }

  /** The same for host rules and dots, where the rule's letter case does not matter. */
  lemma HostRule(host: string, values: seq<string>, rule: string, patterns: seq<string>)
    requires Consists(host, values, '.') && Consists(Lower(TrimSpace(rule)), patterns, '.')
    ensures HostFits(host, rule) <==>
            |patterns| == |values| && forall i :: 0 <= i < |patterns| ==> Fits(patterns[i], values[i])
  {
    SegmentsAre(host, values, '.');
    SegmentsAre(Lower(TrimSpace(rule)), patterns, '.');
  }

  /** A blank rule matches everything. */
  lemma BlankRules(text: string, rule: string)
    requires TrimSpace(rule) == ""
    ensures HostFits(text, rule) && PathFits(text, rule)
  {
  }
}
