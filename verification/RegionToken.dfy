/** Region codes as tokens inside node names (internal/pool/manager.go, containsRegionCodeToken).

    A code is a token when no letter stands just before it and, after any digits, no letter
    stands just after it.  The code jumps over a whole occurrence when that occurrence does
    not qualify, so it never looks at occurrences overlapping it.  The theorem at the end
    says for which codes this is harmless. */
module RegionToken {
  import opened Text

  predicate IsUpperLetter(c: char) { 'A' <= c <= 'Z' }

  predicate IsDigit(c: char) { '0' <= c <= '9' }

  /** The first position at or after `i` that does not hold a digit. */
  function SkipDigits(s: string, i: nat): (j: nat)
    requires i <= |s|
    ensures i <= j <= |s|
    ensures j < |s| ==> !IsDigit(s[j])
    ensures forall k :: i <= k < j ==> IsDigit(s[k])
    decreases |s| - i
  {
    if i < |s| && IsDigit(s[i]) then SkipDigits(s, i + 1) else i
  }

  predicate IsToken(name: string, code: string, k: int) {
    OccursAt(name, code, k) &&
    (k == 0 || !IsUpperLetter(name[k - 1])) &&
    var after := SkipDigits(name, k + |code|);
    (after == |name| || !IsUpperLetter(name[after]))
  }

  ghost predicate HasToken(name: string, code: string) {
    exists k :: IsToken(name, code, k)
  }

  /** What the scan reports when it resumes at `from`: it skips a failing occurrence entirely. */
  predicate ScanFinds(name: string, code: string, from: nat)
    requires code != ""
    decreases |name| - from
  {
    var k := IndexFrom(name, code, from);
    k >= 0 && (IsToken(name, code, k) ||
               (k + |code| < |name| && ScanFinds(name, code, k + |code|)))
  }

  lemma {:induction false} IndexOfTail(name: string, code: string, from: nat, i: nat)
    requires from <= |name|
    ensures var r := IndexFrom(name[from..], code, i);
            IndexFrom(name, code, from + i) == if r < 0 then -1 else from + r
    decreases |name| - i
  {
    if from + i + |code| <= |name| {
      assert name[from..][i..i + |code|] == name[from + i..from + i + |code|];
      if !OccursAt(name, code, from + i) {
        IndexOfTail(name, code, from, i + 1);
      }
    }
  }

  /** One turn of the scan: after a failing occurrence it goes on searching in the tail. */
  lemma Resume(name: string, code: string, from: nat, idx: int)
    requires code != "" && idx == IndexFrom(name, code, from) && idx >= 0
    requires !IsToken(name, code, idx)
    ensures var start := idx + |code|; var next := Index(name[start..], code);
            IndexFrom(name, code, start) == (if next < 0 then -1 else start + next) &&
            ScanFinds(name, code, from) == ScanFinds(name, code, start) &&
            (start == |name| || next < 0 ==> !ScanFinds(name, code, start))
  {
    IndexOfTail(name, code, idx + |code|, 0);
  }

  /** containsRegionCodeToken */
  method ContainsRegionCodeToken(upperName: string, region: string) returns (found: bool)
    ensures found <==> var code := Upper(TrimSpace(region));
                       code != "" && ScanFinds(upperName, code, 0)
  {
    var code := Upper(TrimSpace(region));
    if code == "" {
      return false;
    }
    found := Scan(upperName, code);
  }

  /** Its loop: test one occurrence after another, resuming behind a failing one. */
  method Scan(upperName: string, code: string) returns (found: bool)
    requires code != ""
    ensures found <==> ScanFinds(upperName, code, 0)
  {
    var idx := Index(upperName, code);
    ghost var from, answer := 0, ScanFinds(upperName, code, 0);
    while idx >= 0
      invariant 0 <= from && idx == IndexFrom(upperName, code, from)
      invariant answer == ScanFinds(upperName, code, from)
      decreases |upperName| - from
    {
      var qualifies := Qualifies(upperName, code, idx);
      if qualifies {
        return true;
      }
      Resume(upperName, code, from, idx);
      var nextStart := idx + |code|;
      if nextStart >= |upperName| {
        return false;
      }
      var next := Index(upperName[nextStart..], code);
      if next < 0 {
        return false;
      }
      from, idx := nextStart, nextStart + next;
    }
    return false;
  }

  /** The loop body's test of one occurrence. */
  method Qualifies(upperName: string, code: string, idx: nat) returns (ok: bool)
    requires OccursAt(upperName, code, idx)
    ensures ok == IsToken(upperName, code, idx)
  {
    var beforeOK := idx == 0 || !IsUpperLetter(upperName[idx - 1]);
    var afterIdx := idx + |code|;
    while afterIdx < |upperName| && IsDigit(upperName[afterIdx])
      invariant idx + |code| <= afterIdx <= |upperName|
      invariant SkipDigits(upperName, idx + |code|) == SkipDigits(upperName, afterIdx)
    {
      afterIdx := afterIdx + 1;
    }
    assert SkipDigits(upperName, afterIdx) == afterIdx;
    var afterOK := afterIdx == |upperName| || !IsUpperLetter(upperName[afterIdx]);
    return beforeOK && afterOK;
  }

  /** The scan never reports a token that is not there, whatever the code. */
  lemma {:induction false} ScanIsSound(name: string, code: string, from: nat)
    requires code != "" && ScanFinds(name, code, from)
    ensures HasToken(name, code)
    decreases |name| - from
  {
    var k := IndexFrom(name, code, from);
    if !IsToken(name, code, k) {
      ScanIsSound(name, code, k + |code|);
    }
  }

  /** The code overlaps itself at distance `d`, and its character just before the overlap is
      not a letter. */
  predicate LooseBorder(code: string, d: int) {
    0 < d < |code| && code[d..] == code[..|code| - d] && !IsUpperLetter(code[d - 1])
  }

  /** Overlapping occurrences, the later one after a character that is not a letter. */
  lemma OverlapIsLooseBorder(name: string, code: string, k: int, t: int)
    requires OccursAt(name, code, k) && OccursAt(name, code, t)
    requires k < t < k + |code| && !IsUpperLetter(name[t - 1])
    ensures LooseBorder(code, t - k)
  {
    var d := t - k;
    assert code[d..] == name[k..k + |code|][d..] == name[t..k + |code|];
    assert code[..|code| - d] == name[t..t + |code|][..|code| - d] == name[t..k + |code|];
    assert name[t - 1] == name[k..k + |code|][d - 1];
  }

  /** Without a loose border, an occurrence that is jumped over can never qualify. */
  lemma {:induction false} ScanFindsToken(name: string, code: string, from: nat, t: nat)
    requires code != "" && from <= t && IsToken(name, code, t)
    requires forall d :: !LooseBorder(code, d)
    ensures ScanFinds(name, code, from)
    decreases |name| - from
  {
    var k := IndexFrom(name, code, from);
    if !IsToken(name, code, k) {
      if k + |code| <= t {
        ScanFindsToken(name, code, k + |code|, t);
      } else {
        OverlapIsLooseBorder(name, code, k, t);
        assert false;
      }
    }
  }

  /** Two copies of a self-overlapping code, shifted by `d`, behind a letter. */
  function Doubled(code: string, d: int): string
    requires 0 < d < |code|
  {
    [if code[0] == 'A' then 'B' else 'A'] + code + code[|code| - d..]
  }

  lemma DoubledOccurrences(code: string, d: int)
    requires LooseBorder(code, d)
    ensures var name := Doubled(code, d);
            !OccursAt(name, code, 0) && OccursAt(name, code, 1) && OccursAt(name, code, 1 + d) &&
            IsUpperLetter(name[0]) && name[d] == code[d - 1]
  {
    var n, name := |code|, Doubled(code, d);
    assert name[1..1 + n] == code;
    assert name[1 + d..1 + d + n] == code[d..] + code[n - d..];
    assert code == code[..n - d] + code[n - d..];
    assert name[0..n][0] == name[0];
  }

  /** A loose border gives a name whose only token is jumped over. */
  lemma LooseBorderMissesToken(code: string, d: int)
    requires LooseBorder(code, d)
    ensures HasToken(Doubled(code, d), code) && !ScanFinds(Doubled(code, d), code, 0)
  {
    var name := Doubled(code, d);
    DoubledOccurrences(code, d);
    assert IsToken(name, code, 1 + d);
    assert IndexFrom(name, code, 0) == 1;
    assert !IsToken(name, code, 1);
  }

  /** Searching for a code is exact on every name exactly when the code has no loose border. */
  lemma ScanExactIff(code: string)
    requires code != ""
    ensures (forall name :: ScanFinds(name, code, 0) <==> HasToken(name, code))
            <==> (forall d :: !LooseBorder(code, d))
  {
    if forall d :: !LooseBorder(code, d) {
      forall name
        ensures ScanFinds(name, code, 0) <==> HasToken(name, code)
      {
        if ScanFinds(name, code, 0) {
          ScanIsSound(name, code, 0);
        }
        if HasToken(name, code) {
          var t :| IsToken(name, code, t);
          ScanFindsToken(name, code, 0, t);
        }
      }
    } else {
      var d :| LooseBorder(code, d);
      LooseBorderMissesToken(code, d);
    }
  }

  /** Region codes are all letters, so for them the search is exact. */
  lemma LetterCodesAreExact(name: string, code: string)
    requires code != "" && forall i :: 0 <= i < |code| ==> IsUpperLetter(code[i])
    ensures ScanFinds(name, code, 0) <==> HasToken(name, code)
  {
    ScanExactIff(code);
  }

  /** The name reads as something that does not end in a letter, the code, digits, and something that
      begins with neither a digit nor a letter. */
  predicate ReadsAs(name: string, code: string, k: nat, digits: string, rest: string) {
    k <= |name| && name == name[..k] + code + digits + rest &&
    (k == 0 || !('A' <= name[k - 1] <= 'Z')) &&
    (forall i :: 0 <= i < |digits| ==> '0' <= digits[i] <= '9') &&
    (rest == "" || !('0' <= rest[0] <= '9' || 'A' <= rest[0] <= 'Z'))
  }

  lemma TokenReads(name: string, code: string, k: nat)
    requires IsToken(name, code, k)
    ensures var from := k + |code|; var after := SkipDigits(name, from);
            ReadsAs(name, code, k, name[from..after], name[after..])
  {
    var from := k + |code|;
    var after := SkipDigits(name, from);
    assert name == name[..k] + code + name[from..after] + name[after..];
  }

  /** What a token is, without the scan. */
  lemma TokenMeans(name: string, code: string, k: nat)
    ensures IsToken(name, code, k) <==> exists digits, rest :: ReadsAs(name, code, k, digits, rest)
  {
    if IsToken(name, code, k) {
      TokenReads(name, code, k);
    }
    if digits, rest :| ReadsAs(name, code, k, digits, rest) {
      Reads(name, name[..k], code, digits, rest);
    }
  }

  lemma Reads(name: string, before: string, code: string, digits: string, rest: string)
    requires name == before + code + digits + rest
    requires before == "" || !IsUpperLetter(before[|before| - 1])
    requires forall i :: 0 <= i < |digits| ==> IsDigit(digits[i])
    requires rest == "" || !(IsDigit(rest[0]) || IsUpperLetter(rest[0]))
    ensures IsToken(name, code, |before|)
  {
    var k, from := |before|, |before| + |code|;
    assert name[k..from] == code;
    assert k > 0 ==> name[k - 1] == before[k - 1];
    var end := from + |digits|;
    assert forall i :: from <= i < end ==> name[i] == digits[i - from];
    assert rest != "" ==> name[end] == rest[0];
    SkipsTo(name, from, end);
  }

  lemma {:induction false} SkipsTo(s: string, i: nat, j: nat)
    requires i <= j <= |s| && (forall k :: i <= k < j ==> IsDigit(s[k])) && (j < |s| ==> !IsDigit(s[j]))
    ensures SkipDigits(s, i) == j
    decreases j - i
  {
    if i < j {
      SkipsTo(s, i + 1, j);
    }
  }
}
