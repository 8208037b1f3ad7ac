/** Round-robin over whole selections (internal/pool/manager.go): which live node of a class comes
    first, and how often, when the same request is selected again and again. */
module SelectionFairness {
  import opened Pools
  import opened Ordering
  import opened Egress
  import opened EgressTheorems
  import opened Products

  /** A request that is selected again and again on pools that do not change. */
  datatype Selection = Selection(snap: Snapshot, region: string, sel: Selector, fallback: bool, shuffle: Shuffle)

  ghost predicate Valid(q: Selection) {
    DistinctNames(q.snap) && IsShuffle(q.shuffle) && q.region != "" && Live(q) != []
  }

  /** The round-robin counters after one selection. */
  ghost function CountersNext(q: Selection, rr: Counters): Counters {
    CandidateCounters(q.snap, q.region, q.sel, q.fallback, Draw(RoundRobin, rr, q.shuffle))
  }

  /** The round-robin counters after `k` selections. */
  ghost function CountersAfter(q: Selection, rr: Counters, k: nat): Counters {
    if k == 0 then rr else CountersNext(q, CountersAfter(q, rr, k - 1))
  }

  /** The candidates of selection `k`. */
  ghost function Selected(q: Selection, rr: Counters, k: nat): seq<Choice> {
    Candidates(q.snap, q.region, q.sel, q.fallback, Draw(RoundRobin, CountersAfter(q, rr, k), q.shuffle))
  }

  /** How often `x` comes first in `k` selections. */
  ghost function TimesSelected(q: Selection, rr: Counters, k: nat, x: Choice): nat {
    if k == 0 then 0
    else
      var s := Selected(q, rr, k - 1);
      TimesSelected(q, rr, k - 1, x) + (if s != [] && s[0] == x then 1 else 0)
  }

  ghost function Live(q: Selection): seq<Choice> {
    EntryList(q.snap, q.region, q.sel.residential)
  }

  ghost function Key(q: Selection): string {
    GroupOf(q.region, q.sel.residential)
  }

  lemma LiveFacts(q: Selection)
    requires Valid(q)
    ensures NoDuplicates(Live(q)) && Elements(Live(q)) == AliveChoices(q.snap, q.region, q.sel.residential) != {}
  {
    EntryListLists(q.snap, q.region, q.sel.residential);
    EmptyHasNoElements(Live(q));
  }

  /** One selection advances the counter of its own class by one. */
  lemma KeyAdvances(q: Selection, rr: Counters)
    requires Valid(q)
    ensures Count(CountersNext(q, rr), Key(q)) == Count(rr, Key(q)) + 1
  {
    var d := Draw(RoundRobin, rr, q.shuffle);
    LiveFacts(q);
    GroupAdvances(q.snap, q.region, q.sel.residential, d, Key(q));
    GroupAdvances(q.snap, q.region, true, After(q.snap, q.region, q.sel, d), Key(q));
    GroupMembers(q.snap, q.region, q.sel, q.fallback, d);
    assert GroupOf(q.region, true)[|q.region|..] == "-RES";
    assert GroupOf(q.region, false) != GroupOf(q.region, true);
  }

  lemma {:induction false} KeyCounts(q: Selection, rr: Counters, key: string, k: nat)
    requires forall c: Counters :: Count(CountersNext(q, c), key) == Count(c, key) + 1
    ensures Count(CountersAfter(q, rr, k), key) == Count(rr, key) + k
  {
    if k > 0 {
      KeyCounts(q, rr, key, k - 1);
    }
  }

  lemma SelectionsCounted(q: Selection, rr: Counters, k: nat)
    requires Valid(q)
    ensures Count(CountersAfter(q, rr, k), Key(q)) == Count(rr, Key(q)) + k
  {
    forall c: Counters
      ensures Count(CountersNext(q, c), Key(q)) == Count(c, Key(q)) + 1
    {
      KeyAdvances(q, c);
    }
    KeyCounts(q, rr, Key(q), k);
  }

  /** The live nodes when they are turned for the `c`-th time. */
  ghost function Turn(q: Selection, c: nat): seq<Choice> {
    Ordered(Live(q), RoundRobin, c, q.shuffle)
  }

  /** The group of the request's own class, with its live nodes turned. */
  ghost function OwnGroup(q: Selection, c: nat): seq<Choice> {
    Merged(Turn(q, c), [], TemplateList(q.snap, q.region, q.sel), q.sel.premium, q.fallback)
  }

  lemma GroupIsOwn(q: Selection, d: Draw)
    requires Valid(q) && d.strategy == RoundRobin && d.shuffle == q.shuffle
    ensures Group(q.snap, q.region, q.sel, q.fallback, d) == OwnGroup(q, Count(d.rr, Key(q))) != []
  {
    LiveFacts(q);
    GroupMembers(q.snap, q.region, q.sel, q.fallback, d);
    GroupLists(q.snap, q.region, q.sel.residential, d);
    SameMultiset(LiveNodes(q.snap, q.region, q.sel.residential, d), AliveChoices(q.snap, q.region, q.sel.residential));
  }

  lemma OwnGroupLeads(q: Selection, d: Draw)
    requires q.region != "" && Group(q.snap, q.region, q.sel, q.fallback, d) != []
    ensures Candidates(q.snap, q.region, q.sel, q.fallback, d) != []
    ensures Candidates(q.snap, q.region, q.sel, q.fallback, d)[0] == Group(q.snap, q.region, q.sel, q.fallback, d)[0]
  {
  }

  lemma OwnGroupHead(q: Selection, d: Draw, c: nat, s: seq<Choice>)
    requires Valid(q) && d.strategy == RoundRobin && d.shuffle == q.shuffle && c == Count(d.rr, Key(q))
    requires s == Candidates(q.snap, q.region, q.sel, q.fallback, d)
    ensures OwnGroup(q, c) != [] && s != [] && s[0] == OwnGroup(q, c)[0]
  {
    GroupIsOwn(q, d);
    OwnGroupLeads(q, d);
  }

  /** The group of the request's own class leads the candidates. */
  lemma OwnGroupFirst(q: Selection, rr: Counters, k: nat, c: nat)
    requires Valid(q) && c == Count(rr, Key(q)) + k
    ensures OwnGroup(q, c) != [] && Selected(q, rr, k) != [] && Selected(q, rr, k)[0] == OwnGroup(q, c)[0]
  {
    SelectionsCounted(q, rr, k);
    OwnGroupHead(q, Draw(RoundRobin, CountersAfter(q, rr, k), q.shuffle), c, Selected(q, rr, k));
  }

  /** Selection `k` puts `first` first. */
  lemma TimesStep(q: Selection, rr: Counters, k: nat, x: Choice, first: Choice)
    requires Selected(q, rr, k) != [] && Selected(q, rr, k)[0] == first
    ensures TimesSelected(q, rr, k + 1, x) == TimesSelected(q, rr, k, x) + (if first == x then 1 else 0)
  {
  }

  lemma TurnStep(q: Selection, start: nat, k: nat, x: Choice, first: Choice)
    requires Live(q) != [] && Turn(q, start + k) != [] && Turn(q, start + k)[0] == first
    ensures TimesFirst(Live(q), start, k + 1, x, q.shuffle)
         == TimesFirst(Live(q), start, k, x, q.shuffle) + (if first == x then 1 else 0)
  {
  }

  // ----- without the premium preference -----

  /** The request does not ask for premium, or there is nothing premium to prefer. */
  ghost predicate Plain(q: Selection) {
    !q.sel.premium || (Only(Live(q), true) == [] && Only(TemplateList(q.snap, q.region, q.sel), true) == [])
  }

  lemma SameMembers(s: seq<Choice>, t: seq<Choice>)
    requires multiset(s) == multiset(t)
    ensures forall c :: c in s <==> c in t
  {
    forall c
      ensures c in s <==> c in t
    {
      assert c in s <==> c in multiset(s);
      assert c in t <==> c in multiset(t);
    }
  }

  lemma SamePremium(s: seq<Choice>, t: seq<Choice>)
    requires forall c :: c in s <==> c in t
    ensures Only(s, true) == [] <==> Only(t, true) == []
  {
    OnlyKeeps(s, true);
    OnlyKeeps(t, true);
    assert Only(t, true) != [] ==> Only(t, true)[0] in Only(s, true);
    assert Only(s, true) != [] ==> Only(s, true)[0] in Only(t, true);
  }

  /** Turning the list keeps what is in it. */
  lemma TurnKeeps(q: Selection, c: nat)
    requires Valid(q)
    ensures Turn(q, c) != [] && (Only(Turn(q, c), true) == [] <==> Only(Live(q), true) == [])
  {
    LiveFacts(q);
    EntryListLists(q.snap, q.region, q.sel.residential);
    OrderedPermutes(Live(q), RoundRobin, c, q.shuffle);
    SameMembers(Live(q), Turn(q, c));
    SamePremium(Live(q), Turn(q, c));
    assert Live(q)[0] in Live(q);
  }

  ghost predicate SelectedHead(q: Selection, rr: Counters, k: nat, head: Choice) {
    Selected(q, rr, k) != [] && Selected(q, rr, k)[0] == head
  }

  ghost predicate TurnHead(q: Selection, c: nat, head: Choice) {
    Turn(q, c) != [] && Turn(q, c)[0] == head
  }

  lemma PlainFirst(q: Selection, rr: Counters, k: nat, c: nat) returns (head: Choice)
    requires Valid(q) && Plain(q) && c == Count(rr, Key(q)) + k
    ensures SelectedHead(q, rr, k, head) && TurnHead(q, c, head)
  {
    OwnGroupFirst(q, rr, k, c);
    TurnKeeps(q, c);
    head := Turn(q, c)[0];
  }

  ghost predicate HeadsOfSelections(q: Selection, rr: Counters, heads: seq<Choice>) {
    heads == [] ||
    (HeadsOfSelections(q, rr, heads[..|heads| - 1]) && SelectedHead(q, rr, |heads| - 1, heads[|heads| - 1]))
  }

  /** These are the heads of the turns before turn `c`. */
  ghost predicate HeadsOfTurns(q: Selection, c: nat, heads: seq<Choice>) {
    heads == [] ||
    (c > 0 && HeadsOfTurns(q, c - 1, heads[..|heads| - 1]) && TurnHead(q, c - 1, heads[|heads| - 1]))
  }

  lemma SelectionsSnoc(q: Selection, rr: Counters, heads: seq<Choice>, head: Choice)
    requires HeadsOfSelections(q, rr, heads) && SelectedHead(q, rr, |heads|, head)
    ensures HeadsOfSelections(q, rr, heads + [head])
  {
    assert (heads + [head])[..|heads|] == heads;
  }

  lemma TurnsSnoc(q: Selection, c: nat, heads: seq<Choice>, head: Choice)
    requires HeadsOfTurns(q, c, heads) && TurnHead(q, c, head)
    ensures HeadsOfTurns(q, c + 1, heads + [head])
  {
    assert (heads + [head])[..|heads|] == heads;
  }

  /** Selection `k` is led by the node that leads turn `c`. */
  ghost predicate SameHead(q: Selection, rr: Counters, k: nat, c: nat) {
    exists head :: SelectedHead(q, rr, k, head) && TurnHead(q, c, head)
  }

  /** The first `k` selections are led by the nodes that lead the `k` turns from turn `start` on. */
  ghost predicate AllSameHeads(q: Selection, rr: Counters, start: nat, k: nat) {
    forall j: nat, c: nat :: j < k && c == start + j ==> SameHead(q, rr, j, c)
  }

  /** The first choices of `k` selections are those of `k` turns of the live nodes. */
  lemma {:induction false} SameHeads(q: Selection, rr: Counters, start: nat, k: nat) returns (heads: seq<Choice>)
    requires AllSameHeads(q, rr, start, k)
    ensures |heads| == k && HeadsOfSelections(q, rr, heads) && HeadsOfTurns(q, start + k, heads)
  {
    heads := [];
    if k > 0 {
      heads := SameHeads(q, rr, start, k - 1);
      heads := SameHeadNext(q, rr, start + k - 1, heads);
    }
  }

  lemma SameHeadNext(q: Selection, rr: Counters, c: nat, before: seq<Choice>) returns (heads: seq<Choice>)
    requires HeadsOfSelections(q, rr, before) && HeadsOfTurns(q, c, before) && SameHead(q, rr, |before|, c)
    ensures |heads| == |before| + 1 && HeadsOfSelections(q, rr, heads) && HeadsOfTurns(q, c + 1, heads)
  {
    var head :| SelectedHead(q, rr, |before|, head) && TurnHead(q, c, head);
    SelectionsSnoc(q, rr, before, head);
    TurnsSnoc(q, c, before, head);
    heads := before + [head];
  }

  /** How often `x` is among the heads. */
  function CountOf(heads: seq<Choice>, x: Choice): nat {
    if heads == [] then 0
    else CountOf(heads[..|heads| - 1], x) + (if heads[|heads| - 1] == x then 1 else 0)
  }

  lemma {:induction false} SelectionsCount(q: Selection, rr: Counters, heads: seq<Choice>, x: Choice)
    requires HeadsOfSelections(q, rr, heads)
    ensures TimesSelected(q, rr, |heads|, x) == CountOf(heads, x)
  {
    if heads != [] {
      var k := |heads| - 1;
      SelectionsCount(q, rr, heads[..k], x);
      TimesStep(q, rr, k, x, heads[k]);
    }
  }

  lemma {:induction false} TurnsAreCounted(q: Selection, start: nat, c: nat, heads: seq<Choice>, x: Choice)
    requires Live(q) != [] && c == start + |heads| && HeadsOfTurns(q, c, heads)
    ensures TimesFirst(Live(q), start, |heads|, x, q.shuffle) == CountOf(heads, x)
  {
    if heads != [] {
      var k := |heads| - 1;
      TurnsAreCounted(q, start, c - 1, heads[..k], x);
      TurnStep(q, start, k, x, heads[k]);
    }
  }

  lemma PlainHeads(q: Selection, rr: Counters, start: nat, k: nat)
    requires Valid(q) && Plain(q) && start == Count(rr, Key(q))
    ensures AllSameHeads(q, rr, start, k)
  {
    forall j: nat, c: nat | j < k && c == start + j
      ensures SameHead(q, rr, j, c)
    {
      var head := PlainFirst(q, rr, j, c);
    }
  }

  /** Without the premium preference, or with nothing premium to prefer, selection is fair: over any
      `k` selections every one of the `n` live nodes is tried first floor(k / n) or ceil(k / n)
      times. */
  lemma SelectionIsFair(q: Selection, rr: Counters, k: nat, x: Choice)
    requires Valid(q) && x in AliveChoices(q.snap, q.region, q.sel.residential)
    requires Plain(q)
    ensures var n := |Live(q)|;
            n > 0 && k / n <= TimesSelected(q, rr, k, x) <= k / n + (if k % n == 0 then 0 else 1)
  {
    LiveFacts(q);
    assert x in Elements(Live(q));
    PlainHeads(q, rr, Count(rr, Key(q)), k);
    SameHeadsAreFair(q, rr, Count(rr, Key(q)), k, x);
  }

  lemma SameHeadsAreFair(q: Selection, rr: Counters, start: nat, k: nat, x: Choice)
    requires NoDuplicates(Live(q)) && x in Live(q) && AllSameHeads(q, rr, start, k)
    ensures var n := |Live(q)|;
            n > 0 && k / n <= TimesSelected(q, rr, k, x) <= k / n + (if k % n == 0 then 0 else 1)
  {
    var heads := SameHeads(q, rr, start, k);
    SelectionsCount(q, rr, heads, x);
    TurnsAreCounted(q, start, start + k, heads, x);
    RoundRobinIsFair(Live(q), start, k, x, q.shuffle);
  }

  // ----- with the premium preference -----

  /** The position `h` places before `i` on a circle of `n`. */
  function Back(n: nat, i: nat, h: nat): (j: nat)
    requires i < n && h < n
    ensures j < n
  {
    if h <= i then i - h else i - h + n
  }

  /** The first place from `g` on, going back from `i`, with a premium node; `n` if there is none. */
  function GapFrom(s: seq<Choice>, i: nat, g: nat): (r: nat)
    requires i < |s| && g <= |s|
    ensures g <= r <= |s| && (r < |s| ==> s[Back(|s|, i, r)].premium)
    ensures forall h :: g <= h < r ==> !s[Back(|s|, i, h)].premium
    decreases |s| - g
  {
    if g == |s| || s[Back(|s|, i, g)].premium then g else GapFrom(s, i, g + 1)
  }

  /** How many nodes there are from the premium node before `i`, exclusively, to `i`. */
  function Gap(s: seq<Choice>, i: nat): (g: nat)
    requires i < |s|
    ensures 1 <= g <= |s|
  {
    GapFrom(s, i, 1)
  }

  lemma {:induction false} OnlyHead(s: seq<Choice>, m: nat)
    requires m < |s| && s[m].premium && forall j :: 0 <= j < m ==> !s[j].premium
    ensures Only(s, true) != [] && Only(s, true)[0] == s[m]
  {
    if m > 0 {
      OnlyHead(s[1..], m - 1);
    }
  }

  lemma {:induction false} OnlyHeadIs(s: seq<Choice>) returns (m: nat)
    requires Only(s, true) != []
    ensures m < |s| && s[m].premium && Only(s, true)[0] == s[m] && forall j :: 0 <= j < m ==> !s[j].premium
  {
    if s[0].premium {
      m := 0;
    } else {
      m := OnlyHeadIs(s[1..]);
      m := m + 1;
      assert forall j :: 0 < j < m ==> s[j] == s[1..][j - 1];
    }
  }

  /** Place `j` of a list turned to start at `r`. */
  lemma RotatedAt(s: seq<Choice>, r: nat, j: nat)
    requires r < |s| && j < |s|
    ensures Rotate(s, r)[j] == s[Wrap(|s|, r + j)]
  {
  }

  lemma BackAhead(n: nat, r: nat, i: nat, j: nat)
    requires r < n && i < n && j <= Ahead(n, r, i)
    ensures 0 <= Ahead(n, r, i) < n && Back(n, i, Ahead(n, r, i) - j) == Wrap(n, r + j)
  {
  }

  /** In the list turned to `r`, premium node `i` comes before all other premium nodes exactly if `r`
      lies in the gap before it. */
  lemma FirstPremiumIff(s: seq<Choice>, r: nat, i: nat)
    requires NoDuplicates(s) && r < |s| && i < |s| && s[i].premium
    ensures Only(Rotate(s, r), true) != []
    ensures Only(Rotate(s, r), true)[0] == s[i] <==> Ahead(|s|, r, i) < Gap(s, i)
  {
    var n, t, a := |s|, Rotate(s, r), Ahead(|s|, r, i);
    BackAhead(n, r, i, a);
    RotatedAt(s, r, a);
    assert t[a] == s[i];
    forall j | 0 <= j < a
      ensures t[j] == s[Back(n, i, a - j)]
    {
      RotatedAt(s, r, j);
      BackAhead(n, r, i, j);
    }
    if a < Gap(s, i) {
      OnlyHead(t, a);
    } else {
      var g := Gap(s, i);
      assert t[a - g] == s[Back(n, i, g)];
      OnlyKeeps(t, true);
      assert t[a] in Only(t, true);
      var m := OnlyHeadIs(t);
      assert m <= a - g;
      assert t[m] == s[Back(n, i, a - m)];
    }
  }

  /** Nodes in the gap before `i`. */
  ghost predicate InGap(s: seq<Choice>, i: nat, g: nat, head: Choice)
    requires i < |s| && g <= |s|
  {
    exists h :: 0 <= h < g && head == s[Back(|s|, i, h)]
  }

  lemma InGapIff(s: seq<Choice>, i: nat, g: nat, r: nat)
    requires NoDuplicates(s) && i < |s| && g <= |s| && r < |s|
    ensures InGap(s, i, g, s[r]) <==> Ahead(|s|, r, i) < g
  {
    var a := Ahead(|s|, r, i);
    BackAhead(|s|, r, i, 0);
    assert Back(|s|, i, a) == r;
    if InGap(s, i, g, s[r]) {
      var h :| 0 <= h < g && s[r] == s[Back(|s|, i, h)];
      assert Back(|s|, i, h) == r;
    }
  }

  /** How often the nodes in the gap before `i` come first. */
  function GapCount(heads: seq<Choice>, s: seq<Choice>, i: nat, g: nat): nat
    requires i < |s| && g <= |s|
  {
    if g == 0 then 0 else GapCount(heads, s, i, g - 1) + CountOf(heads, s[Back(|s|, i, g - 1)])
  }

  lemma {:induction false} GapCountSnoc(heads: seq<Choice>, s: seq<Choice>, i: nat, g: nat, head: Choice)
    requires NoDuplicates(s) && i < |s| && g <= |s|
    ensures GapCount(heads + [head], s, i, g) == GapCount(heads, s, i, g) + (if InGap(s, i, g, head) then 1 else 0)
  {
    if g > 0 {
      var b := Back(|s|, i, g - 1);
      GapCountSnoc(heads, s, i, g - 1, head);
      assert (heads + [head])[..|heads|] == heads;
      InGapStep(s, i, g, head);
    }
  }

  lemma InGapStep(s: seq<Choice>, i: nat, g: nat, head: Choice)
    requires NoDuplicates(s) && i < |s| && 0 < g <= |s|
    ensures InGap(s, i, g, head) <==> InGap(s, i, g - 1, head) || head == s[Back(|s|, i, g - 1)]
    ensures InGap(s, i, g - 1, head) ==> head != s[Back(|s|, i, g - 1)]
  {
    if InGap(s, i, g - 1, head) {
      var h :| 0 <= h < g - 1 && head == s[Back(|s|, i, h)];
      assert Back(|s|, i, h) != Back(|s|, i, g - 1);
    }
  }

  lemma TurnIs(q: Selection, c: nat) returns (r: nat)
    requires Live(q) != []
    ensures r < |Live(q)| && Turn(q, c) == Rotate(Live(q), r) && Turn(q, c) != [] && Turn(q, c)[0] == Live(q)[r]
  {
    r := c % |Live(q)|;
    RotatedAt(Live(q), r, 0);
  }

  lemma PremiumGroupHead(entries: seq<Choice>, templates: seq<Choice>, withTemplates: bool)
    requires Only(entries, true) != []
    ensures var m := Merged(entries, [], templates, true, withTemplates); m != [] && m[0] == Only(entries, true)[0]
  {
  }

  lemma PremiumHead(q: Selection, rr: Counters, k: nat, c: nat) returns (head: Choice)
    requires Valid(q) && q.sel.premium && Only(Live(q), true) != [] && c == Count(rr, Key(q)) + k
    ensures Only(Turn(q, c), true) != [] && head == Only(Turn(q, c), true)[0] && SelectedHead(q, rr, k, head)
  {
    OwnGroupFirst(q, rr, k, c);
    TurnKeeps(q, c);
    PremiumGroupHead(Turn(q, c), TemplateList(q.snap, q.region, q.sel), q.fallback);
    head := Only(Turn(q, c), true)[0];
  }

  /** One premium node of the class. */
  ghost predicate PremiumNode(q: Selection, i: nat) {
    q.sel.premium && i < |Live(q)| && Live(q)[i].premium && NoDuplicates(Live(q)) && Only(Live(q), true) != []
  }

  /** Whether node `i` leads the candidates of a selection depends on the plain turn of the nodes. */
  lemma PremiumFirstOf(q: Selection, rr: Counters, k: nat, c: nat, i: nat) returns (p: Choice, h: Choice)
    requires Valid(q) && PremiumNode(q, i) && c == Count(rr, Key(q)) + k
    ensures SelectedHead(q, rr, k, p) && TurnHead(q, c, h)
    ensures p == Live(q)[i] <==> InGap(Live(q), i, Gap(Live(q), i), h)
  {
    p := PremiumHead(q, rr, k, c);
    var r := TurnIs(q, c);
    h := Live(q)[r];
    FirstPremiumIff(Live(q), r, i);
    InGapIff(Live(q), i, Gap(Live(q), i), r);
  }

  lemma CountOfSnoc(heads: seq<Choice>, head: Choice, x: Choice)
    ensures CountOf(heads + [head], x) == CountOf(heads, x) + (if head == x then 1 else 0)
  {
    assert (heads + [head])[..|heads|] == heads;
  }

  /** The heads of some selections and of the turns of the nodes, and what they say about node `i`. */
  ghost predicate HeadsMatch(q: Selection, rr: Counters, c: nat, i: nat, ps: seq<Choice>, hs: seq<Choice>) {
    i < |Live(q)| && |ps| == |hs| && HeadsOfSelections(q, rr, ps) && HeadsOfTurns(q, c, hs) &&
    CountOf(ps, Live(q)[i]) == GapCount(hs, Live(q), i, Gap(Live(q), i))
  }

  lemma HeadsMatchSnoc(q: Selection, rr: Counters, c: nat, i: nat, ps: seq<Choice>, hs: seq<Choice>,
                       p: Choice, h: Choice)
    requires HeadsMatch(q, rr, c, i, ps, hs) && NoDuplicates(Live(q))
    requires SelectedHead(q, rr, |ps|, p) && TurnHead(q, c, h)
    requires p == Live(q)[i] <==> InGap(Live(q), i, Gap(Live(q), i), h)
    ensures HeadsMatch(q, rr, c + 1, i, ps + [p], hs + [h])
  {
    SelectionsSnoc(q, rr, ps, p);
    TurnsSnoc(q, c, hs, h);
    CountOfSnoc(ps, p, Live(q)[i]);
    GapCountSnoc(hs, Live(q), i, Gap(Live(q), i), h);
  }

  /** Node `i` leads selection `k` exactly if turn `c` is led by a node of its gap. */
  ghost predicate GapLeads(q: Selection, rr: Counters, i: nat, k: nat, c: nat) {
    i < |Live(q)| &&
    exists p, h :: SelectedHead(q, rr, k, p) && TurnHead(q, c, h) &&
      (p == Live(q)[i] <==> InGap(Live(q), i, Gap(Live(q), i), h))
  }

  /** This holds of the first `k` selections and the `k` turns from turn `start` on. */
  ghost predicate AllGapLeads(q: Selection, rr: Counters, start: nat, k: nat, i: nat) {
    forall j: nat, c: nat :: j < k && c == start + j ==> GapLeads(q, rr, i, j, c)
  }

  lemma GapHeadsNext(q: Selection, rr: Counters, c: nat, i: nat, ps: seq<Choice>, hs: seq<Choice>)
    returns (ps': seq<Choice>, hs': seq<Choice>)
    requires HeadsMatch(q, rr, c, i, ps, hs) && NoDuplicates(Live(q)) && GapLeads(q, rr, i, |ps|, c)
    ensures |ps'| == |ps| + 1 && HeadsMatch(q, rr, c + 1, i, ps', hs')
  {
    var p, h :| SelectedHead(q, rr, |ps|, p) && TurnHead(q, c, h) &&
      (p == Live(q)[i] <==> InGap(Live(q), i, Gap(Live(q), i), h));
    HeadsMatchSnoc(q, rr, c, i, ps, hs, p, h);
    ps', hs' := ps + [p], hs + [h];
  }

  lemma {:induction false} GapHeads(q: Selection, rr: Counters, start: nat, k: nat, i: nat)
    returns (ps: seq<Choice>, hs: seq<Choice>)
    requires i < |Live(q)| && NoDuplicates(Live(q))
    requires AllGapLeads(q, rr, start, k, i)
    ensures |ps| == k && HeadsMatch(q, rr, start + k, i, ps, hs)
  {
    ps, hs := [], [];
    if k == 0 {
      NoHeadsMatch(q, rr, start, i);
    } else {
      ps, hs := GapHeads(q, rr, start, k - 1, i);
      ps, hs := GapHeadsNext(q, rr, start + k - 1, i, ps, hs);
    }
  }

  lemma NoHeadsMatch(q: Selection, rr: Counters, start: nat, i: nat)
    requires i < |Live(q)|
    ensures HeadsMatch(q, rr, start, i, [], [])
  {
    NoHeads(Live(q), i, Gap(Live(q), i));
  }

  lemma {:induction false} NoHeads(s: seq<Choice>, i: nat, g: nat)
    requires i < |s| && g <= |s|
    ensures GapCount([], s, i, g) == 0
  {
    if g > 0 {
      NoHeads(s, i, g - 1);
    }
  }

  /** How many of the nodes in the last `g` places up to `i` an incomplete turn of `rest` steps from `a`
      reaches. */
  function Reached(n: nat, a: nat, i: nat, g: nat, rest: nat): nat
    requires i < n && g <= n
  {
    if g == 0 then 0
    else Reached(n, a, i, g - 1, rest) + (if Ahead(n, a, Back(n, i, g - 1)) < rest then 1 else 0)
  }

  lemma AheadOfBack(n: nat, a: nat, i: nat, h: nat)
    requires a < n && i < n && h < n
    ensures var b := Ahead(n, a, i); Ahead(n, a, Back(n, i, h)) == if h <= b then b - h else b - h + n
  {
  }

  function Least(a: int, b: int): int {
    if a < b then a else b
  }

  function NotNegative(a: int): int {
    if a < 0 then 0 else a
  }

  /** Going back from `i`, the steps first fall to 0 and then come down from `n - 1`. */
  lemma {:induction false} ReachedIs(n: nat, a: nat, i: nat, g: nat, rest: nat)
    requires a < n && i < n && g <= n && rest < n
    ensures var b := Ahead(n, a, i) + 1;
            Reached(n, a, i, g, rest)
            == if g <= b then NotNegative(Least(b, rest) - (b - g)) else Least(b, rest) + NotNegative(rest - n + g - b)
  {
    if g > 0 {
      ReachedIs(n, a, i, g - 1, rest);
      AheadOfBack(n, a, i, g - 1);
    }
  }

  lemma ReachedBounds(n: nat, a: nat, i: nat, g: nat, rest: nat)
    requires a < n && i < n && g <= n && rest < n
    ensures NotNegative(g + rest - n) <= Reached(n, a, i, g, rest) <= Least(g, rest)
  {
    ReachedIs(n, a, i, g, rest);
  }

  /** How often the nodes of a gap lead `k` turns: once each per full turn, and once more those that the
      last incomplete turn reaches. */
  lemma {:induction false} GapShare(q: Selection, start: nat, c: nat, hs: seq<Choice>, i: nat, g: nat,
                                    turns: nat, rest: nat)
    requires i < |Live(q)| && g <= |Live(q)| && NoDuplicates(Live(q))
    requires c == start + |hs| && HeadsOfTurns(q, c, hs)
    requires turns == |hs| / |Live(q)| && rest == |hs| % |Live(q)|
    ensures GapCount(hs, Live(q), i, g)
         == Times(g, turns) + Reached(|Live(q)|, start % |Live(q)|, i, g, rest)
  {
    if g > 0 {
      var j := Back(|Live(q)|, i, g - 1);
      GapShare(q, start, c, hs, i, g - 1, turns, rest);
      TurnsAreCounted(q, start, c, hs, Live(q)[j]);
      TurnsCount(Live(q), start, |hs|, j, q.shuffle);
    }
  }

  lemma EveryGapLeads(q: Selection, rr: Counters, start: nat, k: nat, i: nat)
    requires Valid(q) && PremiumNode(q, i) && start == Count(rr, Key(q))
    ensures AllGapLeads(q, rr, start, k, i)
  {
    forall j: nat, c: nat | j < k && c == start + j
      ensures GapLeads(q, rr, i, j, c)
    {
      var p, h := PremiumFirstOf(q, rr, j, c, i);
    }
  }

  /** With the premium preference, the live premium nodes share the first places by their gaps, the gap
      being the number of nodes from the premium node before it, exclusively, to itself: over `k`
      selections premium node `i` is tried first once per full turn and node of its gap, and once more
      for each node of its gap that the last incomplete turn reaches. */
  lemma PremiumCount(q: Selection, rr: Counters, k: nat, i: nat, turns: nat, rest: nat)
    requires Valid(q) && PremiumNode(q, i) && turns == k / |Live(q)| && rest == k % |Live(q)|
    ensures var n, g, a := |Live(q)|, Gap(Live(q), i), Count(rr, Key(q)) % |Live(q)|;
            TimesSelected(q, rr, k, Live(q)[i]) == g * turns + Reached(n, a, i, g, rest)
  {
    var start := Count(rr, Key(q));
    LiveFacts(q);
    EveryGapLeads(q, rr, start, k, i);
    var ps, hs := GapHeads(q, rr, start, k, i);
    SelectionsCount(q, rr, ps, Live(q)[i]);
    GapShare(q, start, start + k, hs, i, Gap(Live(q), i), turns, rest);
    TimesIsProduct(Gap(Live(q), i), turns);
  }

  /** So it comes first gap times per full turn; in the incomplete turn at most as often as that turn
      and the gap are long, and at least as often as the two must overlap. */
  lemma PremiumShare(q: Selection, rr: Counters, k: nat, i: nat, turns: nat, rest: nat)
    requires Valid(q) && PremiumNode(q, i) && turns == k / |Live(q)| && rest == k % |Live(q)|
    ensures var n, g := |Live(q)|, Gap(Live(q), i);
            g * turns + NotNegative(g + rest - n) <= TimesSelected(q, rr, k, Live(q)[i]) <= g * turns + Least(g, rest)
  {
    PremiumCount(q, rr, k, i, turns, rest);
    ReachedBounds(|Live(q)|, Count(rr, Key(q)) % |Live(q)|, i, Gap(Live(q), i), rest);
  }

  /** After full turns nothing is left over. */
  lemma FullTurns(q: Selection, rr: Counters, m: nat, i: nat)
    requires Valid(q) && PremiumNode(q, i)
    ensures TimesSelected(q, rr, |Live(q)| * m, Live(q)[i]) == Gap(Live(q), i) * m
  {
    TurnsDivide(|Live(q)|, m);
    WholeTurns(q, rr, |Live(q)| * m, m, i);
  }

  lemma TurnsDivide(n: nat, m: nat)
    requires n > 0
    ensures n * m >= 0 && (n * m) / n == m && (n * m) % n == 0
  {
    ProductIsNat(m, n);
    DivMod(n, m, 0);
  }

  lemma WholeTurns(q: Selection, rr: Counters, k: nat, m: nat, i: nat)
    requires Valid(q) && PremiumNode(q, i) && k / |Live(q)| == m && k % |Live(q)| == 0
    ensures TimesSelected(q, rr, k, Live(q)[i]) == Gap(Live(q), i) * m
  {
    PremiumShare(q, rr, k, i, m, 0);
  }

  /** Among the premium nodes this is fair exactly where the gaps are equal. */
  lemma EqualSharesIff(q: Selection, rr: Counters, m: nat, i: nat, j: nat)
    requires Valid(q) && PremiumNode(q, i) && PremiumNode(q, j) && m > 0
    ensures TimesSelected(q, rr, |Live(q)| * m, Live(q)[i]) == TimesSelected(q, rr, |Live(q)| * m, Live(q)[j])
       <==> Gap(Live(q), i) == Gap(Live(q), j)
  {
    FullTurns(q, rr, m, i);
    FullTurns(q, rr, m, j);
    MulStep(Gap(Live(q), i), Gap(Live(q), j), m);
    MulStep(Gap(Live(q), j), Gap(Live(q), i), m);
  }

  lemma GapsOfThree(s: seq<Choice>)
    requires |s| == 3 && s[0].premium && !s[1].premium && s[2].premium
    ensures Gap(s, 0) == 1 && Gap(s, 2) == 2
  {
    assert Back(3, 0, 1) == 2 && Back(3, 2, 1) == 1 && Back(3, 2, 2) == 0;
  }

  /** Unequal shares: of two premium nodes with an ordinary one between them, the second leads twice as
      often as the first. */
  lemma UnevenGaps(q: Selection, rr: Counters, m: nat)
    requires Valid(q) && q.sel.premium && |Live(q)| == 3
    requires Live(q)[0].premium && !Live(q)[1].premium && Live(q)[2].premium
    ensures TimesSelected(q, rr, 3 * m, Live(q)[0]) == m && TimesSelected(q, rr, 3 * m, Live(q)[2]) == 2 * m
  {
    LiveFacts(q);
    OnlyHead(Live(q), 0);
    GapsOfThree(Live(q));
    FullTurns(q, rr, m, 0);
    FullTurns(q, rr, m, 2);
  }

  /** If there are premium templates but no live premium node, the same template always leads. */
  lemma TemplateLeads(q: Selection, rr: Counters, k: nat)
    requires Valid(q) && q.sel.premium && Only(Live(q), true) == []
    requires Only(TemplateList(q.snap, q.region, q.sel), true) != []
    ensures SelectedHead(q, rr, k, Only(TemplateList(q.snap, q.region, q.sel), true)[0])
  {
    var c := Count(rr, Key(q)) + k;
    OwnGroupFirst(q, rr, k, c);
    TurnKeeps(q, c);
    TemplateGroupHead(Turn(q, c), TemplateList(q.snap, q.region, q.sel), q.fallback);
  }

  lemma TemplateGroupHead(entries: seq<Choice>, templates: seq<Choice>, withTemplates: bool)
    requires Only(entries, true) == [] && Only(templates, true) != []
    ensures var m := Merged(entries, [], templates, true, withTemplates); m != [] && m[0] == Only(templates, true)[0]
  {
  }

  // ----- when round-robin is fair -----

  lemma PremiumLeads(q: Selection, rr: Counters, k: nat) returns (head: Choice)
    requires Valid(q) && q.sel.premium && Only(Live(q), true) != []
    ensures SelectedHead(q, rr, k, head) && head.premium
  {
    var c := Count(rr, Key(q)) + k;
    head := PremiumHead(q, rr, k, c);
    OnlyKeeps(Turn(q, c), true);
    assert head in Only(Turn(q, c), true);
  }

  /** As soon as there is anything premium to prefer, a premium choice comes first. */
  lemma PreferredLeads(q: Selection, rr: Counters, k: nat) returns (head: Choice)
    requires Valid(q) && !Plain(q)
    ensures SelectedHead(q, rr, k, head) && head.premium
  {
    if Only(Live(q), true) != [] {
      head := PremiumLeads(q, rr, k);
    } else {
      var templates := TemplateList(q.snap, q.region, q.sel);
      TemplateLeads(q, rr, k);
      OnlyKeeps(templates, true);
      head := Only(templates, true)[0];
      assert head in Only(templates, true);
    }
  }

  ghost predicate PremiumLed(q: Selection, rr: Counters, k: nat) {
    exists head :: SelectedHead(q, rr, k, head) && head.premium
  }

  lemma AllPremiumLed(q: Selection, rr: Counters)
    requires Valid(q) && !Plain(q)
    ensures forall j: nat :: PremiumLed(q, rr, j)
  {
    forall j: nat
      ensures PremiumLed(q, rr, j)
    {
      var head := PreferredLeads(q, rr, j);
    }
  }

  lemma {:induction false} PremiumHeads(q: Selection, rr: Counters, k: nat, x: Choice) returns (heads: seq<Choice>)
    requires !x.premium && forall j: nat :: PremiumLed(q, rr, j)
    ensures |heads| == k && HeadsOfSelections(q, rr, heads) && CountOf(heads, x) == 0
  {
    heads := [];
    if k > 0 {
      var before := PremiumHeads(q, rr, k - 1, x);
      assert PremiumLed(q, rr, k - 1);
      var head :| SelectedHead(q, rr, k - 1, head) && head.premium;
      SelectionsSnoc(q, rr, before, head);
      CountOfSnoc(before, head, x);
      heads := before + [head];
    }
  }

  /** Then an ordinary node never does. */
  lemma OrdinaryNeverLeads(q: Selection, rr: Counters, k: nat, x: Choice)
    requires Valid(q) && !Plain(q) && !x.premium
    ensures TimesSelected(q, rr, k, x) == 0
  {
    AllPremiumLed(q, rr);
    var heads := PremiumHeads(q, rr, k, x);
    SelectionsCount(q, rr, heads, x);
  }

  /** Over `k` selections `x` has its fair share of the first places. */
  ghost predicate FairShare(q: Selection, rr: Counters, k: nat, x: Choice)
    requires Live(q) != []
  {
    var n := |Live(q)|; k / n <= TimesSelected(q, rr, k, x) <= k / n + (if k % n == 0 then 0 else 1)
  }

  /** Every live node has its fair share of the first places, always. */
  ghost predicate AlwaysFair(q: Selection)
    requires Live(q) != []
  {
    forall rr, k, x :: x in Live(q) ==> FairShare(q, rr, k, x)
  }

  lemma GapOfOne(s: seq<Choice>, i: nat)
    requires i < |s| && forall c :: c in s ==> c.premium
    ensures Gap(s, i) == 1
  {
    if |s| > 1 {
      assert s[Back(|s|, i, 1)] in s;
    }
  }

  lemma ShareOfOne(q: Selection, rr: Counters, k: nat, i: nat)
    requires Valid(q) && PremiumNode(q, i) && Gap(Live(q), i) == 1
    ensures FairShare(q, rr, k, Live(q)[i])
  {
    PremiumShare(q, rr, k, i, k / |Live(q)|, k % |Live(q)|);
  }

  lemma AllPremiumIsFair(q: Selection, rr: Counters, k: nat, i: nat)
    requires Valid(q) && q.sel.premium && i < |Live(q)| && forall c :: c in Live(q) ==> c.premium
    ensures FairShare(q, rr, k, Live(q)[i])
  {
    LiveFacts(q);
    OnlyKeeps(Live(q), true);
    assert Live(q)[i] in Only(Live(q), true);
    GapOfOne(Live(q), i);
    ShareOfOne(q, rr, k, i);
  }

  lemma UnfairToOrdinary(q: Selection, rr: Counters, x: Choice)
    requires Valid(q) && !Plain(q) && x in Live(q) && !x.premium
    ensures !FairShare(q, rr, |Live(q)|, x)
  {
    OrdinaryNeverLeads(q, rr, |Live(q)|, x);
  }

  /** Round-robin gives every live node of the class its fair share exactly if nothing premium is
      preferred or all live nodes are premium. */
  lemma FairIff(q: Selection)
    requires Valid(q)
    ensures AlwaysFair(q) <==> Plain(q) || forall c :: c in Live(q) ==> c.premium
  {
    if Plain(q) || forall c :: c in Live(q) ==> c.premium {
      LiveFacts(q);
      forall rr, k, x | x in Live(q)
        ensures FairShare(q, rr, k, x)
      {
        if Plain(q) {
          assert x in Elements(Live(q));
          SelectionIsFair(q, rr, k, x);
        } else {
          var i :| 0 <= i < |Live(q)| && Live(q)[i] == x;
          AllPremiumIsFair(q, rr, k, i);
        }
      }
    } else {
      var x :| x in Live(q) && !x.premium;
      UnfairToOrdinary(q, map[], x);
    }
  }
}
