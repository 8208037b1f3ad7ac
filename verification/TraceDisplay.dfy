/** The display rows of a trace list (internal/traffic/store.go, displayTraces): one row for every
    lone trace and one for every group, proved to lose nothing and to agree with the metrics. */
module TraceDisplay {
  import opened Text
  import opened Traces
  import opened TraceLog
  import opened TraceGroups
  import opened TraceReductions

  datatype Row = Row(
    trace: Trace, groupKey: string, groupTarget: string, groupCount: int, excluded: bool, children: Log)

  /** The key under which a trace is grouped; empty if it stands alone. */
  ghost function GroupKey(g: Grouping, t: Trace): string {
    match EventOf(g, t)
    case Folded(key) => key
    case Repeated(key) => key
    case LoneFailure => ""
    case Success => ""
  }

  ghost function GroupTarget(g: Grouping, t: Trace): string {
    match EventOf(g, t)
    case Folded(_) => FoldTarget(g.lib.parse(TrimSpace(t.url)).url)
    case Repeated(_) => FailureTarget(g, t)
    case LoneFailure => ""
    case Success => ""
  }

  lemma KeyedExactly(g: Grouping, t: Trace)
    ensures GroupKey(g, t) != "" <==> EventOf(g, t).Folded? || EventOf(g, t).Repeated?
  {
    if Folds(g, t) {
      FoldKeyIsNotEmpty(t, FoldTarget(g.lib.parse(TrimSpace(t.url)).url));
    }
  }

  /** The row that a trace opens. */
  ghost function OpenRow(g: Grouping, t: Trace): Row {
    Row(t, GroupKey(g, t), GroupTarget(g, t), 1, EventOf(g, t).Folded?, if GroupKey(g, t) == "" then [] else [t])
  }

  /** Where the row with a key is, or -1. */
  function Find(rows: seq<Row>, key: string): (i: int)
    ensures -1 <= i < |rows| && (i >= 0 ==> rows[i].groupKey == key)
  {
    if rows == [] then -1
    else
      var i := Find(rows[..|rows| - 1], key);
      if i >= 0 then i else if rows[|rows| - 1].groupKey == key then |rows| - 1 else -1
  }

  function Joined(rows: seq<Row>, i: nat, t: Trace): seq<Row>
    requires i < |rows|
  {
    rows[i := rows[i].(groupCount := rows[i].groupCount + 1, children := rows[i].children + [t])]
  }

  ghost function Placed(g: Grouping, rows: seq<Row>, t: Trace): seq<Row> {
    var key := GroupKey(g, t);
    if key == "" || Find(rows, key) < 0 then rows + [OpenRow(g, t)] else Joined(rows, Find(rows, key), t)
  }

  ghost function Grouped(g: Grouping, L: Log): seq<Row> {
    if L == [] then [] else Placed(g, Grouped(g, L[..|L| - 1]), L[|L| - 1])
  }

  /** A group of one is shown without children. */
  function Trimmed(r: Row): Row {
    if r.groupCount <= 1 then r.(children := []) else r
  }

  function TrimmedAll(rows: seq<Row>): (r: seq<Row>)
    ensures |r| == |rows| && forall i :: 0 <= i < |rows| ==> r[i] == Trimmed(rows[i])
  {
    seq(|rows|, i requires 0 <= i < |rows| => Trimmed(rows[i]))
  }

  ghost function Display(g: Grouping, L: Log): seq<Row> {
    TrimmedAll(Grouped(g, L))
  }

  // ----- the index -----

  lemma FindSnoc(rows: seq<Row>, r: Row, key: string)
    ensures Find(rows + [r], key)
         == if Find(rows, key) >= 0 then Find(rows, key) else if r.groupKey == key then |rows| else -1
  {
    assert (rows + [r])[..|rows|] == rows;
  }

  lemma {:induction false} FindJoined(rows: seq<Row>, i: nat, t: Trace, key: string)
    requires i < |rows|
    ensures Find(Joined(rows, i, t), key) == Find(rows, key)
  {
    var front, joined := rows[..|rows| - 1], Joined(rows, i, t);
    if i < |front| {
      FindJoined(front, i, t, key);
      assert joined[..|rows| - 1] == Joined(front, i, t);
    } else {
      assert joined[..|rows| - 1] == front;
    }
  }

  /** The map from keys to rows that the code maintains. */
  ghost predicate Indexes(index: map<string, nat>, rows: seq<Row>) {
    forall key :: key != "" ==>
      (key in index <==> Find(rows, key) >= 0) && (key in index ==> index[key] == Find(rows, key))
  }

  lemma IndexesOpened(index: map<string, nat>, rows: seq<Row>, r: Row)
    requires Indexes(index, rows)
    ensures r.groupKey == "" ==> Indexes(index, rows + [r])
    ensures r.groupKey != "" && r.groupKey !in index ==> Indexes(index[r.groupKey := |rows|], rows + [r])
  {
    forall key: string
      ensures Find(rows + [r], key)
           == if Find(rows, key) >= 0 then Find(rows, key) else if r.groupKey == key then |rows| else -1
    {
      FindSnoc(rows, r, key);
    }
  }

  lemma IndexesJoined(index: map<string, nat>, rows: seq<Row>, i: nat, t: Trace)
    requires i < |rows| && Indexes(index, rows)
    ensures Indexes(index, Joined(rows, i, t))
  {
    forall key: string
      ensures Find(Joined(rows, i, t), key) == Find(rows, key)
    {
      FindJoined(rows, i, t, key);
    }
  }

  // ----- displayTraces -----

  method DisplayTraces(g: Grouping, L: Log) returns (rows: seq<Row>)
    ensures rows == Display(g, L)
  {
    rows := [];
    var index: map<string, nat> := map[];
    for n := 0 to |L|
      invariant rows == Grouped(g, L[..n]) && Indexes(index, rows)
    {
      assert L[..n + 1][..n] == L[..n];
      rows, index := Place(g, rows, index, L[n]);
    }
    assert L[..|L|] == L;
    rows := TrimRows(rows);
  }

  /** Its last loop. */
  method TrimRows(grouped: seq<Row>) returns (rows: seq<Row>)
    ensures rows == TrimmedAll(grouped)
  {
    rows := grouped;
    for i := 0 to |rows|
      invariant |rows| == |grouped|
      invariant forall j :: 0 <= j < |rows| ==> rows[j] == if j < i then Trimmed(grouped[j]) else grouped[j]
    {
      if rows[i].groupCount <= 1 {
        rows := rows[i := rows[i].(children := [])];
      }
    }
  }

  /** The body of its loop. */
  method Place(g: Grouping, rows: seq<Row>, index: map<string, nat>, t: Trace)
    returns (rows': seq<Row>, index': map<string, nat>)
    requires Indexes(index, rows)
    ensures rows' == Placed(g, rows, t) && Indexes(index', rows')
  {
    KeyedExactly(g, t);
    rows', index' := rows, index;
    var key, target, folded := SuccessFoldGroup(g, t);
    if !folded {
      if !IsFailure(t) {
        IndexesOpened(index, rows, OpenRow(g, t));
        rows' := rows + [Row(t, "", "", 1, false, [])];
        return;
      }
      key := FailureGroupKey(g, t);
      if key == "" {
        IndexesOpened(index, rows, OpenRow(g, t));
        rows' := rows + [Row(t, "", "", 1, false, [])];
        return;
      }
      target := FailureGroupTarget(g, t);
    }
    if key in index {
      IndexesJoined(index, rows, index[key], t);
      rows' := Joined(rows, index[key], t);
      return;
    }
    IndexesOpened(index, rows, OpenRow(g, t));
    index' := index[key := |rows|];
    rows' := rows + [Row(t, key, target, 1, folded, [t])];
  }

  // ----- what the rows are -----

  /** The traces with a key, in order. */
  ghost function Members(g: Grouping, L: Log, key: string): Log {
    if L == [] then []
    else Members(g, L[..|L| - 1], key) + (if GroupKey(g, L[|L| - 1]) == key then [L[|L| - 1]] else [])
  }

  lemma MembersSnoc(g: Grouping, L: Log, t: Trace, key: string)
    ensures Members(g, L + [t], key) == Members(g, L, key) + (if GroupKey(g, t) == key then [t] else [])
  {
    assert (L + [t])[..|L|] == L;
  }

  /** A grouped row stands for all traces with its key and shows the first of them; a row without a
      key stands for its trace alone. */
  ghost predicate RowIs(g: Grouping, L: Log, r: Row) {
    r.groupKey == GroupKey(g, r.trace) && r.groupTarget == GroupTarget(g, r.trace) &&
    (r.excluded <==> EventOf(g, r.trace).Folded?) &&
    if r.groupKey == "" then r.groupCount == 1 && r.children == []
    else r.children == Members(g, L, r.groupKey) && r.groupCount == |r.children| >= 1 && r.trace == r.children[0]
  }

  ghost predicate RowsAre(g: Grouping, L: Log, rows: seq<Row>) {
    forall i :: 0 <= i < |rows| ==> RowIs(g, L, rows[i])
  }

  /** A row with a key is the one that is found under it, so no two rows share a key. */
  ghost predicate OneRowPerKey(rows: seq<Row>) {
    forall i :: 0 <= i < |rows| && rows[i].groupKey != "" ==> Find(rows, rows[i].groupKey) == i
  }

  /** Exactly the keys that occur have a row. */
  ghost predicate KeysCovered(g: Grouping, L: Log, rows: seq<Row>) {
    forall key :: key != "" ==> (Find(rows, key) >= 0 <==> Members(g, L, key) != [])
  }

  ghost predicate KeysFound(g: Grouping, L: Log, rows: seq<Row>) {
    OneRowPerKey(rows) && KeysCovered(g, L, rows)
  }

  lemma RowElsewhere(g: Grouping, L: Log, t: Trace, r: Row)
    requires RowIs(g, L, r) && (r.groupKey == "" || r.groupKey != GroupKey(g, t))
    ensures RowIs(g, L + [t], r)
  {
    MembersSnoc(g, L, t, r.groupKey);
    assert Members(g, L, r.groupKey) + [] == Members(g, L, r.groupKey);
  }

  lemma RowJoined(g: Grouping, L: Log, t: Trace, r: Row)
    requires RowIs(g, L, r) && r.groupKey != "" && r.groupKey == GroupKey(g, t)
    ensures RowIs(g, L + [t], r.(groupCount := r.groupCount + 1, children := r.children + [t]))
  {
    MembersSnoc(g, L, t, r.groupKey);
  }

  lemma RowOpened(g: Grouping, L: Log, t: Trace)
    requires GroupKey(g, t) != "" ==> Members(g, L, GroupKey(g, t)) == []
    ensures RowIs(g, L + [t], OpenRow(g, t))
  {
    MembersSnoc(g, L, t, GroupKey(g, t));
    KeyedExactly(g, t);
    assert [] + [t] == [t];
  }

  lemma RowsJoined(g: Grouping, L: Log, rows: seq<Row>, t: Trace)
    requires RowsAre(g, L, rows) && KeysFound(g, L, rows) && GroupKey(g, t) != "" && Find(rows, GroupKey(g, t)) >= 0
    ensures RowsAre(g, L + [t], Joined(rows, Find(rows, GroupKey(g, t)), t))
  {
    var k := Find(rows, GroupKey(g, t));
    var joined := Joined(rows, k, t);
    forall i | 0 <= i < |joined|
      ensures RowIs(g, L + [t], joined[i])
    {
      if i == k {
        RowJoined(g, L, t, rows[k]);
      } else {
        assert joined[i] == rows[i];
        RowElsewhere(g, L, t, rows[i]);
      }
    }
  }

  lemma RowsOpened(g: Grouping, L: Log, rows: seq<Row>, t: Trace)
    requires RowsAre(g, L, rows) && KeysFound(g, L, rows)
    requires GroupKey(g, t) != "" ==> Find(rows, GroupKey(g, t)) < 0
    ensures RowsAre(g, L + [t], rows + [OpenRow(g, t)])
  {
    var grown := rows + [OpenRow(g, t)];
    forall i | 0 <= i < |grown|
      ensures RowIs(g, L + [t], grown[i])
    {
      if i < |rows| {
        RowElsewhere(g, L, t, rows[i]);
      } else {
        RowOpened(g, L, t);
      }
    }
  }

  lemma KeysJoined(g: Grouping, L: Log, rows: seq<Row>, t: Trace, k: nat)
    requires KeysFound(g, L, rows) && GroupKey(g, t) != "" && k == Find(rows, GroupKey(g, t))
    ensures KeysFound(g, L + [t], Joined(rows, k, t))
  {
    forall key: string
      ensures Find(Joined(rows, k, t), key) == Find(rows, key)
      ensures Members(g, L + [t], key) == Members(g, L, key) + (if GroupKey(g, t) == key then [t] else [])
    {
      FindJoined(rows, k, t, key);
      MembersSnoc(g, L, t, key);
    }
  }

  lemma OneRowOpened(rows: seq<Row>, r: Row)
    requires OneRowPerKey(rows) && (r.groupKey != "" ==> Find(rows, r.groupKey) < 0)
    ensures OneRowPerKey(rows + [r])
  {
    var grown := rows + [r];
    forall i | 0 <= i < |grown| && grown[i].groupKey != ""
      ensures Find(grown, grown[i].groupKey) == i
    {
      FindSnoc(rows, r, grown[i].groupKey);
    }
  }

  lemma KeysOpened(g: Grouping, L: Log, rows: seq<Row>, t: Trace, r: Row)
    requires KeysFound(g, L, rows) && r.groupKey == GroupKey(g, t)
    requires r.groupKey != "" ==> Find(rows, r.groupKey) < 0
    ensures KeysFound(g, L + [t], rows + [r])
  {
    OneRowOpened(rows, r);
    forall key | key != ""
      ensures Find(rows + [r], key) >= 0 <==> Members(g, L + [t], key) != []
    {
      FindSnoc(rows, r, key);
      MembersSnoc(g, L, t, key);
    }
  }

  lemma PlacedKeeps(g: Grouping, L: Log, rows: seq<Row>, t: Trace)
    requires RowsAre(g, L, rows) && KeysFound(g, L, rows)
    ensures RowsAre(g, L + [t], Placed(g, rows, t)) && KeysFound(g, L + [t], Placed(g, rows, t))
  {
    var key := GroupKey(g, t);
    if key == "" || Find(rows, key) < 0 {
      RowsOpened(g, L, rows, t);
      KeysOpened(g, L, rows, t, OpenRow(g, t));
    } else {
      RowsJoined(g, L, rows, t);
      KeysJoined(g, L, rows, t, Find(rows, key));
    }
  }

  lemma {:induction false} GroupedIs(g: Grouping, L: Log)
    ensures RowsAre(g, L, Grouped(g, L)) && KeysFound(g, L, Grouped(g, L))
  {
    if L != [] {
      var front, t := L[..|L| - 1], L[|L| - 1];
      GroupedIs(g, front);
      PlacedKeeps(g, front, Grouped(g, front), t);
      assert front + [t] == L;
    }
  }

  // ----- nothing is lost -----

  /** Trimming hides the list of a group of one, whose only member is the shown trace. */
  ghost predicate ShownRowIs(g: Grouping, L: Log, r: Row) {
    r.groupKey == GroupKey(g, r.trace) && r.groupTarget == GroupTarget(g, r.trace) &&
    (r.excluded <==> EventOf(g, r.trace).Folded?) &&
    if r.groupCount == 1 then r.children == [] && (r.groupKey == "" || Members(g, L, r.groupKey) == [r.trace])
    else r.groupKey != "" && r.children == Members(g, L, r.groupKey) && r.groupCount == |r.children| > 1 &&
         r.trace == r.children[0]
  }

  /** The rows that need no group: the traces of lone failures and successes, in order. */
  ghost function Alone(rows: seq<Row>): Log {
    if rows == [] then []
    else Alone(rows[..|rows| - 1]) + (if rows[|rows| - 1].groupKey == "" then [rows[|rows| - 1].trace] else [])
  }

  lemma AloneSnoc(rows: seq<Row>, r: Row)
    ensures Alone(rows + [r]) == Alone(rows) + (if r.groupKey == "" then [r.trace] else [])
  {
    assert (rows + [r])[..|rows|] == rows;
  }

  lemma {:induction false} AloneSame(rows: seq<Row>, other: seq<Row>)
    requires |rows| == |other|
    requires forall i :: 0 <= i < |rows| ==> rows[i].groupKey == other[i].groupKey && rows[i].trace == other[i].trace
    ensures Alone(rows) == Alone(other)
  {
    if rows != [] {
      AloneSame(rows[..|rows| - 1], other[..|rows| - 1]);
    }
  }

  lemma {:induction false} FindSame(rows: seq<Row>, other: seq<Row>, key: string)
    requires |rows| == |other| && forall i :: 0 <= i < |rows| ==> rows[i].groupKey == other[i].groupKey
    ensures Find(rows, key) == Find(other, key)
  {
    if rows != [] {
      FindSame(rows[..|rows| - 1], other[..|rows| - 1], key);
    }
  }

  lemma {:induction false} GroupedAlone(g: Grouping, L: Log)
    ensures Alone(Grouped(g, L)) == Members(g, L, "")
  {
    if L != [] {
      var front, t := L[..|L| - 1], L[|L| - 1];
      var rows := Grouped(g, front);
      GroupedAlone(g, front);
      AloneSnoc(rows, OpenRow(g, t));
      if GroupKey(g, t) != "" && Find(rows, GroupKey(g, t)) >= 0 {
        AloneSame(rows, Joined(rows, Find(rows, GroupKey(g, t)), t));
      }
    }
  }

  lemma TrimmedRowIs(g: Grouping, L: Log, r: Row)
    requires RowIs(g, L, r)
    ensures ShownRowIs(g, L, Trimmed(r))
  {
    if r.groupKey != "" && r.groupCount == 1 {
      assert r.children == [r.trace];
    }
  }

  lemma TrimmedKeys(g: Grouping, L: Log, rows: seq<Row>)
    requires KeysFound(g, L, rows)
    ensures KeysFound(g, L, TrimmedAll(rows))
  {
    forall key: string
      ensures Find(rows, key) == Find(TrimmedAll(rows), key)
    {
      FindSame(rows, TrimmedAll(rows), key);
    }
  }

  /** The rows are exactly the lone traces, in order, and one row for every key, which stands for
      all traces with that key. */
  lemma DisplayIs(g: Grouping, L: Log)
    ensures forall i :: 0 <= i < |Display(g, L)| ==> ShownRowIs(g, L, Display(g, L)[i])
    ensures KeysFound(g, L, Display(g, L)) && Alone(Display(g, L)) == Members(g, L, "")
  {
    var rows, shown := Grouped(g, L), Display(g, L);
    GroupedIs(g, L);
    GroupedAlone(g, L);
    AloneSame(rows, shown);
    TrimmedKeys(g, L, rows);
    forall i | 0 <= i < |shown|
      ensures ShownRowIs(g, L, shown[i])
    {
      TrimmedRowIs(g, L, rows[i]);
    }
  }

  ghost function SumOfCounts(rows: seq<Row>): int {
    if rows == [] then 0 else SumOfCounts(rows[..|rows| - 1]) + rows[|rows| - 1].groupCount
  }

  lemma SumSnoc(rows: seq<Row>, r: Row)
    ensures SumOfCounts(rows + [r]) == SumOfCounts(rows) + r.groupCount
  {
    assert (rows + [r])[..|rows|] == rows;
  }

  lemma {:induction false} SumJoined(rows: seq<Row>, i: nat, t: Trace)
    requires i < |rows|
    ensures SumOfCounts(Joined(rows, i, t)) == SumOfCounts(rows) + 1
  {
    var front, joined := rows[..|rows| - 1], Joined(rows, i, t);
    if i < |front| {
      SumJoined(front, i, t);
      assert joined[..|rows| - 1] == Joined(front, i, t);
    } else {
      assert joined[..|rows| - 1] == front;
    }
  }

  lemma {:induction false} SumSame(rows: seq<Row>, other: seq<Row>)
    requires |rows| == |other| && forall i :: 0 <= i < |rows| ==> rows[i].groupCount == other[i].groupCount
    ensures SumOfCounts(rows) == SumOfCounts(other)
  {
    if rows != [] {
      SumSame(rows[..|rows| - 1], other[..|rows| - 1]);
    }
  }

  lemma {:induction false} GroupedCounts(g: Grouping, L: Log)
    ensures SumOfCounts(Grouped(g, L)) == |L|
  {
    if L != [] {
      var rows, t := Grouped(g, L[..|L| - 1]), L[|L| - 1];
      GroupedCounts(g, L[..|L| - 1]);
      SumSnoc(rows, OpenRow(g, t));
      if GroupKey(g, t) != "" && Find(rows, GroupKey(g, t)) >= 0 {
        SumJoined(rows, Find(rows, GroupKey(g, t)), t);
      }
    }
  }

  /** The group counts add up to the number of traces, always. */
  lemma CountsAddUp(g: Grouping, L: Log)
    ensures SumOfCounts(Display(g, L)) == |L|
  {
    GroupedCounts(g, L);
    SumSame(Grouped(g, L), Display(g, L));
  }

  // ----- rows and metrics -----

  /** The rows that count. */
  ghost function Counted(rows: seq<Row>): nat {
    if rows == [] then 0 else Counted(rows[..|rows| - 1]) + (if rows[|rows| - 1].excluded then 0 else 1)
  }

  lemma CountedSnoc(rows: seq<Row>, r: Row)
    ensures Counted(rows + [r]) == Counted(rows) + (if r.excluded then 0 else 1)
  {
    assert (rows + [r])[..|rows|] == rows;
  }

  lemma {:induction false} CountedSame(rows: seq<Row>, other: seq<Row>)
    requires |rows| == |other| && forall i :: 0 <= i < |rows| ==> rows[i].excluded == other[i].excluded
    ensures Counted(rows) == Counted(other)
  {
    if rows != [] {
      CountedSame(rows[..|rows| - 1], other[..|rows| - 1]);
    }
  }

  /** A failure key that a folded success uses first: its row is excluded from the metrics. */
  ghost predicate IsHidden(g: Grouping, L: Log, key: string) {
    key in FailureKeys(g, L) && Members(g, L, key) != [] && EventOf(g, Members(g, L, key)[0]).Folded?
  }

  ghost function Hidden(g: Grouping, L: Log): set<string> {
    set key | key in FailureKeys(g, L) && IsHidden(g, L, key)
  }

  lemma {:induction false} FailureKeysAreMembers(g: Grouping, L: Log, key: string)
    ensures key in FailureKeys(g, L) ==> Members(g, L, key) != []
    ensures key !in FailureKeys(g, L) && key != "" ==>
              forall i :: 0 <= i < |Members(g, L, key)| ==> EventOf(g, Members(g, L, key)[i]).Folded?
  {
    if L != [] {
      FailureKeysAreMembers(g, L[..|L| - 1], key);
      KeyedExactly(g, L[|L| - 1]);
    }
  }

  /** A new trace hides a key only if it is the first failure under a key that a folded success has. */
  ghost predicate Hides(g: Grouping, L: Log, t: Trace) {
    var e := EventOf(g, t);
    e.Repeated? && e.key !in FailureKeys(g, L) && Members(g, L, e.key) != []
  }

  lemma HiddenSnocKey(g: Grouping, L: Log, t: Trace, key: string)
    ensures IsHidden(g, L + [t], key) <==> IsHidden(g, L, key) || (Hides(g, L, t) && key == EventOf(g, t).key)
  {
    KeysSnoc(g, L, t);
    MembersSnoc(g, L, t, key);
    KeyedExactly(g, t);
    FailureKeysAreMembers(g, L, key);
  }

  lemma HiddenSnoc(g: Grouping, L: Log, t: Trace)
    ensures |Hidden(g, L + [t])| == |Hidden(g, L)| + (if Hides(g, L, t) then 1 else 0)
  {
    var e := EventOf(g, t);
    var extra := if Hides(g, L, t) then {e.key} else {};
    KeysSnoc(g, L, t);
    forall key: string
      ensures key in Hidden(g, L + [t]) <==> key in Hidden(g, L) + extra
    {
      HiddenSnocKey(g, L, t, key);
    }
    assert Hidden(g, L + [t]) == Hidden(g, L) + extra;
    assert Hides(g, L, t) ==> e.key !in Hidden(g, L);
  }

  ghost predicate Opens(g: Grouping, rows: seq<Row>, t: Trace) {
    GroupKey(g, t) == "" || Find(rows, GroupKey(g, t)) < 0
  }

  lemma PlacedCounted(g: Grouping, rows: seq<Row>, t: Trace)
    ensures Counted(Placed(g, rows, t))
         == Counted(rows) + (if Opens(g, rows, t) && !EventOf(g, t).Folded? then 1 else 0)
  {
    var key := GroupKey(g, t);
    if key == "" || Find(rows, key) < 0 {
      CountedSnoc(rows, OpenRow(g, t));
    } else {
      CountedSame(rows, Joined(rows, Find(rows, key), t));
    }
  }

  lemma OpensOrHides(g: Grouping, L: Log, rows: seq<Row>, t: Trace)
    requires KeysCovered(g, L, rows)
    ensures (Opens(g, rows, t) && !EventOf(g, t).Folded?) || Hides(g, L, t)
       <==> EventOf(g, t).Success? || IsFirst(g, L, t)
    ensures Hides(g, L, t) ==> !Opens(g, rows, t)
  {
    KeyedExactly(g, t);
    FailureKeysAreMembers(g, L, GroupKey(g, t));
  }

  ghost predicate Balanced(g: Grouping, L: Log, rows: seq<Row>) {
    Counted(rows) + |Hidden(g, L)| == Requests(g, L)
  }

  lemma CountedStep(g: Grouping, L: Log, rows: seq<Row>, t: Trace)
    requires KeysFound(g, L, rows) && Balanced(g, L, rows)
    ensures Balanced(g, L + [t], Placed(g, rows, t))
  {
    OpensOrHides(g, L, rows, t);
    PlacedCounted(g, rows, t);
    HiddenSnoc(g, L, t);
    FailuresSnoc(g, L, t);
  }

  lemma BalancedNothing(g: Grouping)
    ensures Balanced(g, [], [])
  {
    assert Hidden(g, []) == {};
  }

  lemma BalancedStep(g: Grouping, front: Log, rows: seq<Row>, t: Trace, L: Log, placed: seq<Row>)
    requires L == front + [t] && placed == Placed(g, rows, t)
    requires KeysFound(g, front, rows) && Balanced(g, front, rows)
    ensures Balanced(g, L, placed)
  {
    CountedStep(g, front, rows, t);
  }

  lemma FrontAndLast(L: Log)
    requires L != []
    ensures L == L[..|L| - 1] + [L[|L| - 1]]
  {
  }

  lemma {:induction false} GroupedCounted(g: Grouping, L: Log)
    ensures Balanced(g, L, Grouped(g, L))
  {
    if L == [] {
      BalancedNothing(g);
    } else {
      GroupedCounted(g, L[..|L| - 1]);
      GroupedIs(g, L[..|L| - 1]);
      FrontAndLast(L);
      BalancedStep(g, L[..|L| - 1], Grouped(g, L[..|L| - 1]), L[|L| - 1], L, Grouped(g, L));
    }
  }

  /** Rows that count, and failure groups hidden behind a folded success, make up the effective
      requests. */
  lemma RowsAndHiddenAreRequests(g: Grouping, L: Log)
    ensures Counted(Display(g, L)) + |Hidden(g, L)| == Requests(g, L)
  {
    GroupedCounted(g, L);
    CountedSame(Grouped(g, L), Display(g, L));
  }

  /** The display agrees with the metrics exactly when no failure key was used by a folded success
      that is newer than all failures with that key. */
  lemma DisplayAgreesIff(g: Grouping, L: Log)
    ensures Counted(Display(g, L)) == Requests(g, L) <==> forall key :: !IsHidden(g, L, key)
  {
    RowsAndHiddenAreRequests(g, L);
    if forall key :: !IsHidden(g, L, key) {
      assert Hidden(g, L) == {};
    } else {
      var key :| IsHidden(g, L, key);
      assert key in Hidden(g, L);
    }
  }
}
