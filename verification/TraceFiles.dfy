/** The daily trace files (internal/traffic/persistence.go): writing, pruning by whole files and
    loading the newest traces back.  A directory is a map from days to the traces of that day's
    file; every write succeeds. */
module TraceFiles {
  import opened Traces
  import opened TraceLog
  import opened Ordering
  import opened TraceStore
  import opened Wrappers

  type Files = map<int, Log>

  function Lines(files: Files, day: int): Log {
    if day in files then files[day] else []
  }

  /** The directory after pruning at `now`: whole files go, by the date in their name. */
  function Pruned(files: Files, now: int, days: int): Files {
    map d | d in files && d >= FirstDay(now, days) :: files[d]
  }

  /** Opening the file of a new day, as the writer does when the date changes: the file is created
      if it is missing, and the directory is pruned at the time of the trace. */
  function Opened(files: Files, t: Trace, days: int): Files {
    Pruned(files[DayOf(t.timestamp) := Lines(files, DayOf(t.timestamp))], t.timestamp, days)
  }

  function Written(files: Files, currentDay: Option<int>, t: Trace, days: int): Files {
    var day := DayOf(t.timestamp);
    var ready := if currentDay == Some(day) then files else Opened(files, t, days);
    ready[day := Lines(ready, day) + [t]]
  }

  /** The file names in the order in which they are read: "traffic-YYYY-MM-DD.jsonl" sorts by day. */
  predicate DayLess(a: int, b: int) { a < b }

  ghost function DaysOf(files: Files): seq<int> {
    Listing(DayLess, files.Keys)
  }

  function Concat(files: Files, days: seq<int>): Log {
    if days == [] then [] else Concat(files, days[..|days| - 1]) + Lines(files, days[|days| - 1])
  }

  /** All traces on disk, file by file. */
  ghost function OnDisk(files: Files): Log {
    Concat(files, DaysOf(files))
  }

  /** Records without a time are skipped. */
  function Readable(s: Log): Log {
    if s == [] then []
    else Readable(s[..|s| - 1]) + (if s[|s| - 1].timestamp != 0 then [s[|s| - 1]] else [])
  }

  /** A record is read back exactly if it has a time. */
  lemma {:induction false} ReadableIs(s: Log, t: Trace)
    ensures t in Readable(s) <==> t in s && t.timestamp != 0
  {
    if s != [] {
      ReadableIs(s[..|s| - 1], t);
      assert s == s[..|s| - 1] + [s[|s| - 1]];
    }
  }

  ghost function Loaded(files: Files, capacity: nat): Log {
    StableSorted(LastN(Readable(OnDisk(files)), capacity))
  }

  lemma DaysAreOrdered(S: set<int>)
    ensures StrictTotalOn(DayLess, S) && IsListing(DayLess, S, Listing(DayLess, S))
  {
    ListingLists(DayLess, S);
  }

  lemma PrunedIs(all: Files, kept: Files, now: int, days: int)
    requires kept.Keys <= all.Keys && forall d :: d in kept ==> kept[d] == all[d]
    requires forall d :: d in all ==> (d in kept <==> d >= FirstDay(now, days))
    ensures kept == Pruned(all, now, days)
  {
    assert kept.Keys == Pruned(all, now, days).Keys;
  }

  class TraceFiles {
    var files: Files
    var currentDay: Option<int>
    const retentionDays: int

    /** The writer's open file exists. */
    ghost predicate Valid()
      reads this
    {
      retentionDays >= 1 && (currentDay.Some? ==> currentDay.value in files)
    }

    /** newTracePersistence on an existing directory: prunes it. */
    constructor (files: Files, retentionDays: int, now: int)
      requires retentionDays >= 1
      ensures Valid() && this.files == Pruned(files, now, retentionDays) && currentDay == None
      ensures this.retentionDays == retentionDays
    {
      this.files, this.retentionDays, currentDay := files, retentionDays, None;
      new;
      Prune(now);
    }

    /** prune */
    method Prune(now: int)
      modifies this`files
      ensures files == Pruned(old(files), now, retentionDays)
    {
      ghost var all := files;
      var first := FirstDay(now, retentionDays);
      var names := files.Keys;
      while names != {}
        invariant names <= files.Keys <= all.Keys
        invariant forall d :: d in files ==> files[d] == all[d]
        invariant forall d :: d in all && d !in names ==> (d in files <==> d >= first)
        decreases names
      {
        ghost var some := Member(names);
        var day :| day in names;
        names := names - {day};
        if day < first {
          files := files - {day};
        }
      }
      PrunedIs(all, files, now, retentionDays);
    }

    /** run's writeTrace */
    method WriteTrace(t: Trace)
      requires Valid()
      modifies this
      ensures Valid() && files == Written(old(files), old(currentDay), t, retentionDays)
      ensures currentDay == Some(DayOf(t.timestamp))
    {
      var day := DayOf(t.timestamp);
      if currentDay != Some(day) {
        files := files[day := Lines(files, day)];
        currentDay := Some(day);
        Prune(t.timestamp);
      }
      files := files[day := files[day] + [t]];
    }

    /** The trace files of the directory, sorted by name. */
    method FileNames() returns (names: seq<int>)
      ensures names == DaysOf(files)
    {
      names := [];
      var left := files.Keys;
      while left != {}
        invariant left <= files.Keys && NoDuplicates(names)
        invariant Elements(names) == files.Keys - left
        decreases left
      {
        ghost var some := Member(left);
        var day :| day in left;
        Moved(files.Keys, left, day);
        Appended(names, day);
        names, left := names + [day], left - {day};
      }
      NoneLeft(files.Keys);
      DaysAreOrdered(files.Keys);
      names := SortSlice(names, DayLess);
    }

    /** loadRecent: reads the files in order through a window of the newest traces. */
    method LoadRecent(capacity: nat) returns (traces: Log)
      ensures traces == Loaded(files, capacity)
    {
      var names := FileNames();
      var window := new Window(capacity);
      for i := 0 to |names|
        invariant fresh(window) && fresh(window.buf) && window.Valid() && window.capacity == capacity
        invariant window.Contents() == LastN(Readable(Concat(files, names[..i])), capacity)
      {
        ConcatStep(files, names, i);
        ReadFile(window, Lines(files, names[i]), Concat(files, names[..i]));
      }
      assert names[..|names|] == names;
      traces := StableSort(window.Contents());
    }

    /** Its inner loop over the lines of one file. */
    method ReadFile(window: Window, lines: Log, ghost before: Log)
      requires window.Valid() && window.Contents() == LastN(Readable(before), window.capacity)
      modifies window, window.buf
      ensures window.Valid() && window.Contents() == LastN(Readable(before + lines), window.capacity)
    {
      assert before + lines[..0] == before;
      for i := 0 to |lines|
        invariant window.Valid() && window.Contents() == LastN(Readable(before + lines[..i]), window.capacity)
      {
        ReadableStep(before, lines, i);
        LastNSnoc(Readable(before + lines[..i]), lines[i], window.capacity);
        if lines[i].timestamp == 0 {
          continue;
        }
        window.Append(lines[i]);
      }
      assert lines[..|lines|] == lines;
    }
  }

  lemma ConcatStep(files: Files, days: seq<int>, i: nat)
    requires i < |days|
    ensures Concat(files, days[..i + 1]) == Concat(files, days[..i]) + Lines(files, days[i])
  {
    assert days[..i + 1][..i] == days[..i];
  }

  lemma ReadableStep(before: Log, lines: Log, i: nat)
    requires i < |lines|
    ensures var r := Readable(before + lines[..i]);
            Readable(before + lines[..i + 1]) == if lines[i].timestamp != 0 then r + [lines[i]] else r
  {
    var s := before + lines[..i + 1];
    assert s[..|s| - 1] == before + lines[..i] && s[|s| - 1] == lines[i];
  }

  lemma LastNSnoc(s: Log, t: Trace, n: nat)
    ensures LastN(LastN(s, n) + [t], n) == LastN(s + [t], n)
  {
  }
}
