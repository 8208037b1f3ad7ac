/** Sorting without ties.  A comparator that orders a set strictly and totally has exactly one
    sorted listing of it, so a list sorted from a map's entries does not depend on the order in
    which the map is walked. */
module Ordering {

  ghost predicate StrictTotalOn<T(!new)>(less: (T, T) -> bool, S: set<T>) {
    (forall x :: x in S ==> !less(x, x)) &&
    (forall x, y :: x in S && y in S && x != y ==> less(x, y) || less(y, x)) &&
    (forall x, y, z :: x in S && y in S && z in S && less(x, y) && less(y, z) ==> less(x, z))
  }

  ghost predicate Ascending<T>(less: (T, T) -> bool, s: seq<T>) {
    forall i, j :: 0 <= i < j < |s| ==> less(s[i], s[j])
  }

  function Elements<T>(s: seq<T>): set<T> {
    set x | x in s
  }

  /** `s` lists the elements of `S` in ascending order. */
  ghost predicate IsListing<T>(less: (T, T) -> bool, S: set<T>, s: seq<T>) {
    Elements(s) == S && Ascending(less, s)
  }

  ghost predicate NoDuplicates<T>(s: seq<T>) {
    forall i, j :: 0 <= i < j < |s| ==> s[i] != s[j]
  }

  /** The ascending listing of a set. */
  ghost function Listing<T(!new)>(less: (T, T) -> bool, S: set<T>): seq<T> {
    if exists s :: IsListing(less, S, s) then
      var s :| IsListing(less, S, s); s
    else []
  }

  lemma ElementsSplit<T>(s: seq<T>)
    requires s != []
    ensures Elements(s) == {s[0]} + Elements(s[1..])
  {
    assert s == [s[0]] + s[1..];
  }

  lemma EmptyHasNoElements<T>(s: seq<T>)
    ensures s == [] <==> Elements(s) == {}
  {
    if s != [] {
      assert s[0] in Elements(s);
    }
  }

  lemma AscendingHasNoDuplicates<T(!new)>(less: (T, T) -> bool, S: set<T>, s: seq<T>)
    requires StrictTotalOn(less, S) && IsListing(less, S, s)
    ensures NoDuplicates(s)
  {
    forall i, j | 0 <= i < j < |s|
      ensures s[i] != s[j]
    {
      assert s[i] in Elements(s) && less(s[i], s[j]);
    }
  }

  lemma HeadIsLeast<T(!new)>(less: (T, T) -> bool, S: set<T>, s: seq<T>)
    requires StrictTotalOn(less, S) && IsListing(less, S, s) && s != []
    ensures s[0] in S && forall x :: x in S && x != s[0] ==> less(s[0], x)
    ensures IsListing(less, S - {s[0]}, s[1..])
  {
    ElementsSplit(s);
    AscendingHasNoDuplicates(less, S, s);
    assert s[0] !in s[1..];
  }

  /** Two ascending listings of the same set are equal. */
  lemma {:induction false} ListingIsUnique<T(!new)>(less: (T, T) -> bool, S: set<T>, s: seq<T>, t: seq<T>)
    requires StrictTotalOn(less, S) && IsListing(less, S, s) && IsListing(less, S, t)
    ensures s == t
    decreases |s|
  {
    EmptyHasNoElements(s);
    EmptyHasNoElements(t);
    if s != [] {
      HeadIsLeast(less, S, s);
      HeadIsLeast(less, S, t);
      assert s[0] == t[0];
      ListingIsUnique(less, S - {s[0]}, s[1..], t[1..]);
      assert s == [s[0]] + s[1..] && t == [t[0]] + t[1..];
    }
  }

  lemma ListingIs<T(!new)>(less: (T, T) -> bool, S: set<T>, s: seq<T>)
    requires StrictTotalOn(less, S) && IsListing(less, S, s)
    ensures Listing(less, S) == s
  {
    ListingIsUnique(less, S, s, Listing(less, S));
  }

  /** Where to insert `x`: before the first element that is not smaller. */
  function Slot<T>(less: (T, T) -> bool, s: seq<T>, x: T): (k: nat)
    ensures k <= |s| && (forall i :: 0 <= i < k ==> less(s[i], x)) && (k < |s| ==> !less(s[k], x))
  {
    if s != [] && less(s[0], x) then 1 + Slot(less, s[1..], x) else 0
  }

  /** Inserting a new element before the first larger one keeps a listing ascending. */
  function Inserted<T>(less: (T, T) -> bool, s: seq<T>, x: T): seq<T> {
    var k := Slot(less, s, x); s[..k] + [x] + s[k..]
  }

  lemma InsertedElements<T>(less: (T, T) -> bool, s: seq<T>, x: T)
    ensures Elements(Inserted(less, s, x)) == Elements(s) + {x}
  {
    var k := Slot(less, s, x);
    var r := Inserted(less, s, x);
    assert s == s[..k] + s[k..];
    assert forall y :: y in r <==> y == x || y in s;
  }

  lemma InsertKeepsListing<T(!new)>(less: (T, T) -> bool, S: set<T>, s: seq<T>, x: T)
    requires StrictTotalOn(less, S + {x}) && IsListing(less, S, s) && x !in S
    ensures IsListing(less, S + {x}, Inserted(less, s, x))
  {
    var k, r := Slot(less, s, x), Inserted(less, s, x);
    InsertedElements(less, s, x);
    forall i | k <= i < |s|
      ensures less(x, s[i])
    {
      assert s[k] in Elements(s) && s[i] in Elements(s);
      assert less(x, s[k]);
    }
    forall i, j | 0 <= i < j < |r|
      ensures less(r[i], r[j])
    {
      var i', j' := if i < k then i else i - 1, if j < k then j else j - 1;
      assert i != k ==> r[i] == s[i'];
      assert j != k ==> r[j] == s[j'];
    }
  }

  /** Every set that the comparator orders strictly and totally has a listing. */
  lemma {:induction false} ListingExists<T(!new)>(less: (T, T) -> bool, S: set<T>) returns (s: seq<T>)
    requires StrictTotalOn(less, S)
    ensures IsListing(less, S, s)
    decreases |S|
  {
    s := [];
    if S != {} {
      var x :| x in S;
      s := ListingExists(less, S - {x});
      InsertKeepsListing(less, S - {x}, s, x);
      assert S - {x} + {x} == S;
      s := Inserted(less, s, x);
    }
  }

  lemma ListingLists<T(!new)>(less: (T, T) -> bool, S: set<T>)
    requires StrictTotalOn(less, S)
    ensures IsListing(less, S, Listing(less, S))
  {
    var s := ListingExists(less, S);
  }

  /** sort.Slice and sort.SliceStable on a list without ties: the unique ascending listing. */
  method SortSlice<T(!new)>(s: seq<T>, less: (T, T) -> bool) returns (r: seq<T>)
    requires NoDuplicates(s) && StrictTotalOn(less, Elements(s))
    ensures r == Listing(less, Elements(s))
  {
    r := [];
    for n := 0 to |s|
      invariant IsListing(less, Elements(s[..n]), r)
    {
      assert Elements(s[..n + 1]) == Elements(s[..n]) + {s[n]};
      assert Elements(s[..n + 1]) <= Elements(s);
      InsertKeepsListing(less, Elements(s[..n]), r, s[n]);
      r := Inserted(less, r, s[n]);
    }
    assert s[..|s|] == s;
    ListingIs(less, Elements(s), r);
  }

  /** Without duplicates, the elements determine the multiset. */
  lemma {:induction false} NoDuplicatesMultiset<T>(s: seq<T>)
    requires NoDuplicates(s)
    ensures multiset(s) == multiset(Elements(s))
  {
    if s != [] {
      NoDuplicatesMultiset(s[1..]);
      ElementsSplit(s);
      assert s == [s[0]] + s[1..];
      assert s[0] !in s[1..];
    }
  }

  /** Appending an element that is not listed yet. */
  lemma Appended<T>(s: seq<T>, c: T)
    requires NoDuplicates(s) && c !in Elements(s)
    ensures NoDuplicates(s + [c]) && Elements(s + [c]) == Elements(s) + {c}
  {
    forall i | 0 <= i < |s|
      ensures s[i] != c
    {
      assert s[i] in Elements(s);
    }
  }

  /** Moving one element from those left to those seen. */
  lemma Moved<T>(all: set<T>, left: set<T>, x: T)
    requires x in left && left <= all
    ensures all - (left - {x}) == (all - left) + {x} && x !in all - left
  {
  }

  lemma NoneLeft<T>(all: set<T>)
    ensures all - {} == all
  {
  }

  lemma Member<T>(S: set<T>) returns (x: T)
    requires S != {}
    ensures x in S
  {
    x :| x in S;
  }

  // ----- the order of strings -----

  /** Go's `<` on strings: lexicographic. */
  predicate StringLess(a: string, b: string) {
    b != "" && (a == "" || a[0] < b[0] || (a[0] == b[0] && StringLess(a[1..], b[1..])))
  }

  lemma {:induction false} StringLessIrreflexive(a: string)
    ensures !StringLess(a, a)
  {
    if a != "" {
      StringLessIrreflexive(a[1..]);
    }
  }

  lemma {:induction false} StringLessConnected(a: string, b: string)
    requires a != b
    ensures StringLess(a, b) || StringLess(b, a)
  {
    if a != "" && b != "" && a[0] == b[0] {
      assert a == [a[0]] + a[1..] && b == [b[0]] + b[1..];
      StringLessConnected(a[1..], b[1..]);
    }
  }

  lemma {:induction false} StringLessTransitive(a: string, b: string, c: string)
    requires StringLess(a, b) && StringLess(b, c)
    ensures StringLess(a, c)
  {
    if a != "" && a[0] == b[0] && b[0] == c[0] {
      StringLessTransitive(a[1..], b[1..], c[1..]);
    }
  }
}
