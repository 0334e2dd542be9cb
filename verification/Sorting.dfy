// slices.SortFunc and sort.Slice, as far as a caller may rely on them: some
// rearrangement in the comparator's order.
module Sorting {

  /** What a comparator must be for sorting by it to mean anything. */
  ghost predicate TotalPreorder<T(!new)>(compare: (T, T) -> int) {
    && (forall a, b :: compare(a, b) <= 0 || compare(b, a) <= 0)
    && (forall a, b, c {:trigger compare(a, b), compare(b, c), compare(a, c)} ::
      compare(a, b) <= 0 && compare(b, c) <= 0 ==> compare(a, c) <= 0)
  }

  ghost predicate SortedBy<T(!new)>(s: seq<T>, compare: (T, T) -> int) {
    forall i, j :: 0 <= i < j < |s| ==> compare(s[i], s[j]) <= 0
  }

  lemma Inserted<T(!new)>(sorted: seq<T>, at: nat, x: T, compare: (T, T) -> int)
    requires at <= |sorted| && SortedBy(sorted, compare)
    requires forall j :: 0 <= j < at ==> compare(sorted[j], x) <= 0
    requires forall j :: at <= j < |sorted| ==> compare(x, sorted[j]) <= 0
    ensures SortedBy(sorted[..at] + [x] + sorted[at..], compare)
  {
    var longer := sorted[..at] + [x] + sorted[at..];
    forall i, j | 0 <= i < j < |longer| ensures compare(longer[i], longer[j]) <= 0 {
      assert longer[i] == if i < at then sorted[i] else if i == at then x else sorted[i - 1];
      assert longer[j] == if j < at then sorted[j] else if j == at then x else sorted[j - 1];
    }
  }

  lemma InsertedCounts<T>(sorted: seq<T>, at: nat, x: T)
    requires at <= |sorted|
    ensures multiset(sorted[..at] + [x] + sorted[at..]) == multiset(sorted) + multiset{x}
  {
    assert sorted == sorted[..at] + sorted[at..];
  }

  lemma InsertAt<T(!new)>(sorted: seq<T>, x: T, compare: (T, T) -> int, at: nat) returns (longer: seq<T>)
    requires TotalPreorder(compare) && SortedBy(sorted, compare) && at <= |sorted|
    requires forall j :: at <= j < |sorted| ==> compare(x, sorted[j]) <= 0
    requires at > 0 ==> compare(sorted[at - 1], x) <= 0
    ensures longer == sorted[..at] + [x] + sorted[at..]
    ensures multiset(longer) == multiset(sorted) + multiset{x} && SortedBy(longer, compare)
  {
    Below(sorted, at, x, compare);
    Inserted(sorted, at, x, compare);
    InsertedCounts(sorted, at, x);
    longer := sorted[..at] + [x] + sorted[at..];
  }

  lemma {:induction false} InsertExists<T(!new)>(sorted: seq<T>, x: T, compare: (T, T) -> int, at: nat)
    returns (longer: seq<T>)
    requires TotalPreorder(compare) && SortedBy(sorted, compare) && at <= |sorted|
    requires forall j :: at <= j < |sorted| ==> compare(x, sorted[j]) <= 0
    ensures multiset(longer) == multiset(sorted) + multiset{x} && SortedBy(longer, compare)
  {
    if at > 0 && compare(sorted[at - 1], x) > 0 {
      longer := InsertExists(sorted, x, compare, at - 1);
    } else {
      longer := InsertAt(sorted, x, compare, at);
    }
  }

  /** Any finite set can be put in a comparator's order. */
  lemma {:induction false} SortExists<T(!new)>(all: set<T>, compare: (T, T) -> int) returns (sorted: seq<T>)
    requires TotalPreorder(compare)
    ensures multiset(sorted) == multiset(all) && SortedBy(sorted, compare)
    decreases all
  {
    sorted := [];
    if x :| x in all {
      var rest := SortExists(all - {x}, compare);
      sorted := InsertExists(rest, x, compare, |rest|);
      assert all == all - {x} + {x};
    }
  }

  method Insert<T(!new)>(sorted: seq<T>, x: T, compare: (T, T) -> int) returns (longer: seq<T>)
    requires TotalPreorder(compare) && SortedBy(sorted, compare)
    ensures multiset(longer) == multiset(sorted) + multiset{x} && SortedBy(longer, compare)
  {
    var at := |sorted|;
    while at > 0 && compare(sorted[at - 1], x) > 0
      invariant 0 <= at <= |sorted|
      invariant forall j :: at <= j < |sorted| ==> compare(x, sorted[j]) <= 0
    {
      at := at - 1;
    }
    longer := sorted[..at] + [x] + sorted[at..];
    var _ := InsertAt(sorted, x, compare, at);
  }

  method SortFunc<T(==,!new)>(s: seq<T>, compare: (T, T) -> int) returns (sorted: seq<T>)
    requires TotalPreorder(compare)
    ensures multiset(sorted) == multiset(s) && SortedBy(sorted, compare)
  {
    sorted := [];
    for i := 0 to |s|
      invariant multiset(sorted) == multiset(s[..i]) && SortedBy(sorted, compare)
    {
      sorted := Insert(sorted, s[i], compare);
      assert s[..i + 1] == s[..i] + [s[i]];
    }
    assert s[..|s|] == s;
  }

  lemma Below<T(!new)>(sorted: seq<T>, at: nat, x: T, compare: (T, T) -> int)
    requires TotalPreorder(compare) && SortedBy(sorted, compare) && at <= |sorted|
    requires at > 0 ==> compare(sorted[at - 1], x) <= 0
    ensures forall j :: 0 <= j < at ==> compare(sorted[j], x) <= 0
  {
    forall j | 0 <= j < at ensures compare(sorted[j], x) <= 0 {
      if j < at - 1 {
        assert compare(sorted[j], sorted[at - 1]) <= 0;
      }
    }
  }

  lemma RestEqual<T>(a: seq<T>, b: seq<T>)
    requires a != [] && b != [] && a[0] == b[0] && multiset(a) == multiset(b)
    ensures multiset(a[1..]) == multiset(b[1..])
  {
    assert a == [a[0]] + a[1..] && b == [b[0]] + b[1..];
    assert multiset(a[1..]) == multiset(a) - multiset{a[0]};
    assert multiset(b[1..]) == multiset(b) - multiset{b[0]};
  }

  lemma HeadsEqual<T(!new)>(a: seq<T>, b: seq<T>, compare: (T, T) -> int)
    requires a != [] && b != [] && multiset(a) == multiset(b) && SortedBy(a, compare) && SortedBy(b, compare)
    requires forall x, y :: x in a && y in a && compare(x, y) <= 0 && compare(y, x) <= 0 ==> x == y
    ensures a[0] == b[0]
  {
    assert a[0] in multiset(b) && b[0] in multiset(a);
    var i :| 0 <= i < |b| && b[i] == a[0];
    var j :| 0 <= j < |a| && a[j] == b[0];
  }

  /** When only equal elements compare equal, sorting has one answer. */
  lemma {:induction false} SortIsUnique<T(!new)>(a: seq<T>, b: seq<T>, compare: (T, T) -> int)
    requires multiset(a) == multiset(b) && SortedBy(a, compare) && SortedBy(b, compare)
    requires forall x, y :: x in a && y in a && compare(x, y) <= 0 && compare(y, x) <= 0 ==> x == y
    ensures a == b
  {
    assert |a| == |multiset(a)| == |multiset(b)| == |b|;
    if a != [] {
      HeadsEqual(a, b, compare);
      RestEqual(a, b);
      RestSorted(a, compare);
      RestSorted(b, compare);
      RestWithin(a);
      SortIsUnique(a[1..], b[1..], compare);
      assert a == [a[0]] + a[1..] && b == [b[0]] + b[1..];
    }
  }

  lemma RestSorted<T(!new)>(s: seq<T>, compare: (T, T) -> int)
    requires s != [] && SortedBy(s, compare)
    ensures SortedBy(s[1..], compare)
  {
  }

  lemma RestWithin<T(!new)>(s: seq<T>)
    requires s != []
    ensures forall x :: x in s[1..] ==> x in s
  {
  }
}
