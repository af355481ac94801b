/** Sorting lists of labelled entries in place by version, collecting the
    comparisons that fail. */
module VersionSort {
  import opened Options
  import opened SemanticVersions

  /** A version as text, with what the version grammar makes of it. */
  datatype Label = Label(text: string, parsed: Option<Version>)

  function CompareLabels(a: Label, b: Label): Option<int> {
    if a.parsed.None? || b.parsed.None? then None else Some(CompareBuildAware(a.parsed.value, b.parsed.value))
  }

  predicate Less(a: Label, b: Label) { CompareLabels(a, b) == Some(-1) }

  predicate AtMost(a: Label, b: Label) { CompareLabels(a, b).Some? && CompareLabels(a, b).value <= 0 }

  // ----- sorting by a label

  predicate Ascending<T>(s: seq<T>, key: T -> Label) {
    forall i, j :: 0 <= i < j < |s| ==> AtMost(key(s[i]), key(s[j]))
  }

  predicate WellFormed<T>(s: seq<T>, key: T -> Label) { forall i :: 0 <= i < |s| ==> key(s[i]).parsed.Some? }

  /** A list of fewer than two entries is never compared. */
  predicate Sortable<T>(s: seq<T>, key: T -> Label) { |s| < 2 || WellFormed(s, key) }

  /** Any result of sorting: the same entries, ascending. */
  predicate IsSorting<T(==)>(s: seq<T>, r: seq<T>, key: T -> Label) { multiset(r) == multiset(s) && Ascending(r, key) }

  function Insert<T>(p: seq<T>, x: T, key: T -> Label): seq<T> {
    if p == [] || !Less(key(x), key(p[|p| - 1])) then p + [x] else Insert(p[..|p| - 1], x, key) + [p[|p| - 1]]
  }

  function Sorted<T>(s: seq<T>, key: T -> Label): seq<T> {
    if s == [] then [] else Insert(Sorted(s[..|s| - 1], key), s[|s| - 1], key)
  }

  lemma {:induction false} InsertKeeps<T>(p: seq<T>, x: T, key: T -> Label)
    ensures multiset(Insert(p, x, key)) == multiset(p) + multiset{x} && |Insert(p, x, key)| == |p| + 1
  {
    if p != [] && Less(key(x), key(p[|p| - 1])) {
      InsertKeeps(p[..|p| - 1], x, key);
      assert p == p[..|p| - 1] + [p[|p| - 1]];
    }
  }

  lemma {:induction false} SortedKeeps<T>(s: seq<T>, key: T -> Label)
    ensures multiset(Sorted(s, key)) == multiset(s) && |Sorted(s, key)| == |s|
  {
    if s != [] {
      SortedKeeps(s[..|s| - 1], key);
      InsertKeeps(Sorted(s[..|s| - 1], key), s[|s| - 1], key);
      assert s == s[..|s| - 1] + [s[|s| - 1]];
    }
  }

  lemma SameElements<T>(a: seq<T>, b: seq<T>)
    requires multiset(a) == multiset(b)
    ensures forall i :: 0 <= i < |a| ==> a[i] in b
  {
    forall i | 0 <= i < |a| ensures a[i] in b {
      assert a[i] in multiset(a);
      assert a[i] in multiset(b);
    }
  }

  lemma AtMostTransitive(a: Label, b: Label, c: Label)
    requires AtMost(a, b) && AtMost(b, c)
    ensures AtMost(a, c)
  {
    BuildAwareTotalPreorder();
    hide CompareBuildAware;
    assert CompareBuildAware(a.parsed.value, b.parsed.value) <= 0;
    assert CompareBuildAware(b.parsed.value, c.parsed.value) <= 0;
  }

  /** Along an ascending list no step is a downgrade by major and minor version. */
  lemma AscendingHasNoMinorDowngrade<T>(s: seq<T>, key: T -> Label, i: nat, j: nat)
    requires Ascending(s, key) && i < j < |s|
    ensures key(s[i]).parsed.Some? && key(s[j]).parsed.Some?
    ensures CompareMajorMinor(key(s[i]).parsed.value, key(s[j]).parsed.value) <= 0
  {
    assert AtMost(key(s[i]), key(s[j]));
    var a, b := key(s[i]).parsed.value, key(s[j]).parsed.value;
    if CompareMajorMinor(a, b) != 0 { BuildAwareAgreesWithMajorMinor(a, b); }
  }

  lemma LessOrAtMost(a: Label, b: Label)
    requires a.parsed.Some? && b.parsed.Some?
    ensures if Less(a, b) then AtMost(a, b) else AtMost(b, a)
  {
    BuildAwareTotalPreorder();
    hide CompareBuildAware;
    assert CompareBuildAware(a.parsed.value, b.parsed.value) == -CompareBuildAware(b.parsed.value, a.parsed.value);
  }

  lemma AppendAscending<T>(p: seq<T>, x: T, key: T -> Label)
    requires Ascending(p, key) && forall i :: 0 <= i < |p| ==> AtMost(key(p[i]), key(x))
    ensures Ascending(p + [x], key)
  {
    hide AtMost;
  }

  lemma {:induction false} InsertAscending<T>(p: seq<T>, x: T, key: T -> Label)
    requires Ascending(p, key) && WellFormed(p, key) && key(x).parsed.Some?
    ensures Ascending(Insert(p, x, key), key)
  {
    hide AtMost, Less;
    if p != [] {
      var n := |p| - 1;
      LessOrAtMost(key(x), key(p[n]));
      if Less(key(x), key(p[n])) {
        InsertAscending(p[..n], x, key);
        InsertedAtMost(p, x, key);
        AppendAscending(Insert(p[..n], x, key), p[n], key);
      } else {
        forall i | 0 <= i < n ensures AtMost(key(p[i]), key(x)) {
          AtMostTransitive(key(p[i]), key(p[n]), key(x));
        }
        AppendAscending(p, x, key);
      }
    }
  }

  lemma InsertedAtMost<T>(p: seq<T>, x: T, key: T -> Label)
    requires p != [] && Ascending(p, key) && AtMost(key(x), key(p[|p| - 1]))
    ensures var q := Insert(p[..|p| - 1], x, key); forall i :: 0 <= i < |q| ==> AtMost(key(q[i]), key(p[|p| - 1]))
  {
    hide AtMost, Insert;
    var n := |p| - 1;
    var q := Insert(p[..n], x, key);
    InsertKeeps(p[..n], x, key);
    SameElements(q, p[..n] + [x]);
    forall i | 0 <= i < |q| ensures AtMost(key(q[i]), key(p[n])) {
      assert q[i] in p[..n] + [x];
    }
  }

  lemma {:induction false} SortedAscending<T>(s: seq<T>, key: T -> Label)
    requires Sortable(s, key)
    ensures Ascending(Sorted(s, key), key)
  {
    SortedKeeps(s, key);
    if |s| >= 2 {
      var rest := s[..|s| - 1];
      SortedAscending(rest, key);
      SortedKeeps(rest, key);
      SameElements(Sorted(rest, key), rest);
      var p := Sorted(rest, key);
      forall i | 0 <= i < |p| ensures key(p[i]).parsed.Some? {
        assert p[i] in rest;
      }
      InsertAscending(p, s[|s| - 1], key);
    }
  }

  /** Moving `x` left past `p[j..]` leaves it to be inserted into `p[..j]`. */
  ghost predicate Moved<T>(p: seq<T>, x: T, j: nat, key: T -> Label)
    requires j <= |p|
  {
    Insert(p, x, key) == Insert(p[..j], x, key) + p[j..]
  }

  lemma Cut<T>(q: seq<T>, p: seq<T>, j: nat)
    requires 0 < j <= |p|
    ensures p[..j][..j - 1] == p[..j - 1] && p[..j][j - 1] == p[j - 1]
    ensures q + [p[j - 1]] + p[j..] == q + p[j - 1..]
  {
    assert p[j - 1..] == [p[j - 1]] + p[j..];
  }

  lemma MovedOn<T>(p: seq<T>, x: T, j: nat, key: T -> Label)
    requires 0 < j <= |p| && Moved(p, x, j, key) && Less(key(x), key(p[j - 1]))
    ensures Moved(p, x, j - 1, key)
  {
    hide Less;
    Cut(Insert(p[..j - 1], x, key), p, j);
    assert Insert(p[..j], x, key) == Insert(p[..j - 1], x, key) + [p[j - 1]];
  }

  lemma InsertLast<T>(p: seq<T>, x: T, key: T -> Label)
    requires p != [] ==> !Less(key(x), key(p[|p| - 1]))
    ensures Insert(p, x, key) == p + [x]
  {
  }

  lemma MovedToPlace<T>(p: seq<T>, x: T, j: nat, key: T -> Label)
    requires j <= |p| && Moved(p, x, j, key) && (j > 0 ==> !Less(key(x), key(p[j - 1])))
    ensures Insert(p, x, key) == p[..j] + [x] + p[j..]
  {
    hide Less, Insert;
    if j > 0 { assert p[..j][j - 1] == p[j - 1]; }
    InsertLast(p[..j], x, key);
  }

  lemma SortedStep<T>(s: seq<T>, i: nat, key: T -> Label)
    requires i < |s|
    ensures Sorted(s[..i + 1], key) == Insert(Sorted(s[..i], key), s[i], key)
  {
    hide Insert;
    assert s[..i + 1][..i] == s[..i];
  }

  lemma WellFormedSorted<T>(s: seq<T>, key: T -> Label)
    ensures WellFormed(Sorted(s, key), key) <==> WellFormed(s, key)
  {
    SortedKeeps(s, key);
    SameElements(Sorted(s, key), s);
    SameElements(s, Sorted(s, key));
    hide Sorted;
    var r := Sorted(s, key);
    if WellFormed(s, key) {
      forall i | 0 <= i < |r| ensures key(r[i]).parsed.Some? {
        assert r[i] in s;
      }
    }
    if WellFormed(r, key) {
      forall i | 0 <= i < |s| ensures key(s[i]).parsed.Some? {
        assert s[i] in r;
      }
    }
  }

  /** Moves the entry at `i` to its place in the sorted prefix before it;
      reports whether a comparison failed. */
  method InsertInPlace<T>(a: array<T>, i: nat, key: T -> Label) returns (failed: bool)
    requires 0 < i < a.Length
    modifies a
    ensures a[..] == Insert(old(a[..i]), old(a[i]), key) + old(a[i + 1..])
    ensures !old(key(a[i - 1]).parsed.Some? && key(a[i]).parsed.Some?) ==> failed
    ensures failed ==> !old(WellFormed(a[..i + 1], key))
  {
    hide Insert, Less, Moved;
    ghost var p, x, was := a[..i], a[i], a[..];
    var j, moving := i, true;
    failed := false;
    assert Moved(p, x, i, key) by { StartsMoved(p, x, key); }
    while moving && j > 0
      invariant 0 <= j <= i
      invariant forall k :: 0 <= k < j ==> a[k] == was[k]
      invariant a[j] == x
      invariant forall k :: j < k <= i ==> a[k] == was[k - 1]
      invariant forall k :: i < k < a.Length ==> a[k] == was[k]
      invariant Moved(p, x, j, key)
      invariant !moving ==> j > 0 && !Less(key(x), key(p[j - 1]))
      invariant (j < i || !moving) && !(key(x).parsed.Some? && key(p[i - 1]).parsed.Some?) ==> failed
      invariant failed ==> !WellFormed(was[..i + 1], key)
      decreases j, moving
    {
      var res := CompareLabels(key(a[j]), key(a[j - 1]));
      if res.None? {
        assert was[..i + 1][i] == x && was[..i + 1][j - 1] == p[j - 1];
        failed := true;
      }
      LessIs(key(x), key(p[j - 1]));
      if res == Some(-1) {
        MovedOn(p, x, j, key);
        a[j], a[j - 1] := a[j - 1], a[j];
        j := j - 1;
      } else {
        moving := false;
      }
    }
    MovedToPlace(p, x, j, key);
    assert a[..] == p[..j] + [x] + p[j..] + was[i + 1..];
  }

  lemma LessIs(a: Label, b: Label)
    ensures Less(a, b) <==> CompareLabels(a, b) == Some(-1)
  {
  }

  lemma StartsMoved<T>(p: seq<T>, x: T, key: T -> Label)
    ensures Moved(p, x, |p|, key)
  {
    assert p[..|p|] == p && p[|p|..] == [];
  }

  /** The comparisons made while inserting find every malformed entry so far. */
  lemma FailureSpreads<T>(s: seq<T>, i: nat, key: T -> Label, p: seq<T>, bad: bool)
    requires 0 < i < |s| && p == Sorted(s[..i], key) && |p| == i
    requires !(key(p[i - 1]).parsed.Some? && key(s[i]).parsed.Some?) ==> bad
    requires bad ==> !WellFormed(p + [s[i]], key)
    ensures (!Sortable(s[..i], key) || bad) <==> !Sortable(s[..i + 1], key)
  {
    WellFormedSorted(s[..i], key);
    hide Sorted;
    WellFormedAppend(s[..i], s[i], key);
    WellFormedAppend(p, s[i], key);
    assert s[..i + 1] == s[..i] + [s[i]];
  }

  lemma WellFormedAppend<T>(s: seq<T>, x: T, key: T -> Label)
    ensures WellFormed(s + [x], key) <==> WellFormed(s, key) && key(x).parsed.Some?
  {
    if WellFormed(s + [x], key) {
      forall i | 0 <= i < |s| ensures key(s[i]).parsed.Some? {
        assert (s + [x])[i] == s[i];
      }
      assert (s + [x])[|s|] == x;
    }
  }

  lemma ShortLists<T>(s: seq<T>, key: T -> Label)
    ensures Sorted(s[..0], key) == [] && Sortable(s[..0], key)
    ensures s != [] ==> Sorted(s[..1], key) == s[..1] && Sortable(s[..1], key)
  {
    if s != [] { assert s[..1][..0] == [] && s[..1] == [s[0]]; }
  }

  lemma Slices<T>(a: seq<T>, p: seq<T>, s: seq<T>, i: nat)
    requires |p| == i < |s| && a == p + s[i..]
    ensures a[..i + 1] == p + [s[i]] && a[i + 1..] == s[i + 1..] && a[i] == s[i]
  {
    assert s[i..] == [s[i]] + s[i + 1..];
    assert a == p + [s[i]] + s[i + 1..];
  }

  method InsertionSort<T>(a: array<T>, key: T -> Label) returns (failed: bool)
    modifies a
    ensures a[..] == Sorted(old(a[..]), key)
    ensures failed <==> !Sortable(old(a[..]), key)
  {
    hide Sortable, WellFormed, Insert;
    ghost var s := a[..];
    failed := false;
    assert s[..0] == [] && (s != [] ==> s[..1] == [s[0]]);
    ShortLists(s, key);
    var i := if a.Length == 0 then 0 else 1;
    while i < a.Length
      invariant 0 <= i <= a.Length && (i == 0 ==> a.Length == 0)
      invariant a[..] == Sorted(s[..i], key) + s[i..]
      invariant failed <==> !Sortable(s[..i], key)
    {
      SortedKeeps(s[..i], key);
      SortedStep(s, i, key);
      ghost var p := a[..i];
      Slices(a[..], p, s, i);
      assert a[..i + 1] == a[..][..i + 1] && a[i + 1..] == a[..][i + 1..];
      var bad := InsertInPlace(a, i, key);
      FailureSpreads(s, i, key, p, bad);
      failed := failed || bad;
      i := i + 1;
    }
    assert s[..i] == s;
  }

  /** Sorting in place by label, reporting whether a comparison failed. Entries
      that compare equal may come in any order. */
  method SortInPlace<T>(a: array<T>, key: T -> Label) returns (failed: bool)
    modifies a
    ensures multiset(a[..]) == multiset(old(a[..]))
    ensures !failed ==> Ascending(a[..], key)
    ensures failed <==> !Sortable(old(a[..]), key)
  {
    ghost var s := a[..];
    failed := InsertionSort(a, key);
    hide *;
    SortedKeeps(s, key);
    if !failed { SortedAscending(s, key); }
  }
}
