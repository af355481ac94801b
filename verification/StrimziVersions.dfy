/** The Strimzi versions a cluster offers, each with its Kafka versions and
    Kafka inter-broker-protocol versions: deep sorting of a copy, and the latest
    ready version of what was stored. */
module StrimziVersions {
  import opened Options
  import opened SemanticVersions
  import opened VersionPrecedence
  import opened VersionSort

  /** A record whose two lists are slices of their own; null is the nil slice. */
  datatype Strimzi = Strimzi(version: Label, ready: bool, kafka: array?<Label>, ibp: array?<Label>)

  /** The same record with its lists read out. */
  datatype View = View(version: Label, ready: bool, kafka: Option<seq<Label>>, ibp: Option<seq<Label>>)

  function Contents(a: array?<Label>): Option<seq<Label>>
    reads a
  {
    if a == null then None else Some(a[..])
  }

  function ViewOf(v: Strimzi): View
    reads v.kafka, v.ibp
  {
    View(v.version, v.ready, Contents(v.kafka), Contents(v.ibp))
  }

  // ----- what deep sorting promises

  function Itself(l: Label): Label { l }

  function VersionOf(v: View): Label { v.version }

  predicate ListSortable(l: Option<seq<Label>>) { l.Some? ==> Sortable(l.value, Itself) }

  predicate InsideSortable(v: View) { ListSortable(v.kafka) && ListSortable(v.ibp) }

  predicate AllInsideSortable(vs: seq<View>) { forall i :: 0 <= i < |vs| ==> InsideSortable(vs[i]) }

  predicate DeepSortable(vs: seq<View>) { Sortable(vs, VersionOf) && AllInsideSortable(vs) }

  predicate IsListSorting(l: Option<seq<Label>>, r: Option<seq<Label>>) {
    l.Some? == r.Some? && (l.Some? ==> IsSorting(l.value, r.value, Itself))
  }

  /** `w` is `v` with its two lists sorted and nothing else changed. */
  predicate IsInsideSorting(v: View, w: View) {
    w.version == v.version && w.ready == v.ready && IsListSorting(v.kafka, w.kafka) && IsListSorting(v.ibp, w.ibp)
  }

  predicate AreInsideSortings(s: seq<View>, r: seq<View>) {
    |r| == |s| && forall i :: 0 <= i < |s| ==> IsInsideSorting(s[i], r[i])
  }

  /** `r` holds the versions `vs` in ascending order, each with its lists sorted. */
  ghost predicate IsDeepSorting(vs: seq<View>, r: seq<View>) {
    exists s :: IsSorting(vs, s, VersionOf) && AreInsideSortings(s, r)
  }

  /** So all three levels ascend, and there is a version of the result for each
      version given, and the other way round. */
  lemma DeepSortingIsSorted(vs: seq<View>, r: seq<View>)
    requires IsDeepSorting(vs, r)
    ensures |r| == |vs| && Ascending(r, VersionOf)
    ensures forall v | v in vs :: exists w :: w in r && IsInsideSorting(v, w)
    ensures forall w | w in r :: exists v :: v in vs && IsInsideSorting(v, w)
  {
    hide AtMost, IsInsideSorting, Ascending;
    var s: seq<View> :| IsSorting(vs, s, VersionOf) && AreInsideSortings(s, r);
    assert |multiset(s)| == |multiset(vs)|;
    AscendingInside(s, r);
    SameElements(s, vs);
    SameElements(vs, s);
    hide IsSorting;
    forall v | v in vs ensures exists w :: w in r && IsInsideSorting(v, w) {
      var i :| 0 <= i < |vs| && vs[i] == v;
      assert vs[i] in s;
      var j :| 0 <= j < |s| && s[j] == v;
      assert r[j] in r && IsInsideSorting(s[j], r[j]);
    }
    forall w | w in r ensures exists v :: v in vs && IsInsideSorting(v, w) {
      var i :| 0 <= i < |r| && r[i] == w;
      assert s[i] in vs && IsInsideSorting(s[i], r[i]);
    }
  }

  lemma AscendingInside(s: seq<View>, r: seq<View>)
    requires Ascending(s, VersionOf) && AreInsideSortings(s, r)
    ensures Ascending(r, VersionOf)
  {
    hide AtMost, IsInsideSorting;
    forall i, j | 0 <= i < j < |r| ensures AtMost(VersionOf(r[i]), VersionOf(r[j])) {
      assert AtMost(VersionOf(s[i]), VersionOf(s[j]));
      SameVersion(s[i], r[i]);
      SameVersion(s[j], r[j]);
    }
  }

  lemma SameVersion(v: View, w: View)
    requires IsInsideSorting(v, w)
    ensures VersionOf(w) == VersionOf(v) && w.ready == v.ready
  {
  }

  // ----- sorting a copy

  /** A copy with lists of its own, nil where the original's are nil. */
  method DeepCopy(v: Strimzi) returns (c: Strimzi)
    ensures ViewOf(c) == ViewOf(v)
    ensures (c.kafka != null ==> fresh(c.kafka)) && (c.ibp != null ==> fresh(c.ibp))
    ensures Apart(c)
  {
    c := v.(kafka := null, ibp := null);
    if v.kafka != null {
      var kafka := new Label[v.kafka.Length](i requires 0 <= i < v.kafka.Length reads v.kafka => v.kafka[i]);
      assert kafka[..] == v.kafka[..];
      c := c.(kafka := kafka);
    }
    if v.ibp != null {
      var ibp := new Label[v.ibp.Length](i requires 0 <= i < v.ibp.Length reads v.ibp => v.ibp[i]);
      assert ibp[..] == v.ibp[..];
      c := c.(ibp := ibp);
    }
  }

  /** A record's two lists are not one and the same. */
  ghost predicate Apart(v: Strimzi) { v.kafka != null ==> v.kafka != v.ibp }

  ghost predicate Unshared(v: Strimzi, w: Strimzi) {
    && (v.kafka != null ==> v.kafka != w.kafka && v.kafka != w.ibp)
    && (v.ibp != null ==> v.ibp != w.kafka && v.ibp != w.ibp)
  }

  /** No list belongs to two places. */
  ghost predicate Separate(s: seq<Strimzi>) {
    && (forall i :: 0 <= i < |s| ==> Apart(s[i]))
    && (forall i, j :: 0 <= i < |s| && 0 <= j < |s| && i != j ==> Unshared(s[i], s[j]))
  }

  method SortListInPlace(a: array?<Label>) returns (failed: bool)
    modifies a
    ensures failed <==> !ListSortable(old(Contents(a)))
    ensures !failed ==> IsListSorting(old(Contents(a)), Contents(a))
  {
    failed := false;
    if a != null { failed := SortInPlace(a, Itself); }
  }

  method SortInsideInPlace(v: Strimzi) returns (failed: bool)
    requires Apart(v)
    modifies v.kafka, v.ibp
    ensures failed <==> !InsideSortable(old(ViewOf(v)))
    ensures !failed ==> IsInsideSorting(old(ViewOf(v)), ViewOf(v))
  {
    failed := SortListInPlace(v.kafka);
    if failed { return; }
    failed := SortListInPlace(v.ibp);
  }

  ghost function Lists(s: seq<Strimzi>): set<object> {
    (set i | 0 <= i < |s| && s[i].kafka != null :: s[i].kafka as object) +
    (set i | 0 <= i < |s| && s[i].ibp != null :: s[i].ibp as object)
  }

  function Views(s: seq<Strimzi>): (r: seq<View>)
    reads Lists(s)
    ensures |r| == |s|
  {
    if s == [] then [] else
      assert forall i :: 0 <= i < |s| - 1 ==> s[..|s| - 1][i] == s[i];
      Views(s[..|s| - 1]) + [ViewOf(s[|s| - 1])]
  }

  lemma {:induction false} ViewsAt(s: seq<Strimzi>)
    ensures forall i :: 0 <= i < |s| ==> Views(s)[i] == ViewOf(s[i])
  {
    if s != [] { ViewsAt(s[..|s| - 1]); }
  }

  function VersionLabel(v: Strimzi): Label { v.version }

  lemma {:induction false} TwoPlaces<T>(s: seq<T>, x: T) returns (i: nat, j: nat)
    requires multiset(s)[x] >= 2
    ensures i < j < |s| && s[i] == x && s[j] == x
  {
    var n := |s| - 1;
    assert s == s[..n] + [s[n]];
    if s[n] == x {
      assert x in multiset(s[..n]);
      i :| 0 <= i < n && s[i] == x;
      j := n;
    } else {
      i, j := TwoPlaces(s[..n], x);
    }
  }

  lemma TwoOf<T>(s: seq<T>, i: nat, j: nat)
    requires i < j < |s| && s[i] == s[j]
    ensures multiset(s)[s[i]] >= 2
  {
    assert s == s[..j] + [s[j]] + s[j + 1..];
    assert s[i] in s[..j];
  }

  /** Two places of a permutation come from two places of the original. */
  lemma PermutedPair<T>(a: seq<T>, b: seq<T>, i: nat, j: nat) returns (k: nat, l: nat)
    requires multiset(a) == multiset(b) && i < j < |b|
    ensures k < |a| && l < |a| && k != l && a[k] == b[i] && a[l] == b[j]
  {
    if b[i] == b[j] {
      TwoOf(b, i, j);
      k, l := TwoPlaces(a, b[i]);
    } else {
      assert b[i] in multiset(b) && b[j] in multiset(b);
      assert b[i] in multiset(a) && b[j] in multiset(a);
      k :| 0 <= k < |a| && a[k] == b[i];
      l :| 0 <= l < |a| && a[l] == b[j];
    }
  }

  lemma PermutedSeparate(a: seq<Strimzi>, b: seq<Strimzi>)
    requires multiset(a) == multiset(b) && Separate(a)
    ensures Separate(b)
  {
    SameElements(b, a);
    hide Apart, Unshared;
    forall i, j | 0 <= i < |b| && 0 <= j < |b| && i != j ensures Unshared(b[i], b[j]) {
      if i < j {
        var k, l := PermutedPair(a, b, i, j);
        assert Unshared(a[k], a[l]);
      } else {
        var l, k := PermutedPair(a, b, j, i);
        assert Unshared(a[k], a[l]);
      }
    }
    forall i | 0 <= i < |b| ensures Apart(b[i]) {
      assert b[i] in a;
    }
  }

  lemma {:induction false} ViewsAppend(a: seq<Strimzi>, b: seq<Strimzi>)
    ensures Views(a + b) == Views(a) + Views(b)
    decreases |b|
  {
    if b == [] {
      assert a + b == a;
    } else {
      var n := |b| - 1;
      ViewsAppend(a, b[..n]);
      assert (a + b)[..|a + b| - 1] == a + b[..n];
    }
  }

  lemma TakeOut<T>(front: seq<T>, x: T, l: seq<T>, m: seq<T>)
    ensures multiset(l + [x] + m) == multiset(l + m) + multiset{x}
    ensures multiset(front + [x]) == multiset(l + [x] + m) ==> multiset(front) == multiset(l + m)
  {
    assert multiset(front + [x]) - multiset{x} == multiset(front);
    assert (multiset(l + m) + multiset{x}) - multiset{x} == multiset(l + m);
  }

  lemma ViewsAround(l: seq<Strimzi>, x: Strimzi, m: seq<Strimzi>)
    ensures Views(l + [x] + m) == Views(l) + [ViewOf(x)] + Views(m) && Views(l + m) == Views(l) + Views(m)
  {
    ViewsAppend(l, m);
    ViewsAppend(l + [x], m);
    ViewsAppend(l, [x]);
    assert [x][..0] == [];
    assert Views([x]) == [ViewOf(x)];
  }

  lemma ViewsLast(front: seq<Strimzi>, x: Strimzi)
    ensures Views(front + [x]) == Views(front) + [ViewOf(x)] && Views([]) == []
  {
    assert (front + [x])[..|front|] == front;
  }

  lemma {:induction false} PermutedViews(a: seq<Strimzi>, b: seq<Strimzi>)
    requires multiset(a) == multiset(b)
    ensures multiset(Views(a)) == multiset(Views(b))
    decreases |a|
  {
    hide Views, ViewOf, Lists;
    if a == [] {
      assert |multiset(b)| == 0;
      assert b == [];
    } else {
      var x, front := a[|a| - 1], a[..|a| - 1];
      assert a == front + [x] && x in multiset(b);
      var j :| 0 <= j < |b| && b[j] == x;
      var l, m := b[..j], b[j + 1..];
      assert b == l + [x] + m;
      TakeOut(front, x, l, m);
      PermutedViews(front, l + m);
      ViewsLast(front, x);
      ViewsAround(l, x, m);
      TakeOut([], ViewOf(x), Views(l), Views(m));
    }
  }

  lemma AscendingViews(s: seq<Strimzi>)
    requires Ascending(s, VersionLabel)
    ensures Ascending(Views(s), VersionOf)
  {
    hide AtMost;
    ViewsAt(s);
    forall i, j | 0 <= i < j < |s| ensures AtMost(VersionOf(Views(s)[i]), VersionOf(Views(s)[j])) {
      assert AtMost(VersionLabel(s[i]), VersionLabel(s[j]));
    }
  }

  lemma SortableViews(s: seq<Strimzi>)
    ensures Sortable(s, VersionLabel) <==> Sortable(Views(s), VersionOf)
  {
    ViewsAt(s);
    if WellFormed(Views(s), VersionOf) {
      forall i | 0 <= i < |s| ensures VersionLabel(s[i]).parsed.Some? { assert VersionOf(Views(s)[i]).parsed.Some?; }
    }
    if WellFormed(s, VersionLabel) {
      forall i | 0 <= i < |s| ensures VersionOf(Views(s)[i]).parsed.Some? { assert VersionLabel(s[i]).parsed.Some?; }
    }
  }

  method CopyAll(versions: array<Strimzi>) returns (copies: seq<Strimzi>)
    ensures |copies| == versions.Length && Views(copies) == Views(versions[..])
    ensures Separate(copies) && fresh(Lists(copies))
  {
    copies := [];
    for i := 0 to versions.Length
      invariant |copies| == i
      invariant forall k :: 0 <= k < i ==> ViewOf(copies[k]) == ViewOf(versions[k])
      invariant forall k :: 0 <= k < i && copies[k].kafka != null ==> fresh(copies[k].kafka)
      invariant forall k :: 0 <= k < i && copies[k].ibp != null ==> fresh(copies[k].ibp)
      invariant Separate(copies)
    {
      var c := DeepCopy(versions[i]);
      SeparateAppend(copies, c);
      copies := copies + [c];
    }
    ViewsAt(copies);
    ViewsAt(versions[..]);
  }

  lemma SeparateAppend(s: seq<Strimzi>, c: Strimzi)
    requires Separate(s) && Apart(c) && forall i :: 0 <= i < |s| ==> Unshared(s[i], c) && Unshared(c, s[i])
    ensures Separate(s + [c])
  {
    hide Apart, Unshared;
  }

  /** Sorts the lists of every record, in order, up to the first failure. */
  method SortInsides(s: seq<Strimzi>) returns (failed: bool)
    requires Separate(s)
    modifies Lists(s)
    ensures failed <==> !AllInsideSortable(old(Views(s)))
    ensures !failed ==> AreInsideSortings(old(Views(s)), Views(s))
  {
    hide InsideSortable, IsInsideSorting;
    ViewsAt(s);
    failed := false;
    for i := 0 to |s|
      invariant forall k :: 0 <= k < i ==>
                  InsideSortable(old(ViewOf(s[k]))) && IsInsideSorting(old(ViewOf(s[k])), ViewOf(s[k]))
      invariant forall k :: i <= k < |s| ==> ViewOf(s[k]) == old(ViewOf(s[k]))
      invariant !failed
    {
      assert Apart(s[i]);
      assert forall k :: 0 <= k < |s| && k != i ==> Unshared(s[k], s[i]);
      failed := SortInsideInPlace(s[i]);
      if failed { return; }
    }
    ViewsAt(s);
  }

  datatype Result<+T> = Ok(value: T) | Err

  method SortVersions(copies: seq<Strimzi>) returns (toSet: array<Strimzi>, failed: bool)
    ensures fresh(toSet) && multiset(toSet[..]) == multiset(copies)
    ensures !failed ==> Ascending(toSet[..], VersionLabel)
    ensures failed <==> !Sortable(copies, VersionLabel)
  {
    toSet := new Strimzi[|copies|](i requires 0 <= i < |copies| => copies[i]);
    assert toSet[..] == copies;
    failed := SortInPlace(toSet, VersionLabel);
  }

  lemma PermutedInsideSortable(vs: seq<View>, s: seq<View>)
    requires multiset(vs) == multiset(s)
    ensures AllInsideSortable(s) <==> AllInsideSortable(vs)
  {
    SameElements(vs, s);
    SameElements(s, vs);
    hide InsideSortable;
    if AllInsideSortable(vs) {
      forall i | 0 <= i < |s| ensures InsideSortable(s[i]) { assert s[i] in vs; }
    }
    if AllInsideSortable(s) {
      forall i | 0 <= i < |vs| ensures InsideSortable(vs[i]) { assert vs[i] in s; }
    }
  }

  lemma PermutedLists(s: seq<Strimzi>, r: seq<Strimzi>)
    requires multiset(s) == multiset(r)
    ensures Lists(r) <= Lists(s)
  {
    SameElements(r, s);
    forall o | o in Lists(r) ensures o in Lists(s) {
      var i :| 0 <= i < |r| && ((r[i].kafka != null && o == r[i].kafka) || (r[i].ibp != null && o == r[i].ibp));
      assert r[i] in s;
    }
  }

  /** Sorts copied records, first by version, then the lists of each. */
  method SortCopies(copies: seq<Strimzi>) returns (toSet: array<Strimzi>, failed: bool)
    requires Separate(copies)
    modifies Lists(copies)
    ensures fresh(toSet) && Lists(toSet[..]) <= Lists(copies)
    ensures failed <==> !DeepSortable(old(Views(copies)))
    ensures !failed ==> IsDeepSorting(old(Views(copies)), Views(toSet[..]))
  {
    hide Views, ViewOf, Separate, DeepSortable, IsDeepSorting;
    hide AreInsideSortings, Ascending, Sortable, AllInsideSortable;
    ghost var was, lists := Views(copies), Lists(copies);
    assert forall o :: o in lists ==> allocated(o);
    DeepSortableIs(was);
    toSet, failed := SortVersions(copies);
    assert toSet as object !in lists;
    assert Views(copies) == was;
    SortableViews(copies);
    var sorted := toSet[..];
    PermutedLists(copies, sorted);
    if failed { return; }
    PermutedSeparate(copies, sorted);
    PermutedViews(copies, sorted);
    AscendingViews(sorted);
    ghost var order := Views(sorted);
    PermutedInsideSortable(was, order);
    failed := SortInsides(sorted);
    if !failed { DeepSortingIs(was, order, Views(sorted)); }
  }

  lemma DeepSortableIs(vs: seq<View>)
    ensures DeepSortable(vs) <==> Sortable(vs, VersionOf) && AllInsideSortable(vs)
  {
  }

  lemma DeepSortingIs(vs: seq<View>, s: seq<View>, r: seq<View>)
    requires multiset(s) == multiset(vs) && Ascending(s, VersionOf) && AreInsideSortings(s, r)
    ensures IsDeepSorting(vs, r)
  {
    assert IsSorting(vs, s, VersionOf);
  }

  lemma NothingToSort()
    ensures DeepSortable([]) && IsDeepSorting([], []) && Lists([]) == {}
  {
    DeepSortingIs([], [], []);
  }

  /** A deeply sorted copy. The versions passed in, and their lists, are not written. */
  method StrimziVersionsDeepSort(versions: array?<Strimzi>) returns (r: Result<array?<Strimzi>>)
    ensures versions == null ==> r == Ok(null)
    ensures versions != null ==> versions[..] == old(versions[..]) && Views(versions[..]) == old(Views(versions[..]))
    ensures versions != null ==> (r.Ok? <==> DeepSortable(old(Views(versions[..]))))
    ensures versions != null && r.Ok? ==> r.value != null && fresh(r.value) && fresh(Lists(r.value[..]))
    ensures versions != null && r.Ok? ==> IsDeepSorting(old(Views(versions[..])), Views(r.value[..]))
  {
    hide Views, ViewOf, Separate, DeepSortable, IsDeepSorting;
    if versions == null { return Ok(null); }
    if versions.Length == 0 {
      var empty := new Strimzi[0];
      assert versions[..] == [] && empty[..] == [];
      NothingToSort();
      return Ok(empty);
    }
    ghost var given := versions[..];
    ghost var was, lists := Views(given), Lists(given);
    assert forall o :: o in lists ==> allocated(o);
    var copies := CopyAll(versions);
    assert versions[..] == given && Views(given) == was;
    assert lists !! Lists(copies);
    var toSet, failed := SortCopies(copies);
    assert versions[..] == given && Views(given) == was;
    if failed { return Err; }
    r := Ok(toSet);
  }

  // ----- what is stored for a cluster

  /** The last ready entry, if any is ready. */
  ghost predicate IsLatestReady(list: seq<View>, r: Option<View>) {
    match r
    case None => forall i :: 0 <= i < |list| ==> !list[i].ready
    case Some(v) => v.ready && exists i :: IsLast(list, i, v)
  }

  ghost predicate IsLast(list: seq<View>, i: int, v: View) {
    0 <= i < |list| && list[i] == v && forall k :: i < k < |list| ==> !list[k].ready
  }

  class Cluster {
    /** The stored column: absent, or the list as it was written. */
    var available: Option<seq<View>>

    constructor ()
      ensures available == None
    {
      available := None;
    }

    function Available(): seq<View>
      reads this
    {
      if available.None? then [] else available.value
    }

    /** Stores the versions deeply sorted, or nothing if they cannot be sorted. */
    method SetAvailableStrimziVersions(versions: array?<Strimzi>) returns (ok: bool)
      modifies this
      ensures versions == null ==> ok && available == Some([])
      ensures versions != null ==> (ok <==> DeepSortable(old(Views(versions[..]))))
      ensures versions != null && ok ==> available.Some? && IsDeepSorting(old(Views(versions[..])), Available())
      ensures !ok ==> available == old(available)
    {
      hide DeepSortable, IsDeepSorting;
      var sorted := StrimziVersionsDeepSort(versions);
      ok := sorted.Ok?;
      if ok {
        available := Some(if sorted.value == null then [] else Views(sorted.value[..]));
      }
    }

    method GetLatestAvailableAndReadyStrimziVersion() returns (r: Option<View>)
      ensures IsLatestReady(Available(), r)
    {
      var list := Available();
      var ready: seq<View> := [];
      for i := 0 to |list|
        invariant IsLatestReady(list[..i], if ready == [] then None else Some(ready[|ready| - 1]))
      {
        LatestStep(list[..i], if ready == [] then None else Some(ready[|ready| - 1]), list[i]);
        assert list[..i + 1] == list[..i] + [list[i]];
        if list[i].ready { ready := ready + [list[i]]; }
      }
      assert list[..|list|] == list;
      r := if ready == [] then None else Some(ready[|ready| - 1]);
    }
  }

  lemma LatestStep(list: seq<View>, r: Option<View>, v: View)
    requires IsLatestReady(list, r)
    ensures IsLatestReady(list + [v], if v.ready then Some(v) else r)
  {
    if v.ready {
      assert IsLast(list + [v], |list|, v);
    } else if r.Some? {
      var i :| IsLast(list, i, r.value);
      assert IsLast(list + [v], i, r.value);
    }
  }

  /** `x` is an element of `s` that no element of `s` exceeds. */
  ghost predicate Greatest<T(!new)>(s: seq<T>, x: T, key: T -> Label) {
    x in s && forall y :: y in s ==> y == x || AtMost(key(y), key(x))
  }

  lemma LastIsGreatest<T(!new)>(s: seq<T>, key: T -> Label)
    requires s != [] && Ascending(s, key)
    ensures Greatest(s, s[|s| - 1], key)
  {
  }

  /** The last entry of a sorted list is greatest in the list before sorting. */
  lemma LatestOfList(l: seq<Label>, r: seq<Label>)
    requires l != [] && IsSorting(l, r, Itself)
    ensures |r| == |l| && Greatest(l, r[|r| - 1], Itself)
  {
    assert |multiset(r)| == |multiset(l)|;
    LastIsGreatest(r, Itself);
    SameElements(l, r);
    SameElements(r, l);
    hide AtMost;
  }

  ghost predicate GreatestReady(vs: seq<View>, v: View) {
    v in vs && v.ready && forall w :: w in vs && w.ready ==> w == v || AtMost(w.version, v.version)
  }

  /** By the fields of the versions, no other ready entry is above `v`. */
  ghost predicate NoneReadyAbove(vs: seq<View>, v: View) {
    forall w :: w in vs && w.ready && w != v ==>
      w.version.parsed.Some? && v.version.parsed.Some? && !Below(v.version.parsed.value, w.version.parsed.value)
  }

  lemma GreatestByFields(vs: seq<View>, v: View)
    requires GreatestReady(vs, v)
    ensures NoneReadyAbove(vs, v)
  {
    forall w | w in vs && w.ready && w != v { AtMostByFields(w.version, v.version); }
    hide AtMost, Below;
  }

  /** Whatever order the versions were given in, and however entries that compare
      equal were placed, the latest ready one read back is one of them, sorted
      inside, and no ready one exceeds it. */
  lemma LatestIsGreatestReady(vs: seq<View>, d: seq<View>, r: Option<View>)
    requires IsDeepSorting(vs, d) && IsLatestReady(d, r)
    ensures r.None? <==> forall i :: 0 <= i < |vs| ==> !vs[i].ready
    ensures r.Some? ==> exists v :: GreatestReady(vs, v) && NoneReadyAbove(vs, v) && IsInsideSorting(v, r.value)
  {
    hide AtMost, IsInsideSorting, IsListSorting, NoneReadyAbove;
    var s: seq<View> :| IsSorting(vs, s, VersionOf) && AreInsideSortings(s, d);
    SameElements(s, vs);
    SameElements(vs, s);
    forall i | 0 <= i < |s| ensures d[i].ready == s[i].ready { SameVersion(s[i], d[i]); }
    assert Ascending(s, VersionOf);
    hide IsSorting;
    if r.Some? {
      var k :| IsLast(d, k, r.value);
      var v := s[k];
      assert v in vs && v.ready && IsInsideSorting(s[k], d[k]);
      forall w | w in vs && w.ready ensures w == v || AtMost(w.version, v.version) {
        assert w in s;
        var i :| 0 <= i < |s| && s[i] == w;
        assert d[i].ready;
        if i < k { assert AtMost(VersionOf(s[i]), VersionOf(s[k])); }
      }
      GreatestByFields(vs, v);
    } else {
      forall i | 0 <= i < |vs| ensures !vs[i].ready {
        assert vs[i] in s;
        var j :| 0 <= j < |s| && s[j] == vs[i];
        assert !d[j].ready;
      }
    }
  }
}
