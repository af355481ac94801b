/** What holds of any sort that only compares entries, whatever its method: it
    cannot succeed without having compared every entry. */
module ComparisonSorts {
  import opened Options
  import opened SemanticVersions
  import opened VersionSort

  /** A sort by comparisons of positions: it asks whether entry `i` is smaller
      than entry `j`, goes on by the answer, and in the end names an order. */
  datatype Tree = Order(order: seq<int>) | Ask(i: int, j: int, yes: Tree, no: Tree)

  predicate AsksBelow(t: Tree, n: nat) {
    t.Ask? ==> 0 <= t.i < n && 0 <= t.j < n && t.i != t.j && AsksBelow(t.yes, n) && AsksBelow(t.no, n)
  }

  function Answer(t: Tree, cmp: (int, int) -> int): seq<int> {
    match t
    case Order(order) => order
    case Ask(i, j, yes, no) => if cmp(i, j) == -1 then Answer(yes, cmp) else Answer(no, cmp)
  }

  predicate IsOrder(order: seq<int>, n: nat) {
    |order| == n && (forall a | 0 <= a < n :: 0 <= order[a] < n) && forall k | 0 <= k < n :: k in order
  }

  predicate Ascends(order: seq<int>, cmp: (int, int) -> int) {
    forall a, b | 0 <= a < b < |order| :: cmp(order[a], order[b]) <= 0
  }

  /** The tree sorts `n` entries, whatever their total preorder. */
  ghost predicate Sorts(t: Tree, n: nat) {
    AsksBelow(t, n) && forall cmp | TotalPreorder(cmp) :: IsOrder(Answer(t, cmp), n) && Ascends(Answer(t, cmp), cmp)
  }

  /** Two entries are sorted by one question. */
  lemma TwoAreSorted()
    ensures Sorts(Ask(0, 1, Order([0, 1]), Order([1, 0])), 2)
  {
    var t := Ask(0, 1, Order([0, 1]), Order([1, 0]));
    forall cmp: (int, int) -> int | TotalPreorder(cmp)
      ensures IsOrder(Answer(t, cmp), 2) && Ascends(Answer(t, cmp), cmp)
    {
      assert cmp(0, 1) == -cmp(1, 0);
    }
  }

  // ----- on labels, where a comparison can fail

  predicate IsWellFormed(labels: seq<Label>, i: int) { 0 <= i < |labels| && labels[i].parsed.Some? }

  /** The comparison as the sort sees it: one that fails counts as not smaller. */
  function Seen(labels: seq<Label>): (int, int) -> int {
    (i: int, j: int) =>
      if IsWellFormed(labels, i) && IsWellFormed(labels, j)
      then CompareBuildAware(labels[i].parsed.value, labels[j].parsed.value) else 0
  }

  /** Whether some comparison on the way fails. */
  predicate Fails(t: Tree, labels: seq<Label>) {
    t.Ask? &&
    (|| !IsWellFormed(labels, t.i) || !IsWellFormed(labels, t.j)
     || Fails(if Seen(labels)(t.i, t.j) == -1 then t.yes else t.no, labels))
  }

  /** Malformed entries after all others. */
  function MalformedLast(labels: seq<Label>): (int, int) -> int {
    (i: int, j: int) =>
      if IsWellFormed(labels, i) && IsWellFormed(labels, j)
      then CompareBuildAware(labels[i].parsed.value, labels[j].parsed.value)
      else if IsWellFormed(labels, i) then -1 else if IsWellFormed(labels, j) then 1 else 0
  }

  /** Entry `k` after or before all others, the rest by `cmp`. */
  function AtEnd(k: int, to: int, cmp: (int, int) -> int): (int, int) -> int {
    (i: int, j: int) => if EndFirst(k, to, i, j) != 0 then EndFirst(k, to, i, j) else cmp(i, j)
  }

  function EndFirst(k: int, to: int, i: int, j: int): int {
    CompareInts(if i == k then to else 0, if j == k then to else 0)
  }

  lemma MalformedLastIsTotal(labels: seq<Label>)
    ensures TotalPreorder(MalformedLast(labels))
  {
    BuildAwareTotalPreorder();
    hide CompareBuildAware;
    var f := MalformedLast(labels);
    forall a, b ensures f(a, b) in {-1, 0, 1} && f(a, b) == -f(b, a) {
      if IsWellFormed(labels, a) && IsWellFormed(labels, b) {
        assert CompareBuildAware(labels[a].parsed.value, labels[b].parsed.value)
               == -CompareBuildAware(labels[b].parsed.value, labels[a].parsed.value);
      }
    }
    forall a, b, c | f(a, b) <= 0 && f(b, c) <= 0 ensures f(a, c) <= 0 {
      if IsWellFormed(labels, a) && IsWellFormed(labels, b) && IsWellFormed(labels, c) {
        assert CompareBuildAware(labels[a].parsed.value, labels[b].parsed.value) <= 0
               && CompareBuildAware(labels[b].parsed.value, labels[c].parsed.value) <= 0;
      }
    }
  }

  lemma SamePreorder<T(!new)>(f: (T, T) -> int, g: (T, T) -> int)
    requires TotalPreorder(f) && forall a, b :: g(a, b) == f(a, b)
    ensures TotalPreorder(g)
  {
    forall a, b ensures g(a, b) in {-1, 0, 1} && g(a, b) == -g(b, a) {
      assert f(a, b) == -f(b, a);
    }
    forall a, b, c | g(a, b) <= 0 && g(b, c) <= 0 ensures g(a, c) <= 0 {
      assert f(a, b) <= 0 && f(b, c) <= 0;
    }
  }

  lemma EndFirstIsTotal(k: int, to: int)
    ensures TotalPreorder((i: int, j: int) => EndFirst(k, to, i, j))
  {
    var f := (i: int, j: int) => EndFirst(k, to, i, j);
    forall a, b, c | f(a, b) <= 0 && f(b, c) <= 0 ensures f(a, c) <= 0 {
      assert EndFirst(k, to, a, b) <= 0 && EndFirst(k, to, b, c) <= 0;
    }
  }

  lemma AtEndIsTotal(k: int, to: int, cmp: (int, int) -> int)
    requires TotalPreorder(cmp)
    ensures TotalPreorder(AtEnd(k, to, cmp))
  {
    var first := (i: int, j: int) => EndFirst(k, to, i, j);
    EndFirstIsTotal(k, to);
    ThenTotalPreorder(first, cmp);
    var both := (i: int, j: int) => if first(i, j) != 0 then first(i, j) else cmp(i, j);
    hide TotalPreorder;
    assert forall i, j :: AtEnd(k, to, cmp)(i, j) == both(i, j);
    SamePreorder(both, AtEnd(k, to, cmp));
  }

  /** Without a failed comparison, the sort goes the same way wherever a
      malformed entry belongs. */
  lemma {:induction false} SameWay(t: Tree, labels: seq<Label>, k: int, to: int)
    requires !Fails(t, labels) && !IsWellFormed(labels, k)
    ensures Answer(t, AtEnd(k, to, MalformedLast(labels))) == Answer(t, Seen(labels))
  {
    if t.Ask? {
      hide CompareBuildAware;
      assert t.i != k && t.j != k && EndFirst(k, to, t.i, t.j) == 0;
      assert AtEnd(k, to, MalformedLast(labels))(t.i, t.j) == Seen(labels)(t.i, t.j);
      if Seen(labels)(t.i, t.j) == -1 { SameWay(t.yes, labels, k, to); } else { SameWay(t.no, labels, k, to); }
    }
  }

  lemma {:induction false} FailureIsMalformed(t: Tree, labels: seq<Label>)
    requires AsksBelow(t, |labels|) && Fails(t, labels)
    ensures |labels| >= 2 && exists k | 0 <= k < |labels| :: labels[k].parsed.None?
  {
    if IsWellFormed(labels, t.i) && IsWellFormed(labels, t.j) {
      FailureIsMalformed(if Seen(labels)(t.i, t.j) == -1 then t.yes else t.no, labels);
    } else {
      var k := if IsWellFormed(labels, t.i) then t.j else t.i;
      assert labels[k].parsed.None?;
    }
  }

  /** No one order puts an entry at both ends. */
  lemma EndsDiffer(order: seq<int>, n: nat, k: int, cmp: (int, int) -> int)
    requires IsOrder(order, n) && n >= 2 && 0 <= k < n
    ensures !(Ascends(order, AtEnd(k, 1, cmp)) && Ascends(order, AtEnd(k, -1, cmp)))
  {
    var other := if k == 0 then 1 else 0;
    assert k in order && other in order;
    var p :| 0 <= p < n && order[p] == k;
    var q :| 0 <= q < n && order[q] == other;
    assert EndFirst(k, 1, k, other) == 1 && EndFirst(k, -1, other, k) == 1;
    assert AtEnd(k, 1, cmp)(k, other) == 1 && AtEnd(k, -1, cmp)(other, k) == 1;
    assert p < q ==> AtEnd(k, 1, cmp)(order[p], order[q]) == 1;
    assert q < p ==> AtEnd(k, -1, cmp)(order[q], order[p]) == 1;
  }

  /** A malformed entry that is never compared could belong first or last. */
  lemma MustBeCompared(t: Tree, labels: seq<Label>, k: int)
    requires Sorts(t, |labels|) && |labels| >= 2 && 0 <= k < |labels| && labels[k].parsed.None?
    ensures Fails(t, labels)
  {
    var cmp := MalformedLast(labels);
    MalformedLastIsTotal(labels);
    AtEndIsTotal(k, 1, cmp);
    AtEndIsTotal(k, -1, cmp);
    EndsDiffer(Answer(t, AtEnd(k, 1, cmp)), |labels|, k, cmp);
    if !Fails(t, labels) {
      SameWay(t, labels, k, 1);
      SameWay(t, labels, k, -1);
    }
  }

  /** Any sort of labels by comparisons meets a failing one if and only if there
      are two or more labels and one of them is malformed. */
  lemma FailsExactlyOnMalformed(t: Tree, labels: seq<Label>)
    requires Sorts(t, |labels|)
    ensures Fails(t, labels) <==> |labels| >= 2 && exists k | 0 <= k < |labels| :: labels[k].parsed.None?
  {
    if Fails(t, labels) {
      FailureIsMalformed(t, labels);
    } else if |labels| >= 2 {
      forall k | 0 <= k < |labels| ensures labels[k].parsed.Some? {
        if labels[k].parsed.None? { MustBeCompared(t, labels, k); }
      }
    }
  }

  lemma AnswersAgree(t: Tree, labels: seq<Label>)
    requires WellFormed(labels, (l: Label) => l) && AsksBelow(t, |labels|)
    ensures Answer(t, MalformedLast(labels)) == Answer(t, Seen(labels))
  {
    if t.Ask? {
      assert ((l: Label) => l)(labels[t.i]).parsed.Some? && ((l: Label) => l)(labels[t.j]).parsed.Some?;
      AnswersAgree(t.yes, labels);
      AnswersAgree(t.no, labels);
    }
  }

  /** When none fails, the order it names is ascending. */
  lemma SucceedsAscending(t: Tree, labels: seq<Label>, a: nat, b: nat)
    requires Sorts(t, |labels|) && !Fails(t, labels) && a < b < |labels|
    ensures var order := Answer(t, Seen(labels));
            && IsOrder(order, |labels|) && 0 <= order[a] < |labels| && 0 <= order[b] < |labels|
            && AtMost(labels[order[a]], labels[order[b]])
  {
    FailsExactlyOnMalformed(t, labels);
    MalformedLastIsTotal(labels);
    AnswersAgree(t, labels);
    var order := Answer(t, Seen(labels));
    assert IsOrder(order, |labels|) && Ascends(order, MalformedLast(labels));
    assert MalformedLast(labels)(order[a], order[b]) <= 0;
  }
}
