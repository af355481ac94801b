/** A notification takes the list of one name under the lock and then walks it
    without the lock, one element at a time, while other calls change the
    backing array underneath it. */
module NotifyWalk {
  import opened Options
  import opened Subscriptions

  /** Subscriptions are told apart by identity only. */
  type Sub = int

  // ----- the list of one name and its backing arrays

  /** A list is the first `len` cells of backing array `arr`; the rest of the
      array is spare capacity. */
  datatype Slice = Slice(arr: nat, len: nat)

  datatype Lists = Lists(arrays: map<nat, seq<Sub>>, current: Option<Slice>)

  /** A walk reads cells `pos..end` of the array it took the list from. */
  datatype Walk = Walk(arr: nat, pos: nat, end: nat)

  predicate ValidLists(l: Lists) {
    l.current.Some? ==> l.current.value.arr in l.arrays && 0 < l.current.value.len <= |l.arrays[l.current.value.arr]|
  }

  predicate ValidWalk(l: Lists, w: Walk) {
    w.arr in l.arrays && w.pos <= w.end <= |l.arrays[w.arr]|
  }

  function Listed(l: Lists): seq<Sub>
    requires ValidLists(l)
  {
    if l.current.None? then [] else l.arrays[l.current.value.arr][..l.current.value.len]
  }

  /** The cells a walk has still to read, as they are now. */
  function Rest(l: Lists, w: Walk): seq<Sub>
    requires ValidWalk(l, w)
  {
    l.arrays[w.arr][w.pos..w.end]
  }

  /** The last entry is moved into the hole, in place. */
  function Removed(l: Lists, sub: Sub): (r: Lists)
    requires ValidLists(l)
    ensures ValidLists(r)
  {
    var i := IndexOf(Listed(l), sub);
    if i == |Listed(l)| then l
    else
      var c := l.current.value;
      var last := c.len - 1;
      if last == 0 then l.(current := None)
      else Lists(l.arrays[c.arr := l.arrays[c.arr][i := l.arrays[c.arr][last]]], Some(Slice(c.arr, last)))
  }

  /** The list afterwards is that of the bus. */
  lemma RemovedIsSwapRemove(l: Lists, sub: Sub)
    requires ValidLists(l) && sub in Listed(l)
    ensures Listed(Removed(l, sub)) == SwapRemove(Listed(l), IndexOf(Listed(l), sub))
  {
    var i := IndexOf(Listed(l), sub);
    if |Listed(l)| == 1 { assert SwapRemove(Listed(l), i) == []; }
  }

  /** Appending writes into the shared array while there is room, and otherwise
      copies the list to a new array `arr` with capacity `spare`. */
  function Added(l: Lists, sub: Sub, arr: nat, spare: seq<Sub>): (r: Lists)
    requires ValidLists(l)
    ensures ValidLists(r)
  {
    if l.current.Some? && l.current.value.len < |l.arrays[l.current.value.arr]| then
      var c := l.current.value;
      Lists(l.arrays[c.arr := l.arrays[c.arr][c.len := sub]], Some(Slice(c.arr, c.len + 1)))
    else if arr in l.arrays then l // not a new array
    else Lists(l.arrays[arr := Listed(l) + [sub] + spare], Some(Slice(arr, |Listed(l)| + 1)))
  }

  // ----- what an append and a removal do to a walk

  /** An append would write into the part that the walk has taken. */
  predicate Overwrites(l: Lists, w: Walk) {
    l.current.Some? && l.current.value.arr == w.arr && l.current.value.len < w.end
  }

  /** The cell an append would write is the only one left in which the walk
      could still find `x`. */
  predicate Loses(l: Lists, w: Walk, x: Sub)
    requires ValidWalk(l, w)
  {
    && Overwrites(l, w)
    && var k := l.current.value.len;
       w.pos <= k && l.arrays[w.arr][k] == x && forall j | w.pos <= j < w.end && j != k :: l.arrays[w.arr][j] != x
  }

  /** `x` is not listed past the end of the walk. */
  predicate NotBeyond(l: Lists, w: Walk, x: Sub)
    requires ValidLists(l) && ValidWalk(l, w)
  {
    l.current.Some? && l.current.value.arr == w.arr ==>
      forall k | w.end <= k < l.current.value.len :: l.arrays[w.arr][k] != x
  }

  lemma At(l: Lists, w: Walk, x: Sub, k: nat)
    requires ValidWalk(l, w) && w.pos <= k < w.end && l.arrays[w.arr][k] == x
    ensures x in Rest(l, w)
  {
    assert Rest(l, w)[k - w.pos] == x;
  }

  /** An append changes at most one cell of the arrays there are, the one after
      the list. */
  lemma AddedCells(l: Lists, sub: Sub, arr: nat, spare: seq<Sub>)
    requires ValidLists(l)
    ensures var r := Added(l, sub, arr, spare);
            && l.arrays.Keys <= r.arrays.Keys
            && (forall a | a in l.arrays :: |r.arrays[a]| == |l.arrays[a]|)
            && (forall a, k | a in l.arrays && 0 <= k < |l.arrays[a]| ::
                  r.arrays[a][k] == if l.current == Some(Slice(a, k)) then sub else l.arrays[a][k])
            && (r.current.Some? && r.current.value.arr in l.arrays ==>
                  && l.current.Some? && r.current.value.arr == l.current.value.arr
                  && r.current.value.len <= l.current.value.len + 1)
  {
  }

  /** A walk keeps `x` ahead of it through an append exactly if the append does
      not write over the last cell that holds it. */
  lemma AddedKeepsExactly(l: Lists, w: Walk, x: Sub, sub: Sub, arr: nat, spare: seq<Sub>)
    requires ValidLists(l) && ValidWalk(l, w) && sub != x
    ensures var r := Added(l, sub, arr, spare);
            ValidWalk(r, w) && (x in Rest(r, w) <==> x in Rest(l, w) && !Loses(l, w, x))
            && (NotBeyond(l, w, x) ==> NotBeyond(r, w, x))
  {
    AddedCells(l, sub, arr, spare);
    hide Added;
    var r := Added(l, sub, arr, spare);
    var a, b := l.arrays[w.arr], r.arrays[w.arr];
    if x in Rest(l, w) && !Loses(l, w, x) {
      var k :| w.pos <= k < w.end && a[k] == x;
      if b[k] == x {
        At(r, w, x, k);
      } else {
        var j :| w.pos <= j < w.end && j != k && a[j] == x;
        At(r, w, x, j);
      }
    }
    if x in Rest(r, w) {
      var k :| w.pos <= k < w.end && b[k] == x;
      At(l, w, x, k);
    }
  }

  /** A removal changes at most one cell, from the removed entry to the last one. */
  lemma RemovedCells(l: Lists, sub: Sub)
    requires ValidLists(l)
    ensures var r := Removed(l, sub);
            && r.arrays.Keys == l.arrays.Keys
            && (forall a | a in l.arrays :: |r.arrays[a]| == |l.arrays[a]|)
            && (r.current.Some? ==> l.current.Some? && r.current.value.arr == l.current.value.arr
                                    && r.current.value.len <= l.current.value.len)
            && (forall a, k | a in l.arrays && 0 <= k < |l.arrays[a]| && r.arrays[a][k] != l.arrays[a][k] ::
                  && l.current.Some? && a == l.current.value.arr && k < l.current.value.len
                  && l.arrays[a][k] == sub && r.arrays[a][k] == l.arrays[a][l.current.value.len - 1])
  {
  }

  lemma RemovedKeeps(l: Lists, w: Walk, x: Sub, sub: Sub)
    requires ValidLists(l) && ValidWalk(l, w) && sub != x
    ensures var r := Removed(l, sub);
            ValidWalk(r, w) && (x in Rest(l, w) ==> x in Rest(r, w))
            && (NotBeyond(l, w, x) ==> NotBeyond(r, w, x) && (x in Rest(r, w) ==> x in Rest(l, w)))
  {
    RemovedCells(l, sub);
    hide Removed;
    var r := Removed(l, sub);
    if x in Rest(l, w) {
      var k :| w.pos <= k < w.end && l.arrays[w.arr][k] == x;
      At(r, w, x, k);
    }
    if NotBeyond(l, w, x) {
      if x in Rest(r, w) {
        var k :| w.pos <= k < w.end && r.arrays[w.arr][k] == x;
        At(l, w, x, if l.arrays[w.arr][k] == x then k else l.current.value.len - 1);
      }
      forall k | r.current.Some? && r.current.value.arr == w.arr && w.end <= k < r.current.value.len
        ensures r.arrays[w.arr][k] != x
      {
        assert l.arrays[w.arr][k] != x && l.arrays[w.arr][l.current.value.len - 1] != x;
      }
    }
  }

  lemma AddedLists(l: Lists, sub: Sub, arr: nat, spare: seq<Sub>)
    requires ValidLists(l)
    ensures var r := Added(l, sub, arr, spare);
            && (forall x | x in Listed(l) :: x in Listed(r))
            && (arr !in l.arrays ==> Listed(r) == Listed(l) + [sub])
            && (forall w | ValidWalk(l, w) :: ValidWalk(r, w))
  {
    var r := Added(l, sub, arr, spare);
    assert r == l || Listed(r) == Listed(l) + [sub];
  }

  lemma RemovedLists(l: Lists, sub: Sub)
    requires ValidLists(l)
    ensures var r := Removed(l, sub);
            && (forall x | x in Listed(l) && x != sub :: x in Listed(r))
            && (forall w | ValidWalk(l, w) :: ValidWalk(r, w))
  {
    RemovedCells(l, sub);
    var r := Removed(l, sub);
    forall x | x in Listed(l) && x != sub ensures x in Listed(r) {
      var k :| 0 <= k < |Listed(l)| && Listed(l)[k] == x;
      var i := IndexOf(Listed(l), sub);
      if i < |Listed(l)| {
        assert |Listed(l)| > 1;
        assert Listed(r)[if k == |Listed(l)| - 1 then i else k] == x;
      }
    }
  }

  // ----- one walk among other calls

  datatype State = State(lists: Lists, walk: Walk, signaled: set<Sub>, closed: set<Sub>)

  datatype Step = Advance | Close(sub: Sub) | Subscribe(sub: Sub, arr: nat, spare: seq<Sub>)

  predicate Valid(s: State) { ValidLists(s.lists) && ValidWalk(s.lists, s.walk) }

  function Next(s: State, step: Step): (t: State)
    requires Valid(s)
    ensures Valid(t)
  {
    match step
    case Advance =>
      if s.walk.pos == s.walk.end then s
      else s.(walk := s.walk.(pos := s.walk.pos + 1),
              signaled := s.signaled + {s.lists.arrays[s.walk.arr][s.walk.pos]})
    case Close(sub) => s.(lists := Removed(s.lists, sub), closed := s.closed + {sub})
    case Subscribe(sub, arr, spare) => s.(lists := Added(s.lists, sub, arr, spare))
  }

  function Run(s: State, steps: seq<Step>): (t: State)
    requires Valid(s)
    ensures Valid(t)
    decreases |steps|
  {
    if steps == [] then s else Run(Next(s, steps[0]), steps[1..])
  }

  /** A walk that has just taken the list of the name. */
  predicate IsSnapshot(s: State) {
    && Valid(s) && s.signaled == {} && s.closed == {}
    && s.lists.current == Some(Slice(s.walk.arr, s.walk.end)) && s.walk.pos == 0
  }

  /** Subscribe makes new objects: none of the steps subscribes `x` itself. */
  predicate OthersSubscribe(steps: seq<Step>, x: Sub) {
    forall i | 0 <= i < |steps| && steps[i].Subscribe? :: steps[i].sub != x
  }

  predicate Pending(s: State, x: Sub)
    requires Valid(s)
  {
    x in s.signaled || x in Rest(s.lists, s.walk)
  }

  /** The step appends over the last cell in which the walk could have found
      `x`, which it has not signalled yet. */
  predicate LosesNow(s: State, step: Step, x: Sub)
    requires Valid(s)
  {
    step.Subscribe? && x !in s.signaled && Loses(s.lists, s.walk, x)
  }

  /** Some step of the run does. */
  predicate Lost(s: State, steps: seq<Step>, x: Sub)
    requires Valid(s)
    decreases |steps|
  {
    steps != [] && (LosesNow(s, steps[0], x) || Lost(Next(s, steps[0]), steps[1..], x))
  }

  lemma AdvanceKeeps(s: State, x: Sub)
    requires Valid(s)
    ensures Pending(Next(s, Advance), x) <==> Pending(s, x)
  {
    if s.walk.pos < s.walk.end {
      var a := s.lists.arrays[s.walk.arr];
      assert a[s.walk.pos..s.walk.end] == [a[s.walk.pos]] + a[s.walk.pos + 1..s.walk.end];
    }
  }

  /** One step: an open subscription that the walk can still reach stays so,
      unless the step loses it, and one that it cannot reach stays out of reach. */
  lemma StepKeepsPendingExactly(s: State, step: Step, x: Sub)
    requires Valid(s) && NotBeyond(s.lists, s.walk, x) && OthersSubscribe([step], x)
    requires x !in Next(s, step).closed
    ensures Pending(Next(s, step), x) <==> Pending(s, x) && !LosesNow(s, step, x)
    ensures NotBeyond(Next(s, step).lists, Next(s, step).walk, x)
  {
    assert [step][0] == step;
    match step
    case Advance => AdvanceKeeps(s, x);
    case Close(sub) => RemovedKeeps(s.lists, s.walk, x, sub);
    case Subscribe(sub, arr, spare) => AddedKeepsExactly(s.lists, s.walk, x, sub, arr, spare);
  }

  lemma {:induction false} ClosedGrows(s: State, steps: seq<Step>)
    requires Valid(s)
    ensures s.closed <= Run(s, steps).closed
    decreases |steps|
  {
    if steps != [] { ClosedGrows(Next(s, steps[0]), steps[1..]); }
  }

  lemma {:induction false} RunKeepsPendingExactly(s: State, steps: seq<Step>, x: Sub)
    requires Valid(s) && NotBeyond(s.lists, s.walk, x) && OthersSubscribe(steps, x)
    requires x !in Run(s, steps).closed
    ensures Pending(Run(s, steps), x) <==> Pending(s, x) && !Lost(s, steps, x)
    decreases |steps|
  {
    if steps != [] {
      var t, rest := Next(s, steps[0]), steps[1..];
      ClosedGrows(t, rest);
      StepKeepsPendingExactly(s, steps[0], x);
      RunKeepsPendingExactly(t, rest, x);
    }
  }

  /** A finished walk has missed a subscription that was listed when it started
      and is still open if and only if some Subscribe on the way appended over
      the last cell in which the walk could have found it. */
  lemma MissedExactly(s: State, steps: seq<Step>, x: Sub)
    requires IsSnapshot(s) && OthersSubscribe(steps, x)
    requires x in Listed(s.lists) && x !in Run(s, steps).closed
    requires Run(s, steps).walk.pos == Run(s, steps).walk.end
    ensures x !in Run(s, steps).signaled <==> Lost(s, steps, x)
  {
    RunKeepsPendingExactly(s, steps, x);
  }

  // ----- runs that append nothing into the walked part

  predicate NeverOverwrites(s: State, steps: seq<Step>)
    requires Valid(s)
    decreases |steps|
  {
    steps == [] ||
    (!(steps[0].Subscribe? && Overwrites(s.lists, s.walk)) && NeverOverwrites(Next(s, steps[0]), steps[1..]))
  }

  lemma AddedElsewhereKeeps(l: Lists, w: Walk, x: Sub, sub: Sub, arr: nat, spare: seq<Sub>)
    requires ValidLists(l) && ValidWalk(l, w) && !Overwrites(l, w)
    ensures var r := Added(l, sub, arr, spare); ValidWalk(r, w) && Rest(r, w) == Rest(l, w)
  {
  }

  lemma {:induction false} RunKeepsPending(s: State, steps: seq<Step>, x: Sub)
    requires Valid(s) && NeverOverwrites(s, steps) && Pending(s, x) && x !in Run(s, steps).closed
    ensures Pending(Run(s, steps), x)
    decreases |steps|
  {
    if steps != [] {
      var t, rest := Next(s, steps[0]), steps[1..];
      ClosedGrows(t, rest);
      match steps[0] {
        case Advance => AdvanceKeeps(s, x);
        case Close(sub) => RemovedKeeps(s.lists, s.walk, x, sub);
        case Subscribe(sub, arr, spare) => AddedElsewhereKeeps(s.lists, s.walk, x, sub, arr, spare);
      }
      RunKeepsPending(t, rest, x);
    }
  }

  /** A finished walk has signalled every subscription that was listed when it
      started and has not been closed meanwhile, if nothing was appended into the
      part of the array it walks. */
  lemma WalkReachesEveryOpenSubscription(s: State, steps: seq<Step>, x: Sub)
    requires IsSnapshot(s) && NeverOverwrites(s, steps)
    requires x in Listed(s.lists) && x !in Run(s, steps).closed
    requires Run(s, steps).walk.pos == Run(s, steps).walk.end
    ensures x in Run(s, steps).signaled
  {
    RunKeepsPending(s, steps, x);
  }

  /** No Subscribe comes after a Close. */
  predicate SubscribesFirst(steps: seq<Step>) {
    forall i, j | 0 <= i < j < |steps| && steps[i].Close? :: !steps[j].Subscribe?
  }

  lemma {:induction false} SubscribesFirstNeverOverwrites(s: State, steps: seq<Step>)
    requires Valid(s) && SubscribesFirst(steps)
    requires (s.lists.current.Some? && !Overwrites(s.lists, s.walk))
             || forall i | 0 <= i < |steps| :: !steps[i].Subscribe?
    ensures NeverOverwrites(s, steps)
    decreases |steps|
  {
    if steps != [] {
      assert steps[0].Close? ==> forall i | 0 <= i < |steps[1..]| :: !steps[1..][i].Subscribe?;
      SubscribesFirstNeverOverwrites(Next(s, steps[0]), steps[1..]);
    }
  }

  /** In particular the walk is safe against any number of closes, and against
      subscriptions made before them. */
  lemma ClosesDoNotLoseSignals(s: State, steps: seq<Step>, x: Sub)
    requires IsSnapshot(s) && SubscribesFirst(steps)
    requires x in Listed(s.lists) && x !in Run(s, steps).closed
    requires Run(s, steps).walk.pos == Run(s, steps).walk.end
    ensures x in Run(s, steps).signaled
  {
    SubscribesFirstNeverOverwrites(s, steps);
    WalkReachesEveryOpenSubscription(s, steps, x);
  }

  // ----- a Subscribe after a Close

  function Advances(n: nat): seq<Step> { seq(n, _ => Advance) }

  lemma {:induction false} AdvancesSignalTheRest(s: State, n: nat)
    requires Valid(s) && s.walk.pos + n == s.walk.end
    ensures var t := Run(s, Advances(n));
            && t.walk.pos == t.walk.end && t.closed == s.closed && t.lists == s.lists
            && forall x :: x in t.signaled <==> x in s.signaled || x in Rest(s.lists, s.walk)
    decreases n
  {
    if n > 0 {
      var s1 := Next(s, Advance);
      assert Advances(n)[1..] == Advances(n - 1);
      AdvancesSignalTheRest(s1, n - 1);
      var a := s.lists.arrays[s.walk.arr];
      assert a[s.walk.pos..s.walk.end] == [a[s.walk.pos]] + a[s.walk.pos + 1..s.walk.end];
    }
  }

  /** Whatever the list, once the walk has passed its first entry, closing that
      entry and then subscribing anew makes the walk miss the last one, which
      was moved to the front and overwritten at the back. */
  lemma SubscribeAfterCloseLosesASignal(s: State, added: Sub)
    requires IsSnapshot(s) && |Listed(s.lists)| >= 2 && added !in Listed(s.lists)
    requires forall i, j | 0 <= i < j < |Listed(s.lists)| :: Listed(s.lists)[i] != Listed(s.lists)[j]
    ensures var subs := Listed(s.lists);
            var t := Run(s, [Advance, Close(subs[0]), Subscribe(added, 0, [])] + Advances(|subs| - 1));
            var missed := subs[|subs| - 1];
            t.walk.pos == t.walk.end && missed in Listed(t.lists) && missed !in t.closed && missed !in t.signaled
  {
    var subs := Listed(s.lists);
    var n := |subs|;
    var rest := Advances(n - 1);
    var steps := [Advance, Close(subs[0]), Subscribe(added, 0, [])] + rest;
    var s1 := Next(s, Advance);
    var s2 := Next(s1, Close(subs[0]));
    var s3 := Next(s2, Subscribe(added, 0, []));
    var steps1 := [Close(subs[0]), Subscribe(added, 0, [])] + rest;
    var steps2 := [Subscribe(added, 0, [])] + rest;
    assert steps[1..] == steps1 && steps1[1..] == steps2 && steps2[1..] == rest;
    assert Run(s, steps) == Run(s1, steps1) == Run(s2, steps2) == Run(s3, rest);
    assert IndexOf(Listed(s1.lists), subs[0]) == 0;
    var a := s3.lists.arrays[s3.walk.arr];
    assert a[..n] == [subs[n - 1]] + subs[1..n - 1] + [added];
    assert a[1..n] == subs[1..n - 1] + [added];
    AdvancesSignalTheRest(s3, n - 1);
    assert Listed(s3.lists)[0] == subs[n - 1];
  }
}
