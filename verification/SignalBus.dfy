/** The in-memory signal bus: named signals, each with a list of subscriptions
    that hold a one-slot channel. Lists are unordered and shrink by moving
    their last element into the gap. */
module SignalBus {
  import opened Subscriptions

  type Name = string
  type Sub = nat

  /** `slot` holds, per subscription created so far, whether its channel is full. */
  datatype Bus = Bus(signals: map<Name, seq<Sub>>, names: map<Sub, Name>,
                     slot: map<Sub, bool>, closed: set<Sub>)

  datatype Op =
    | Subscribe(sub: Sub, name: Name)
    | Close(sub: Sub)
    | Notify(name: Name)
    | IsSignaled(sub: Sub)

  function ListOf(b: Bus, name: Name): seq<Sub> { if name in b.signals then b.signals[name] else [] }

  function Without(b: Bus, name: Name, sub: Sub): map<Name, seq<Sub>> {
    var subs := ListOf(b, name);
    var i := IndexOf(subs, sub);
    if i == |subs| then b.signals
    else if |subs| == 1 then b.signals - {name}
    else b.signals[name := SwapRemove(subs, i)]
  }

  function Apply(b: Bus, op: Op): Bus {
    match op
    case Subscribe(sub, name) =>
      if sub in b.names then b
      else Bus(b.signals[name := ListOf(b, name) + [sub]], b.names[sub := name], b.slot[sub := false], b.closed)
    case Close(sub) =>
      if sub !in b.names || sub in b.closed then b
      else b.(signals := Without(b, b.names[sub], sub), closed := b.closed + {sub})
    case Notify(name) =>
      b.(slot := map s | s in b.slot :: b.slot[s] || s in ListOf(b, name))
    case IsSignaled(sub) => if sub in b.slot then b.(slot := b.slot[sub := false]) else b
  }

  const EMPTY := Bus(map[], map[], map[], {})

  function Run(h: seq<Op>): Bus {
    if h == [] then EMPTY else Apply(Run(h[..|h| - 1]), h[|h| - 1])
  }

  // ----- the plain reading of a history

  ghost predicate Born(h: seq<Op>, at: int, sub: Sub, name: Name) {
    0 <= at < |h| && h[at] == Subscribe(sub, name)
  }

  /** Nothing in `h` between `from` and `to` is `op`. */
  ghost predicate NoneBetween(h: seq<Op>, from: int, to: int, op: Op) {
    forall j | from < j < to && 0 <= j < |h| :: h[j] != op
  }

  /** The subscription exists under `name` and has not been closed. */
  ghost predicate Live(h: seq<Op>, sub: Sub, name: Name) {
    exists at :: Born(h, at, sub, name) && NoneBetween(h, at, |h|, Close(sub))
  }

  /** A notification of `name` at `n` reached the subscription born at `at`, and
      nobody has consumed the signal since. */
  ghost predicate SignaledBy(h: seq<Op>, sub: Sub, name: Name, at: int, n: int) {
    && Born(h, at, sub, name) && at < n < |h| && h[n] == Notify(name)
    && NoneBetween(h, at, n, Close(sub)) && NoneBetween(h, n, |h|, IsSignaled(sub))
  }

  ghost predicate Signaled(h: seq<Op>, sub: Sub) {
    exists name, at, n :: SignaledBy(h, sub, name, at, n)
  }

  /** Every Subscribe call creates an object of its own, which is used only
      after it has been created. */
  ghost predicate OwnObjects(h: seq<Op>) {
    forall i, j | 0 <= i < j < |h| && h[j].Subscribe? ::
      match h[i]
      case Subscribe(s, _) => s != h[j].sub
      case Close(s) => s != h[j].sub
      case IsSignaled(s) => s != h[j].sub
      case Notify(_) => true
  }

  ghost predicate Known(h: seq<Op>, sub: Sub) { exists at, name :: Born(h, at, sub, name) }

  predicate NoDuplicates(s: seq<Sub>) { forall i, j | 0 <= i < j < |s| :: s[i] != s[j] }

  predicate ListsAreSound(b: Bus) {
    && b.slot.Keys == b.names.Keys && b.closed <= b.names.Keys
    && (forall name | name in b.signals :: b.signals[name] != [] && NoDuplicates(b.signals[name]))
    && (forall name, s | name in b.signals && s in b.signals[name] ::
          s in b.names && b.names[s] == name && s !in b.closed)
    && (forall s | s in b.names && s !in b.closed :: s in ListOf(b, b.names[s]))
  }

  lemma SwapRemoveDropsOne(subs: seq<Sub>, i: nat)
    requires i < |subs| && NoDuplicates(subs)
    ensures NoDuplicates(SwapRemove(subs, i))
    ensures forall s :: s in SwapRemove(subs, i) <==> s in subs && s != subs[i]
  {
    var r := SwapRemove(subs, i);
    forall s | s in subs && s != subs[i] ensures s in r {
      var k :| 0 <= k < |subs| && subs[k] == s;
      assert r[if k == |subs| - 1 then i else k] == s;
    }
  }

  lemma CloseKeepsLists(b: Bus, sub: Sub)
    requires ListsAreSound(b) && sub in b.names && sub !in b.closed
    ensures ListsAreSound(Apply(b, Close(sub)))
  {
    var name := b.names[sub];
    var subs := ListOf(b, name);
    var c := Apply(b, Close(sub));
    SwapRemoveDropsOne(subs, IndexOf(subs, sub));
    assert forall s :: s in ListOf(c, name) <==> s in subs && s != sub by {
      if |subs| == 1 { assert subs == [sub]; }
    }
    assert forall n | n != name :: ListOf(c, n) == ListOf(b, n);
  }

  lemma ApplyKeepsLists(b: Bus, op: Op)
    requires ListsAreSound(b)
    ensures ListsAreSound(Apply(b, op))
  {
    match op
    case Close(sub) => if sub in b.names && sub !in b.closed { CloseKeepsLists(b, sub); }
    case Subscribe(sub, name) =>
      var c := Apply(b, op);
      if sub !in b.names {
        assert forall n | n != name :: ListOf(c, n) == ListOf(b, n);
        assert ListOf(c, name) == ListOf(b, name) + [sub];
        assert sub !in ListOf(b, name);
      }
    case _ =>
  }

  // ----- the lists refine the plain reading

  /** Whether the bus has subscription `s` open under `name`. */
  predicate IsOpen(b: Bus, s: Sub, name: Name) { s in b.names && b.names[s] == name && s !in b.closed }

  /** The bus holds of `s` exactly what the plain reading of the history says. */
  ghost predicate Agrees(b: Bus, h: seq<Op>, s: Sub) {
    && (s in b.names <==> Known(h, s))
    && (forall name :: IsOpen(b, s, name) <==> Live(h, s, name))
    && (s in b.slot ==> (b.slot[s] <==> Signaled(h, s)))
  }

  lemma BornStep(h: seq<Op>, op: Op, at: int, s: Sub, name: Name)
    ensures Born(h + [op], at, s, name) <==>
              Born(h, at, s, name) || (at == |h| && op == Subscribe(s, name))
  {
  }

  lemma LiveStep(h: seq<Op>, op: Op, s: Sub, name: Name)
    ensures Live(h + [op], s, name) <==> op == Subscribe(s, name) || (Live(h, s, name) && op != Close(s))
  {
    var h' := h + [op];
    if at :| Born(h', at, s, name) && NoneBetween(h', at, |h'|, Close(s)) {
      BornStep(h, op, at, s, name);
      if at < |h| {
        assert h'[|h|] != Close(s);
        assert forall j | at < j < |h| :: h'[j] == h[j];
        assert Born(h, at, s, name) && NoneBetween(h, at, |h|, Close(s));
      }
    }
    if op == Subscribe(s, name) {
      assert Born(h', |h|, s, name) && NoneBetween(h', |h|, |h'|, Close(s));
    } else if Live(h, s, name) && op != Close(s) {
      var at :| Born(h, at, s, name) && NoneBetween(h, at, |h|, Close(s));
      assert Born(h', at, s, name) && NoneBetween(h', at, |h'|, Close(s));
    }
  }

  lemma SignaledStep(h: seq<Op>, op: Op, s: Sub)
    ensures Signaled(h + [op], s) <==>
              (op.Notify? && Live(h, s, op.name)) || (Signaled(h, s) && op != IsSignaled(s))
  {
    var h' := h + [op];
    if name, at, n :| SignaledBy(h', s, name, at, n) {
      BornStep(h, op, at, s, name);
      assert forall j | 0 <= j < |h| :: h'[j] == h[j];
      if n == |h| {
        assert Born(h, at, s, name) && NoneBetween(h, at, |h|, Close(s));
      } else {
        assert h'[|h|] != IsSignaled(s);
        assert SignaledBy(h, s, name, at, n);
      }
    }
    if op.Notify? && Live(h, s, op.name) {
      var at :| Born(h, at, s, op.name) && NoneBetween(h, at, |h|, Close(s));
      assert SignaledBy(h', s, op.name, at, |h|);
    } else if Signaled(h, s) && op != IsSignaled(s) {
      var name, at, n :| SignaledBy(h, s, name, at, n);
      assert SignaledBy(h', s, name, at, n);
    }
  }

  lemma KnownStep(h: seq<Op>, op: Op, s: Sub)
    ensures Known(h + [op], s) <==> Known(h, s) || (op.Subscribe? && op.sub == s)
  {
    var h' := h + [op];
    if at, name :| Born(h', at, s, name) { BornStep(h, op, at, s, name); }
    if at, name :| Born(h, at, s, name) { BornStep(h, op, at, s, name); }
    if op.Subscribe? && op.sub == s { assert Born(h', |h|, s, op.name); }
  }

  lemma FreshWhenSubscribed(h: seq<Op>, op: Op)
    requires OwnObjects(h + [op]) && op.Subscribe?
    ensures !Known(h, op.sub) && !Signaled(h, op.sub) && !Live(h, op.sub, op.name)
  {
    var h' := h + [op];
    assert h'[|h|] == op;
    assert forall i | 0 <= i < |h| :: h'[i] == h[i];
  }

  lemma StepAgrees(b: Bus, h: seq<Op>, op: Op, s: Sub)
    requires ListsAreSound(b) && Agrees(b, h, s) && OwnObjects(h + [op])
    ensures Agrees(Apply(b, op), h + [op], s)
  {
    var c, h' := Apply(b, op), h + [op];
    if op.Subscribe? { FreshWhenSubscribed(h, op); }
    KnownStep(h, op, s);
    SignaledStep(h, op, s);
    forall name ensures IsOpen(c, s, name) <==> Live(h', s, name) { LiveStep(h, op, s, name); }
    if op.Notify? {
      assert IsOpen(b, s, op.name) <==> Live(h, s, op.name);
      assert s in ListOf(b, op.name) <==> IsOpen(b, s, op.name);
    }
  }

  lemma {:induction false} RunAgrees(h: seq<Op>, s: Sub)
    requires OwnObjects(h)
    ensures ListsAreSound(Run(h)) && Agrees(Run(h), h, s)
  {
    if h != [] {
      var g, op := h[..|h| - 1], h[|h| - 1];
      assert h == g + [op];
      RunAgrees(g, s);
      ApplyKeepsLists(Run(g), op);
      StepAgrees(Run(g), g, op, s);
    }
  }

  /** After any history of atomic calls, each name lists exactly its open
      subscriptions, once each, and only names with one are kept; a channel is
      full exactly when a notification came since creation or last consumption. */
  lemma BusIsASetOfOpenSubscriptions(h: seq<Op>, name: Name, s: Sub)
    requires OwnObjects(h)
    ensures name in Run(h).signals <==> exists t :: Live(h, t, name)
    ensures multiset(ListOf(Run(h), name))[s] == if Live(h, s, name) then 1 else 0
    ensures Known(h, s) ==> s in Run(h).slot && (Run(h).slot[s] <==> Signaled(h, s))
  {
    RunAgrees(h, s);
    var b := Run(h);
    var subs := ListOf(b, name);
    assert IsOpen(b, s, name) <==> Live(h, s, name);
    CountOnce(subs, s);
    if name in b.signals {
      RunAgrees(h, subs[0]);
      assert IsOpen(b, subs[0], name);
    }
    if t :| Live(h, t, name) {
      RunAgrees(h, t);
      assert IsOpen(b, t, name);
    }
  }

  lemma {:induction false} CountOnce(subs: seq<Sub>, s: Sub)
    requires NoDuplicates(subs)
    ensures multiset(subs)[s] == if s in subs then 1 else 0
  {
    if subs != [] {
      CountOnce(subs[1..], s);
      assert subs == [subs[0]] + subs[1..];
    }
  }

  /** The bus as the program keeps it; each call holds the lock throughout. */
  class MemoryBus {
    var signals: map<Name, seq<Sub>>
    var names: map<Sub, Name>
    var slot: map<Sub, bool>
    var closed: set<Sub>

    ghost function State(): Bus
      reads this
    {
      Bus(signals, names, slot, closed)
    }

    ghost predicate Valid()
      reads this
    {
      ListsAreSound(State())
    }

    constructor ()
      ensures Valid() && State() == EMPTY
    {
      signals, names, slot, closed := map[], map[], map[], {};
    }

    method Subscribe(sub: Sub, name: Name)
      requires Valid() && sub !in names
      modifies this
      ensures Valid() && State() == Apply(old(State()), Op.Subscribe(sub, name))
    {
      ApplyKeepsLists(State(), Op.Subscribe(sub, name));
      names, slot := names[sub := name], slot[sub := false];
      var subs := if name in signals then signals[name] else [];
      signals := signals[name := subs + [sub]];
    }

    /** A full channel takes no second signal. */
    method Fill(subs: seq<Sub>)
      requires forall s | s in subs :: s in slot
      modifies this`slot
      ensures slot == map s | s in old(slot) :: old(slot)[s] || s in subs
    {
      for i := 0 to |subs|
        invariant slot.Keys == old(slot).Keys
        invariant forall s | s in slot :: slot[s] == (old(slot[s]) || s in subs[..i])
      {
        assert subs[i] in subs;
        slot := slot[subs[i] := true];
      }
      assert subs[..|subs|] == subs;
    }

    method Notify(name: Name)
      requires Valid()
      modifies this`slot
      ensures Valid() && State() == Apply(old(State()), Op.Notify(name))
    {
      ApplyKeepsLists(State(), Op.Notify(name));
      var result := if name in signals then signals[name] else [];
      assert forall s | s in result :: s in slot;
      hide ListsAreSound;
      Fill(result);
    }

    /** Closing twice is harmless: the removal runs once per subscription. */
    method Close(sub: Sub)
      requires Valid() && sub in names
      modifies this
      ensures Valid() && State() == Apply(old(State()), Op.Close(sub))
    {
      ApplyKeepsLists(State(), Op.Close(sub));
      if sub in closed {
        return;
      }
      closed := closed + {sub};
      var name := names[sub];
      var subs := if name in signals then signals[name] else [];
      ghost var hit := IndexOf(subs, sub);
      for i := 0 to |subs|
        invariant names == old(names) && slot == old(slot) && closed == old(closed) + {sub}
        invariant signals == if i <= hit then old(signals) else Without(old(State()), name, sub)
      {
        if subs[i] == sub {
          assert i == hit;
          var lastIdx := |subs| - 1;
          if lastIdx != 0 {
            signals := signals[name := subs[i := subs[lastIdx]][..lastIdx]];
          } else {
            signals := signals - {name};
          }
        }
      }
    }

    method IsSignaled(sub: Sub) returns (signaled: bool)
      requires Valid() && sub in names
      modifies this`slot
      ensures Valid() && State() == Apply(old(State()), Op.IsSignaled(sub))
      ensures signaled == old(slot[sub])
    {
      ApplyKeepsLists(State(), Op.IsSignaled(sub));
      signaled := slot[sub];
      slot := slot[sub := false];
    }
  }
}
