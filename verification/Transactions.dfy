/** The transaction of a request context: a sticky rollback flag, a resolved
    flag, and actions that run after a commit. */
module Transactions {

  /** Registered actions are told apart by number. */
  type Action = int

  datatype Tx = Tx(resolved: bool, rollback: bool, pending: seq<Action>)

  /** `ok` tells whether the database went along. */
  datatype Op = Begin(ok: bool) | Add(action: Action) | Mark | Resolve(ok: bool)

  predicate Commits(tx: Tx, op: Op) { op == Resolve(true) && !tx.resolved && !tx.rollback }

  function Apply(tx: Tx, op: Op): Tx {
    match op
    case Begin(ok) => if ok then Tx(false, false, tx.pending) else tx
    case Add(a) => tx.(pending := tx.pending + [a])
    case Mark => tx.(rollback := true)
    case Resolve(_) => if tx.resolved then tx else tx.(resolved := true, pending := [])
  }

  /** A transaction as a new context holds it. */
  const NEW := Tx(false, false, [])

  class TxFactory {
    var resolved: bool
    var rollbackFlag: bool
    var postCommitActions: seq<Action>
    /** The actions that have run, in order. */
    var executed: seq<Action>

    ghost function State(): Tx
      reads this
    {
      Tx(resolved, rollbackFlag, postCommitActions)
    }

    constructor ()
      ensures State() == NEW && executed == []
    {
      resolved, rollbackFlag, postCommitActions, executed := false, false, [], [];
    }

    method Begin(ok: bool) returns (error: bool)
      modifies this
      ensures State() == Apply(old(State()), Op.Begin(ok)) && error == !ok && executed == old(executed)
    {
      if !ok {
        return true;
      }
      resolved := false;
      rollbackFlag := false;
      error := false;
    }

    method Resolve(ok: bool) returns (error: bool)
      modifies this
      ensures State() == Apply(old(State()), Op.Resolve(ok))
      ensures executed == old(executed) + if Commits(old(State()), Op.Resolve(ok)) then old(postCommitActions) else []
      ensures error == (!old(resolved) && !ok)
    {
      if resolved {
        return false;
      }
      resolved := true;
      var actions := postCommitActions;
      postCommitActions := [];
      if !ok {
        return true;
      }
      if !rollbackFlag {
        for i := 0 to |actions|
          invariant executed == old(executed) + actions[..i]
          invariant resolved && !rollbackFlag && postCommitActions == []
        {
          executed := executed + [actions[i]];
        }
        assert actions[..|actions|] == actions;
      }
      error := false;
    }
  }

  /** The context functions fail, and change nothing, without a transaction. */
  method ResolveContext(tx: TxFactory?, ok: bool) returns (error: bool)
    modifies tx
    ensures tx == null ==> error
    ensures tx != null ==>
              && tx.State() == Apply(old(tx.State()), Resolve(ok)) && error == (!old(tx.resolved) && !ok)
              && tx.executed == old(tx.executed)
                 + if Commits(old(tx.State()), Resolve(ok)) then old(tx.postCommitActions) else []
  {
    if tx == null {
      return true;
    }
    error := tx.Resolve(ok);
  }

  method AddPostCommitAction(tx: TxFactory?, action: Action) returns (error: bool)
    modifies tx
    ensures error == (tx == null)
    ensures tx != null ==> tx.State() == Apply(old(tx.State()), Add(action)) && tx.executed == old(tx.executed)
  {
    if tx == null {
      return true;
    }
    tx.postCommitActions := tx.postCommitActions + [action];
    error := false;
  }

  method MarkForRollback(tx: TxFactory?)
    modifies tx
    ensures tx != null ==> tx.State() == Apply(old(tx.State()), Mark) && tx.executed == old(tx.executed)
  {
    if tx != null {
      tx.rollbackFlag := true;
    }
  }

  // ----- histories

  function After(h: seq<Op>): Tx {
    if h == [] then NEW else Apply(After(h[..|h| - 1]), h[|h| - 1])
  }

  /** What the actions have done by the end of a history. */
  function Executed(h: seq<Op>): seq<Action> {
    if h == [] then []
    else
      var g, op := h[..|h| - 1], h[|h| - 1];
      Executed(g) + if Commits(After(g), op) then After(g).pending else []
  }

  // ----- the plain reading of a history

  /** Begun at `b`, or by the new context if `b` is -1, and not resolved since. */
  predicate OpenSince(h: seq<Op>, b: int, j: int) {
    -1 <= b < j <= |h| && (b == -1 || h[b] == Begin(true)) && forall k | b < k < j :: !h[k].Resolve?
  }

  /** A transaction is open before `j`. */
  ghost predicate OpenAt(h: seq<Op>, j: nat) { exists b :: OpenSince(h, b, j) }

  predicate MarkedBy(h: seq<Op>, m: int, j: int) {
    0 <= m < j <= |h| && h[m].Mark? && forall k | m < k < j :: h[k] != Begin(true)
  }

  /** It has been marked for rollback since it was last begun. */
  ghost predicate MarkedAt(h: seq<Op>, j: nat) { exists m :: MarkedBy(h, m, j) }

  /** A Resolve that is not a no-op. */
  ghost predicate Resolves(h: seq<Op>, j: nat)
    requires j < |h|
  {
    h[j].Resolve? && OpenAt(h, j)
  }

  ghost predicate CommitsAt(h: seq<Op>, j: nat)
    requires j < |h|
  {
    Resolves(h, j) && h[j].ok && !MarkedAt(h, j)
  }

  /** `j` is the first Resolve after `i` that is not a no-op. */
  ghost predicate FirstResolve(h: seq<Op>, i: nat, j: nat)
    requires i < j < |h|
  {
    Resolves(h, j) && forall k | i < k < j :: !Resolves(h, k)
  }

  /** The action registered at `i` is due: its transaction's outcome was a commit. */
  ghost predicate IsDue(h: seq<Op>, i: nat)
    requires i < |h|
  {
    exists j | i < j < |h| :: FirstResolve(h, i, j) && CommitsAt(h, j)
  }

  ghost predicate IsUntouched(h: seq<Op>, i: nat) { forall k | i < k < |h| :: !Resolves(h, k) }

  /** The contributions of one registration to the two lists. */
  ghost function DueHere(h: seq<Op>, i: nat): seq<Action>
    requires i < |h|
  {
    if h[i].Add? && IsDue(h, i) then [h[i].action] else []
  }

  ghost function WaitingHere(h: seq<Op>, i: nat): seq<Action>
    requires i < |h|
  {
    if h[i].Add? && IsUntouched(h, i) then [h[i].action] else []
  }

  /** The due registrations before `n`, in registration order. */
  ghost function Due(h: seq<Op>, n: nat): seq<Action>
    requires n <= |h|
  {
    if n == 0 then [] else Due(h, n - 1) + DueHere(h, n - 1)
  }

  /** The registrations before `n` that no Resolve has come to yet. */
  ghost function Waiting(h: seq<Op>, n: nat): seq<Action>
    requires n <= |h|
  {
    if n == 0 then [] else Waiting(h, n - 1) + WaitingHere(h, n - 1)
  }

  // ----- one more operation

  lemma OpenStep(h: seq<Op>, op: Op)
    ensures OpenAt(h + [op], |h| + 1) <==> op == Begin(true) || (OpenAt(h, |h|) && !op.Resolve?)
  {
    var g := h + [op];
    if op == Begin(true) { assert OpenSince(g, |h|, |g|); }
    if b :| OpenSince(h, b, |h|) {
      if !op.Resolve? { assert OpenSince(g, b, |g|); }
    }
    if b :| OpenSince(g, b, |g|) {
      if b != |h| {
        assert OpenSince(h, b, |h|) by { assert forall k | 0 <= k < |h| :: g[k] == h[k]; }
        assert g[|h|] == op;
      }
    }
  }

  lemma MarkedStep(h: seq<Op>, op: Op)
    ensures MarkedAt(h + [op], |h| + 1) <==> op.Mark? || (MarkedAt(h, |h|) && op != Begin(true))
  {
    var g := h + [op];
    if op.Mark? { assert MarkedBy(g, |h|, |g|); }
    if m :| MarkedBy(h, m, |h|) {
      if op != Begin(true) { assert MarkedBy(g, m, |g|); }
    }
    if m :| MarkedBy(g, m, |g|) {
      if m != |h| {
        assert MarkedBy(h, m, |h|) by { assert forall k | 0 <= k < |h| :: g[k] == h[k]; }
        assert g[|h|] == op;
      }
    }
  }

  lemma PrefixReadings(h: seq<Op>, op: Op, j: nat)
    requires j <= |h|
    ensures OpenAt(h + [op], j) == OpenAt(h, j) && MarkedAt(h + [op], j) == MarkedAt(h, j)
    ensures j < |h| ==> Resolves(h + [op], j) == Resolves(h, j) && CommitsAt(h + [op], j) == CommitsAt(h, j)
  {
    var g := h + [op];
    assert forall k | 0 <= k < |h| :: g[k] == h[k];
    forall b ensures OpenSince(g, b, j) == OpenSince(h, b, j) && MarkedBy(g, b, j) == MarkedBy(h, b, j) {}
    assert OpenAt(g, j) == OpenAt(h, j) by {
      if b :| OpenSince(g, b, j) { assert OpenSince(h, b, j); }
      if b :| OpenSince(h, b, j) { assert OpenSince(g, b, j); }
    }
    assert MarkedAt(g, j) == MarkedAt(h, j) by {
      if m :| MarkedBy(g, m, j) { assert MarkedBy(h, m, j); }
      if m :| MarkedBy(h, m, j) { assert MarkedBy(g, m, j); }
    }
  }

  /** The flags are what the plain reading says. */
  lemma {:induction false} FlagsAreTheReading(h: seq<Op>)
    ensures After(h).resolved == !OpenAt(h, |h|) && After(h).rollback == MarkedAt(h, |h|)
    decreases |h|
  {
    if h == [] {
      assert OpenSince(h, -1, 0);
    } else {
      var g, op := h[..|h| - 1], h[|h| - 1];
      assert h == g + [op];
      FlagsAreTheReading(g);
      OpenStep(g, op);
      MarkedStep(g, op);
    }
  }

  // ----- what one more operation does to the registrations

  lemma DueStep(h: seq<Op>, op: Op, i: nat)
    requires i < |h|
    ensures IsDue(h + [op], i)
            <==> IsDue(h, i) || (CommitsAt(h + [op], |h|) && IsUntouched(h, i))
  {
    var g := h + [op];
    forall k | 0 <= k < |h| ensures Resolves(g, k) == Resolves(h, k) && CommitsAt(g, k) == CommitsAt(h, k) {
      PrefixReadings(h, op, k);
    }
    if j :| i < j < |h| && FirstResolve(h, i, j) && CommitsAt(h, j) {
      assert FirstResolve(g, i, j) && CommitsAt(g, j);
    }
    if j :| i < j < |g| && FirstResolve(g, i, j) && CommitsAt(g, j) {
      if j < |h| { assert FirstResolve(h, i, j) && CommitsAt(h, j); }
    }
    if CommitsAt(g, |h|) && IsUntouched(h, i) {
      assert FirstResolve(g, i, |h|);
    }
  }

  lemma {:induction false} NothingWaitsPastAResolve(h: seq<Op>, n: nat, k: nat)
    requires n <= k < |h| && Resolves(h, k)
    ensures Waiting(h, n) == []
    decreases n
  {
    if n > 0 { NothingWaitsPastAResolve(h, n - 1, k); }
  }

  lemma SamePrefix(h: seq<Op>, op: Op)
    ensures forall k | 0 <= k < |h| :: Resolves(h + [op], k) == Resolves(h, k)
  {
    forall k | 0 <= k < |h| ensures Resolves(h + [op], k) == Resolves(h, k) { PrefixReadings(h, op, k); }
  }

  lemma UntouchedStep(h: seq<Op>, op: Op, i: nat)
    requires i < |h|
    ensures WaitingHere(h + [op], i) == if Resolves(h + [op], |h|) then [] else WaitingHere(h, i)
  {
    var g := h + [op];
    SamePrefix(h, op);
    hide OpenAt, Resolves;
    assert g[i] == h[i];
    assert IsUntouched(g, i) <==> IsUntouched(h, i) && !Resolves(g, |h|);
  }

  lemma {:induction false} WaitingStep(h: seq<Op>, op: Op, g: seq<Op>, n: nat)
    requires g == h + [op] && n <= |h|
    ensures Waiting(g, n) == if Resolves(g, |h|) then [] else Waiting(h, n)
    decreases n
  {
    if n > 0 {
      hide *;
      WaitingStep(h, op, g, n - 1);
      UntouchedStep(h, op, n - 1);
      Unroll(h, n);
      Unroll(g, n);
    }
  }

  lemma DueIsSettled(h: seq<Op>, i: nat)
    requires i < |h|
    ensures IsDue(h, i) ==> !IsUntouched(h, i) && Waiting(h, i) == []
  {
    if j :| i < j < |h| && FirstResolve(h, i, j) && CommitsAt(h, j) { NothingWaitsPastAResolve(h, i, j); }
  }

  lemma HereStep(h: seq<Op>, op: Op, i: nat)
    requires i < |h|
    ensures !CommitsAt(h + [op], |h|) ==> DueHere(h + [op], i) == DueHere(h, i)
    ensures CommitsAt(h + [op], |h|) ==> DueHere(h + [op], i) == DueHere(h, i) + WaitingHere(h, i)
    ensures DueHere(h, i) == [] || (Waiting(h, i) == [] && WaitingHere(h, i) == [])
  {
    DueStep(h, op, i);
    DueIsSettled(h, i);
    hide IsDue, IsUntouched, Resolves, CommitsAt, Waiting;
    assert (h + [op])[i] == h[i];
  }

  lemma Regroup(d: seq<Action>, w: seq<Action>, d1: seq<Action>, w1: seq<Action>,
                x: seq<Action>, y: seq<Action>, dd: seq<Action>, ww: seq<Action>)
    requires d1 == [] || (w == [] && w1 == [])
    requires x == d + w && y == d1 + w1 && dd == d + d1 && ww == w + w1
    ensures x + y == dd + ww
  {
  }

  lemma {:induction false} AllDueStep(h: seq<Op>, op: Op, g: seq<Op>, n: nat)
    requires g == h + [op] && n <= |h|
    ensures !CommitsAt(g, |h|) ==> Due(g, n) == Due(h, n)
    ensures CommitsAt(g, |h|) ==> Due(g, n) == Due(h, n) + Waiting(h, n)
    decreases n
  {
    hide *;
    if n == 0 {
      NothingYet(h);
      NothingYet(g);
    } else {
      AllDueStep(h, op, g, n - 1);
      HereStep(h, op, n - 1);
      Unroll(h, n);
      Unroll(g, n);
      if CommitsAt(g, |h|) {
        Regroup(Due(h, n - 1), Waiting(h, n - 1), DueHere(h, n - 1), WaitingHere(h, n - 1),
                Due(g, n - 1), DueHere(g, n - 1), Due(h, n), Waiting(h, n));
      }
    }
  }

  lemma NothingYet(h: seq<Op>)
    ensures Due(h, 0) == [] && Waiting(h, 0) == []
  {
  }

  lemma Unroll(h: seq<Op>, n: nat)
    requires 0 < n <= |h|
    ensures Due(h, n) == Due(h, n - 1) + DueHere(h, n - 1)
    ensures Waiting(h, n) == Waiting(h, n - 1) + WaitingHere(h, n - 1)
  {
  }

  /** Over every history, exactly the registrations whose first Resolve that was
      not a no-op committed have run, once each and in registration order, and
      those that no such Resolve has come to are still held. */
  lemma {:induction false} HistoryRunsWhatIsDue(h: seq<Op>)
    ensures Executed(h) == Due(h, |h|) && After(h).pending == Waiting(h, |h|)
    decreases |h|
  {
    if h != [] {
      var g, op := h[..|h| - 1], h[|h| - 1];
      assert h == g + [op];
      HistoryRunsWhatIsDue(g);
      FlagsAreTheReading(g);
      WaitingStep(g, op, h, |g|);
      AllDueStep(g, op, h, |g|);
      PrefixReadings(g, op, |g|);
    }
  }
}
