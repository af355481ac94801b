/** Database migrations built from a list of actions, each of which can be
    applied or undone. */
module Migrations {

  /** Each direction maps the database to what it leaves behind and says whether
      it succeeded. */
  datatype Action<!S> = Action(apply: S -> (S, bool), undo: S -> (S, bool))

  class Database<S> {
    var state: S

    constructor (s: S)
      ensures state == s
    {
      state := s;
    }
  }

  // ----- what a migration is meant to do

  /** The actions, applied in order from `s`, all succeed and leave `t`. */
  ghost predicate Applied<S>(actions: seq<Action<S>>, s: S, t: S)
    decreases |actions|
  {
    if actions == [] then s == t else
      var (u, ok) := actions[0].apply(s);
      ok && Applied(actions[1..], u, t)
  }

  /** Each action, where it succeeds along the way from `s`, is undone exactly. */
  ghost predicate Undoable<S>(actions: seq<Action<S>>, s: S)
    decreases |actions|
  {
    actions == [] ||
    var (u, ok) := actions[0].apply(s);
    ok ==> actions[0].undo(u) == (s, true) && Undoable(actions[1..], u)
  }

  /** The first `k` actions lead to `u`, where the next one fails and leaves `t`. */
  ghost predicate FailsAt<S>(actions: seq<Action<S>>, s: S, k: nat, u: S, t: S) {
    k < |actions| && Applied(actions[..k], s, u) && actions[k].apply(u) == (t, false)
  }

  lemma {:induction false} AppliedAppend<S>(actions: seq<Action<S>>, a: Action<S>, s: S, u: S, t: S)
    requires Applied(actions, s, u) && a.apply(u) == (t, true)
    ensures Applied(actions + [a], s, t)
    decreases |actions|
  {
    if actions != [] {
      assert (actions + [a])[1..] == actions[1..] + [a];
      AppliedAppend(actions[1..], a, actions[0].apply(s).0, u, t);
    }
  }

  // ----- the two directions

  method Migrate<S>(db: Database<S>, actions: seq<Action<S>>) returns (ok: bool)
    modifies db
    ensures ok ==> Applied(actions, old(db.state), db.state)
    ensures !ok ==> exists k, u :: FailsAt(actions, old(db.state), k, u, db.state)
  {
    ghost var s := db.state;
    for i := 0 to |actions|
      invariant Applied(actions[..i], s, db.state)
    {
      ghost var u := db.state;
      var (t, done) := actions[i].apply(db.state);
      db.state := t;
      if !done {
        assert FailsAt(actions, s, i, u, t);
        return false;
      }
      AppliedAppend(actions[..i], actions[i], s, u, t);
      assert actions[..i + 1] == actions[..i] + [actions[i]];
    }
    assert actions[..|actions|] == actions;
    ok := true;
  }

  /** The actions undone last to first, up to the first failure. */
  ghost function UndoAll<S>(actions: seq<Action<S>>, s: S): (S, bool) {
    if actions == [] then (s, true) else
      var (t, ok) := actions[|actions| - 1].undo(s);
      if ok then UndoAll(actions[..|actions| - 1], t) else (t, false)
  }

  method Rollback<S>(db: Database<S>, actions: seq<Action<S>>) returns (ok: bool)
    modifies db
    ensures (db.state, ok) == UndoAll(actions, old(db.state))
  {
    var i := |actions|;
    assert actions[..i] == actions;
    while i > 0
      invariant 0 <= i <= |actions|
      invariant UndoAll(actions[..i], db.state) == UndoAll(actions, old(db.state))
    {
      i := i - 1;
      assert actions[..i + 1][..i] == actions[..i];
      var (t, done) := actions[i].undo(db.state);
      db.state := t;
      if !done { return false; }
    }
    ok := true;
  }

  /** The first action is the last to be undone. */
  lemma {:induction false} UndoneFirst<S>(actions: seq<Action<S>>, t: S)
    requires actions != []
    ensures var (u, ok) := UndoAll(actions[1..], t);
            UndoAll(actions, t) == if ok then actions[0].undo(u) else (u, false)
    decreases |actions|
  {
    var n := |actions| - 1;
    if n > 0 {
      UndoneFirst(actions[..n], actions[n].undo(t).0);
      assert actions[..n][1..] == actions[1..][..n - 1];
    } else {
      assert actions[1..] == [];
    }
  }

  /** Rolling back a migration that went through restores the database exactly. */
  lemma {:induction false} RollbackRestores<S>(actions: seq<Action<S>>, s: S, t: S)
    requires Applied(actions, s, t) && Undoable(actions, s)
    ensures UndoAll(actions, t) == (s, true)
    decreases |actions|
  {
    if actions != [] {
      RollbackRestores(actions[1..], actions[0].apply(s).0, t);
      UndoneFirst(actions, t);
    }
  }
}
