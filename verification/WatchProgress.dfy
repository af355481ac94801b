/** The watch stream gets on: writes are stored, a page is always there to be
    listed, a stream that may run catches up, and a signal sets it running. */
module WatchProgress {
  import opened Options
  import opened Subscriptions
  import opened WatchStream
  import W = WatchWakeup
  import Walks = NotifyWalk

  // ----- writes

  /** A write draws a version above all others and puts its row there; a delete
      takes one row away. Other rows stay. */
  lemma WritesAreStored(s: State, id: Id)
    requires StoreInv(s.store) && id !in s.store.pending.Values
    ensures var db := Next(Next(s, Draw(id)), Commit(s.store.drawn + 1)).store;
            && id in db.rows && db.rows - {id} == s.store.rows - {id}
            && (forall other | other in db.rows && other != id :: db.rows[other] < db.rows[id])
            && db.newest == db.rows[id] && db.pending == s.store.pending
    ensures Next(s, Delete(id)).store == s.store.(rows := s.store.rows - {id})
  {
    var v := s.store.drawn + 1;
    assert v !in s.store.pending;
    assert s.store.pending[v := id] - {v} == s.store.pending;
  }

  /** A row that is being written takes neither another write nor a delete. */
  lemma WrittenRowIsLocked(s: State, id: Id)
    requires id in s.store.pending.Values
    ensures Next(s, Draw(id)) == s && Next(s, Delete(id)) == s
  {
  }

  /** A row has one writer at a time, who is about to raise its version. */
  predicate Locked(db: Store) {
    && (forall v, w | v in db.pending && w in db.pending && v != w :: db.pending[v] != db.pending[w])
    && (forall v | v in db.pending && db.pending[v] in db.rows :: db.rows[db.pending[v]] < v)
  }

  /** The row, wherever it is stored or about to be, is at least at version `v`. */
  predicate AtLeast(db: Store, id: Id, v: int) {
    && v <= db.drawn && (id in db.rows ==> v <= db.rows[id])
    && (forall w | w in db.pending && db.pending[w] == id :: v < w)
  }

  lemma {:induction false} RunKeepsLocks(s: State, steps: seq<Step>)
    requires Inv(s) && Locked(s.store)
    ensures Inv(Run(s, steps)) && Locked(Run(s, steps).store)
    decreases |steps|
  {
    if steps != [] {
      StepKeepsInv(s, steps[0]);
      StepKeepsLocks(s, steps[0]);
      hide Inv, Locked;
      RunKeepsLocks(Next(s, steps[0]), steps[1..]);
    }
  }

  lemma StepKeepsLocks(s: State, step: Step)
    requires StoreInv(s.store) && Locked(s.store)
    ensures Locked(Next(s, step).store)
  {
    if step.Draw? && step.id !in s.store.pending.Values {
      assert forall v | v in s.store.pending :: s.store.pending[v] in s.store.pending.Values;
    }
    hide IsPage;
  }

  lemma {:induction false} StaysAtLeast(s: State, steps: seq<Step>, id: Id, v: int)
    requires AtLeast(s.store, id, v)
    ensures AtLeast(Run(s, steps).store, id, v)
    decreases |steps|
  {
    if steps != [] {
      hide IsPage;
      StaysAtLeast(Next(s, steps[0]), steps[1..], id, v);
    }
  }

  /** Over every run of writers, deletes and stream, the version of a row never goes
      back, not even when the row is deleted and written again. */
  lemma RowVersionsNeverGoBack(s: State, a: seq<Step>, b: seq<Step>, id: Id)
    requires IsInitial(s) && s.store.pending == map[]
    requires id in Run(s, a).store.rows && id in Run(Run(s, a), b).store.rows
    ensures Run(s, a).store.rows[id] <= Run(Run(s, a), b).store.rows[id]
  {
    RunKeepsLocks(s, a);
    var t := Run(s, a);
    StaysAtLeast(t, b, id, t.store.rows[id]);
  }

  // ----- a page of any table

  /** Starting from version zero asks for everything: a page that is not full holds
      every row. */
  lemma ZeroAsksForEverything(rows: map<Id, int>, size: nat, page: seq<Row>, id: Id)
    requires IsPage(rows, 0, size, page) && |page| < size && id in rows
    ensures Row(id, rows[id]) in page
  {
  }

  lemma LeastRow(rows: map<Id, int>, ids: set<Id>) returns (id: Id)
    requires ids != {} && ids <= rows.Keys
    ensures id in ids && forall other | other in ids :: rows[id] <= rows[other]
    decreases ids
  {
    id :| id in ids;
    if ids != {id} {
      var rest := LeastRow(rows, ids - {id});
      if rows[rest] < rows[id] { id := rest; }
    }
  }

  lemma {:induction false} SomePage(db: Store, gt: int, size: nat) returns (page: seq<Row>)
    requires StoreInv(db)
    ensures IsPage(db.rows, gt, size, page)
    decreases size
  {
    if size == 0 {
      page := [];
    } else {
      page := SomePage(db, gt, size - 1);
      var left := set id | id in db.rows && Selected(gt, db.rows[id]) && Row(id, db.rows[id]) !in page;
      assert forall id | id in db.rows && Selected(gt, db.rows[id]) && Row(id, db.rows[id]) !in page :: id in left;
      if left != {} {
        var id := LeastRow(db.rows, left);
        page := PageGrows(db, gt, size, page, id);
      }
    }
  }

  lemma PageGrows(db: Store, gt: int, size: nat, page: seq<Row>, id: Id) returns (longer: seq<Row>)
    requires StoreInv(db) && size > 0 && IsPage(db.rows, gt, size - 1, page)
    requires id in db.rows && Selected(gt, db.rows[id]) && Row(id, db.rows[id]) !in page
    requires forall other | other in db.rows && Selected(gt, db.rows[other])
                            && Row(other, db.rows[other]) !in page :: db.rows[id] <= db.rows[other]
    ensures IsPage(db.rows, gt, size, longer)
  {
    var row := Row(id, db.rows[id]);
    longer := page + [row];
    forall other | other in db.rows && Selected(gt, db.rows[other]) && Row(other, db.rows[other]) !in longer
      ensures |longer| == size && forall i | 0 <= i < |longer| :: longer[i].version < db.rows[other]
    {
      assert Row(other, db.rows[other]) !in page && other != id;
    }
  }

  // ----- catching up

  /** The stored rows above the version up to which the stream has listed. */
  function Ahead(s: State): set<Id> {
    set id | id in s.store.rows && Selected(Horizon(s.cur), s.store.rows[id])
  }

  lemma EmittingIsProgress(s: State)
    requires Inv(s) && s.phase.Active? && s.cur.idx < |s.cur.list|
    ensures var t := Next(s, Loop([], {}));
            && t.phase.Active? && t.store == s.store && t.late == s.late && t.dropped == s.dropped
            && t.cur == s.cur.(gt := s.cur.list[s.cur.idx].version, idx := s.cur.idx + 1,
                               events := s.cur.events + [Change(s.cur.list[s.cur.idx])])
            && Horizon(t.cur) == Horizon(s.cur) && Ahead(t) == Ahead(s)
  {
  }

  /** What a listing does when all its rows can be presented. */
  lemma ListingIs(s: State, page: seq<Row>)
    requires s.phase.Active? && s.cur.idx == |s.cur.list| && IsPage(s.store.rows, s.cur.gt, s.size, page)
    ensures var t := Next(s, Loop(page, {}));
            && t.store == s.store && t.late == s.late && t.dropped == s.dropped
            && t.cur.list == page && t.cur.idx == 0 && t.cur.gt == s.cur.gt
            && (if page != [] then t.phase.Active?
                else && (t.phase.Waiting? <==> s.cur.bookmarkSent) && (t.phase.Active? <==> !s.cur.bookmarkSent)
                     && t.cur.bookmarkSent)
  {
    EverythingPresented(page);
    assert LeftBehind(page, page) == {};
    hide IsPage;
  }

  /** A listing with rows moves the horizon past its last row; one without finds
      that nothing lies ahead. */
  lemma ListingIsAhead(s: State, t: State, page: seq<Row>)
    requires s.size > 0 && StoreInv(s.store) && s.cur.idx == |s.cur.list|
    requires IsPage(s.store.rows, s.cur.gt, s.size, page)
    requires t.store == s.store && t.cur.list == page && t.cur.idx == 0 && t.cur.gt == s.cur.gt
    ensures if page != [] then Ahead(t) < Ahead(s) else Ahead(t) == Ahead(s) == {}
  {
    if page != [] {
      var last := page[|page| - 1];
      assert last.id in Ahead(s) && last.id !in Ahead(t);
      forall id | id in Ahead(t) ensures id in Ahead(s) { assert Selected(s.cur.gt, last.version); }
    }
  }

  predicate OnlyLoops(steps: seq<Step>) { forall i | 0 <= i < |steps| :: steps[i].Loop? && steps[i].failed == {} }

  /** The stream waits with nothing more to list. */
  predicate AtRest(s: State) { s.phase.Waiting? && s.cur.list == [] && s.cur.idx == 0 && Ahead(s) == {} }

  predicate Before(s: State, t: State) {
    || |Ahead(t)| < |Ahead(s)|
    || (|Ahead(t)| == |Ahead(s)| && !s.cur.bookmarkSent && t.cur.bookmarkSent)
    || (|Ahead(t)| == |Ahead(s)| && s.cur.bookmarkSent == t.cur.bookmarkSent
        && |t.cur.list| - t.cur.idx < |s.cur.list| - s.cur.idx)
  }

  lemma OneLoop(s: State) returns (step: Step)
    requires Inv(s) && CoverInv(s) && s.phase.Active?
    ensures var t := Next(s, step);
            && step.Loop? && step.failed == {} && Inv(t) && CoverInv(t)
            && t.store == s.store && t.late == s.late && t.dropped == s.dropped
            && (if t.phase.Active? then Before(s, t) else AtRest(t))
  {
    if s.cur.idx < |s.cur.list| {
      step := Loop([], {});
      EmittingIsProgress(s);
    } else {
      var page := SomePage(s.store, s.cur.gt, s.size);
      step := Loop(page, {});
      ListingIs(s, page);
      ListingIsAhead(s, Next(s, step), page);
      if page != [] { SmallerSet(Ahead(Next(s, step)), Ahead(s)); }
    }
    StepKeepsInv(s, step);
    StepKeepsCover(s, step);
    hide IsPage, CoverInv, EventsInv, Ahead, StoreInv;
  }

  /** From any state in which the stream runs, its own loop brings it to a wait
      with all that the store holds above its start listed. */
  lemma {:induction false} CatchesUp(s: State) returns (steps: seq<Step>)
    requires Inv(s) && CoverInv(s) && s.phase.Active?
    ensures var t := Run(s, steps);
            && OnlyLoops(steps) && AtRest(t) && t.store == s.store
            && t.late == s.late && t.dropped == s.dropped && Inv(t) && CoverInv(t)
    decreases |Ahead(s)|, if s.cur.bookmarkSent then 0 else 1, |s.cur.list| - s.cur.idx
  {
    var step := OneLoop(s);
    var t := Next(s, step);
    hide CoverInv, Next, Ahead, AtRest, EventsInv, StoreInv;
    var rest := [];
    if t.phase.Active? { rest := CatchesUp(t); }
    steps := [step] + rest;
    assert steps[0] == step && steps[1..] == rest;
  }

  lemma SmallerSet(a: set<Id>, b: set<Id>)
    requires a < b
    ensures |a| < |b|
  {
    assert |b| == |a| + |b - a| by { assert b == a + (b - a); }
    assert b - a != {};
  }

  /** After any run that left nothing behind its cursor, a stream that runs can
      send the client every stored row above its start and then wait. */
  lemma CanCatchUp(s: State, steps: seq<Step>, id: Id) returns (more: seq<Step>)
    requires IsInitial(s) && Run(s, steps).phase.Active?
    ensures var t, u := Run(s, steps), Run(Run(s, steps), more);
            && OnlyLoops(more) && u.phase.Waiting? && u.store == t.store
            && (Missing(u, id) ==> u.store.rows[id] in t.late + t.dropped)
  {
    RunKeepsInv(s, steps);
    StartStays(s, steps);
    var t := Run(s, steps);
    more := CatchesUp(t);
    CaughtUp(Run(t, more), id);
  }

  lemma CaughtUp(s: State, id: Id)
    requires Inv(s) && CoverInv(s) && AtRest(s)
    ensures Missing(s, id) ==> s.store.rows[id] in s.late + s.dropped
  {
    if Missing(s, id) {
      assert id !in Ahead(s);
      assert IsCovered(s, Row(id, s.store.rows[id]));
    }
  }

  // ----- being woken

  /** A stream waits only with its list used up. */
  predicate StreamInv(s: State) {
    Inv(s) && CoverInv(s) && (s.phase.Waiting? ==> s.cur.list == [] && s.cur.idx == 0)
  }

  lemma StepKeepsStreamInv(s: State, step: Step)
    requires StreamInv(s)
    ensures StreamInv(Next(s, step))
  {
    StepKeepsInv(s, step);
    StepKeepsCover(s, step);
    hide Inv, CoverInv, IsPage;
  }

  lemma {:induction false} RunKeepsStreamInv(y: W.System, moves: seq<W.Move>)
    requires W.Valid(y) && StreamInv(y.watch)
    ensures StreamInv(W.Run(y, moves).watch)
    decreases |moves|
  {
    if moves != [] {
      var m := moves[0];
      if m.Watch? || m.Signal? || m.Enter? {
        StepKeepsStreamInv(y.watch, if m.Watch? then m.step else if m.Signal? then Wake else Subscribe);
      }
      W.NextIsValid(y, m);
      hide StreamInv, W.Valid;
      RunKeepsStreamInv(W.Next(y, m), moves[1..]);
    }
  }

  function Lifted(steps: seq<Step>): seq<W.Move> { seq(|steps|, i requires 0 <= i < |steps| => W.Watch(steps[i])) }

  /** The stream's own loop touches the stream alone. */
  lemma {:induction false} LiftedRun(y: W.System, steps: seq<Step>)
    requires W.Valid(y) && OnlyLoops(steps)
    ensures var z := W.Run(y, Lifted(steps));
            && z.watch == Run(y.watch, steps) && z == y.(watch := z.watch, listedAt := z.listedAt)
            && (z.listedAt == y.listedAt || z.listedAt == |y.commits|)
            && (steps != [] && W.TakesListing(y.watch, steps[0]) ==> z.listedAt == |y.commits|)
    decreases |steps|
  {
    if steps != [] {
      var m := W.Watch(steps[0]);
      assert Lifted(steps)[0] == m && Lifted(steps)[1..] == Lifted(steps[1..]);
      W.NextIsValid(y, m);
      LiftedRun(W.Next(y, m), steps[1..]);
    }
  }

  lemma SignalIs(y: W.System)
    requires W.Valid(y) && y.watch.phase.Waiting? && y.slot
    ensures W.Run(y, [W.Signal]) == y.(watch := y.watch.(phase := Active), slot := false)
  {
    assert [W.Signal][1..] == [];
    W.NextIsValid(y, W.Signal);
  }

  /** In any reachable state, a full channel ends the wait: the signal and one turn
      of the loop empty the channel and take a listing after every commit, and the
      next turns send, in order, what the listing holds. */
  lemma SignalWakes(y: W.System, moves: seq<W.Move>, page: seq<Row>, failed: set<Id>)
    requires W.IsInitial(y)
    requires var z := W.Run(y, moves);
             && z.watch.phase.Waiting? && z.slot && IsPage(z.watch.store.rows, z.watch.cur.gt, z.watch.size, page)
    ensures var z := W.Run(y, moves);
            var u := W.Run(z, [W.Signal, W.Watch(Loop(page, failed))]);
            var list := Presented(page, failed);
            && !u.slot && u.listedAt == |u.commits| && u.commits == z.commits && u.notes == z.notes
            && u.watch.store == z.watch.store && u.watch.cur.list == list && u.watch.cur.idx == 0
            && (list != [] ==>
                  && u.watch.cur.events == z.watch.cur.events
                  && W.Next(u, W.Watch(Loop([], {}))).watch.cur.events == z.watch.cur.events + [Change(list[0])])
  {
    RunKeepsStreamInv(y, moves);
    var z := W.Run(y, moves);
    W.RunKeepsInv(y, moves);
    hide W.Run;
    SignalThen(z, W.Watch(Loop(page, failed)));
    hide StreamInv, IsPage, W.Valid;
  }

  lemma SignalThen(z: W.System, m: W.Move)
    requires W.Valid(z) && z.watch.phase.Waiting? && z.slot
    ensures var a := z.(watch := z.watch.(phase := Active), slot := false);
            W.Valid(a) && W.Run(z, [W.Signal, m]) == W.Next(a, m)
  {
    var a := z.(watch := z.watch.(phase := Active), slot := false);
    assert [W.Signal, m][1..] == [m] && [m][1..] == [];
    W.NextIsValid(z, W.Signal);
    W.NextIsValid(a, m);
    assert W.Run(a, [m]) == W.Run(W.Next(a, m), []);
  }

  /** A notification that has finished and did not lose the stream is followed up:
      the waiting stream has listed since that commit, or goes on by itself to list
      after every commit, to send all that is stored above its start, unless it was
      left behind the cursor before, and to wait again. */
  lemma FinishedNotificationIsFollowed(y: W.System, moves: seq<W.Move>, c: nat, id: Id) returns (more: seq<W.Move>)
    requires W.IsInitial(y) && !W.Lost(y, moves, c)
    requires var z := W.Run(y, moves); z.watch.phase.Waiting? && c in z.notes && W.Finished(z.notes[c])
    ensures var z := W.Run(y, moves);
            var u := W.Run(z, more);
            && u.watch.phase.Waiting? && !u.slot && u.commits == z.commits && u.watch.store == z.watch.store
            && c < u.listedAt
            && (z.slot ==> u.listedAt == |u.commits|
                           && (Missing(u.watch, id) ==> u.watch.store.rows[id] in z.watch.late + z.watch.dropped))
  {
    RunKeepsStreamInv(y, moves);
    var z := W.Run(y, moves);
    W.RunKeepsInv(y, moves);
    W.NoLostWakeup(y, moves, c);
    hide W.Run;
    if !z.slot {
      more := [];
      NoMoves(z);
    } else {
      SignalIs(z);
      var a := z.(watch := z.watch.(phase := Active), slot := false);
      StepKeepsStreamInv(z.watch, Wake);
      var steps := CatchesUp(a.watch);
      FirstLoopLists(a, steps);
      CaughtUp(Run(a.watch, steps), id);
      more := [W.Signal] + Lifted(steps);
      W.RunAppends(z, [W.Signal], Lifted(steps));
      hide CoverInv, Inv;
    }
  }

  lemma NoMoves(z: W.System)
    requires W.Valid(z)
    ensures W.Run(z, []) == z
  {
  }

  /** A run of loops that ends in a wait began with a listing, if nothing was left to send. */
  lemma FirstLoopLists(a: W.System, steps: seq<Step>)
    requires W.Valid(a) && OnlyLoops(steps) && a.watch.phase.Active? && a.watch.cur.idx >= |a.watch.cur.list|
    requires Run(a.watch, steps).phase.Waiting?
    ensures var u := W.Run(a, Lifted(steps));
            u.watch == Run(a.watch, steps) && u == a.(watch := u.watch, listedAt := |a.commits|)
    decreases |steps|
  {
    LiftedRun(a, steps);
    if !W.TakesListing(a.watch, steps[0]) {
      assert Next(a.watch, steps[0]) == a.watch && W.Next(a, W.Watch(steps[0])) == a;
      assert Lifted(steps)[0] == W.Watch(steps[0]) && Lifted(steps)[1..] == Lifted(steps[1..]);
      FirstLoopLists(a, steps[1..]);
    }
  }

  // ----- being listed, and being notified

  lemma SwapRemoved<T>(s: seq<T>, i: nat)
    requires i < |s|
    ensures multiset(SwapRemove(s, i)) == multiset(s) - multiset{s[i]}
  {
    var last := |s| - 1;
    var t := s[i := s[last]];
    assert s == s[..last] + [s[last]];
    if i == last {
      assert SwapRemove(s, i) == s[..last];
    } else {
      assert t == SwapRemove(s, i) + [s[last]];
      assert multiset(t) == multiset(s) - multiset{s[i]} + multiset{s[last]};
    }
  }

  lemma RemovedOnce(l: Walks.Lists, sub: Walks.Sub)
    requires Walks.ValidLists(l)
    ensures multiset(Walks.Listed(Walks.Removed(l, sub))) == multiset(Walks.Listed(l)) - multiset{sub}
  {
    if sub in Walks.Listed(l) {
      Walks.RemovedIsSwapRemove(l, sub);
      SwapRemoved(Walks.Listed(l), IndexOf(Walks.Listed(l), sub));
    } else {
      assert Walks.Removed(l, sub) == l;
    }
  }

  lemma AddedOther(l: Walks.Lists, sub: Walks.Sub, arr: nat, spare: seq<Walks.Sub>)
    requires Walks.ValidLists(l)
    ensures var r := Walks.Added(l, sub, arr, spare);
            r == l || Walks.Listed(r) == Walks.Listed(l) + [sub]
  {
  }

  /** How often the list of its name holds the stream's own subscription. */
  function Listings(y: W.System): nat
    requires W.Valid(y)
  {
    multiset(Walks.Listed(y.lists))[y.me]
  }

  predicate ListedRight(y: W.System)
    requires W.Valid(y)
  {
    Listings(y) == if W.Subscribed(y.watch) then 1 else 0
  }

  lemma WatchKeepsListed(y: W.System, step: Step)
    requires W.Valid(y) && ListedRight(y)
    ensures W.Valid(W.Next(y, W.Watch(step))) && ListedRight(W.Next(y, W.Watch(step)))
  {
    W.NextIsValid(y, W.Watch(step));
    SubscribedUntilEnd(y.watch, step);
    RemovedOnce(y.lists, y.me);
    hide Walks.Removed, Walks.Listed, Next, W.Valid, W.TakesListing;
  }

  lemma ClientKeepsListed(y: W.System, m: W.Move)
    requires W.Valid(y) && ListedRight(y) && (m.Join? || m.Leave?)
    ensures W.Valid(W.Next(y, m)) && ListedRight(W.Next(y, m))
  {
    W.NextIsValid(y, m);
    RemovedOnce(y.lists, m.sub);
    if m.Join? { AddedOther(y.lists, m.sub, m.arr, m.spare); }
    hide Walks.Added, Walks.Removed, Walks.Listed, Next, W.Valid;
  }

  lemma StreamKeepsListed(y: W.System, m: W.Move)
    requires W.Valid(y) && ListedRight(y) && (m.Enter? || m.Signal?)
    ensures W.Valid(W.Next(y, m)) && ListedRight(W.Next(y, m))
  {
    W.NextIsValid(y, m);
    EnteringSubscribes(y.watch);
    if m.Enter? { Walks.AddedLists(y.lists, y.me, m.arr, m.spare); }
    hide Walks.Added, Walks.Listed, Next, W.Valid;
  }

  lemma StepKeepsListed(y: W.System, m: W.Move)
    requires W.Valid(y) && ListedRight(y)
    ensures W.Valid(W.Next(y, m)) && ListedRight(W.Next(y, m))
  {
    match m
    case Watch(step) => WatchKeepsListed(y, step);
    case Enter(_, _) | Signal => StreamKeepsListed(y, m);
    case Join(_, _, _) | Leave(_) => ClientKeepsListed(y, m);
    case _ =>
      W.NextIsValid(y, m);
      hide W.Valid;
  }

  lemma SubscribedUntilEnd(s: State, step: Step)
    ensures !step.Subscribe? ==>
              (W.Subscribed(Next(s, step)) <==> W.Subscribed(s) && !step.End?)
  {
    hide IsPage;
  }

  lemma EnteringSubscribes(s: State)
    ensures s.phase.Opened? ==> W.Subscribed(Next(s, Subscribe))
    ensures s.phase.Waiting? ==> W.Subscribed(Next(s, Wake))
  {
  }

  /** Over every run, the stream is on the list once while it is subscribed, and
      neither before nor after; joining and leaving clients do not matter to it. */
  lemma {:induction false} ListedExactlyWhileSubscribed(y: W.System, moves: seq<W.Move>)
    requires W.Valid(y) && ListedRight(y)
    ensures ListedRight(W.Run(y, moves))
    decreases |moves|
  {
    if moves != [] {
      StepKeepsListed(y, moves[0]);
      hide ListedRight;
      ListedExactlyWhileSubscribed(W.Next(y, moves[0]), moves[1..]);
    }
  }

  /** From any state, the notification of any commit can be made and finished: it
      takes the list as it is, and ends at once if there is none. */
  lemma NotificationCanFinish(y: W.System, c: nat) returns (moves: seq<W.Move>)
    requires W.Valid(y) && c < |y.commits|
    ensures var z := W.Run(y, moves); c in z.notes && W.Finished(z.notes[c])
    ensures c !in y.notes && y.lists.current.None? ==> moves == [W.Take(c)]
    ensures c !in y.notes && y.me in Walks.Listed(y.lists) ==> W.Run(y, moves).slot
  {
    if c in y.notes {
      moves := WalkCanFinish(y, c);
    } else {
      var m := W.Take(c);
      var t := W.Next(y, m);
      W.NextIsValid(y, m);
      if t.notes[c].NoList? {
        moves := [];
        NoMoves(t);
      } else {
        assert Walks.Rest(t.lists, t.notes[c].walk) == Walks.Listed(y.lists);
        moves := WalkCanFinish(t, c);
      }
      assert ([m] + moves)[1..] == moves;
      moves := [m] + moves;
    }
  }

  lemma {:induction false} WalkCanFinish(y: W.System, c: nat) returns (moves: seq<W.Move>)
    requires W.Valid(y) && c in y.notes
    ensures var z := W.Run(y, moves); c in z.notes && W.Finished(z.notes[c])
    ensures y.slot || W.Reaches(y, c) ==> W.Run(y, moves).slot
    decreases if y.notes[c].NoList? then 0 else y.notes[c].walk.end - y.notes[c].walk.pos
  {
    if W.Finished(y.notes[c]) {
      moves := [];
    } else {
      var m := W.Advance(c);
      var t := W.Next(y, m);
      W.NextIsValid(y, m);
      var w := y.notes[c].walk;
      var a := y.lists.arrays[w.arr];
      assert a[w.pos..w.end] == [a[w.pos]] + a[w.pos + 1..w.end];
      moves := WalkCanFinish(t, c);
      assert ([m] + moves)[1..] == moves;
      moves := [m] + moves;
    }
  }
}
