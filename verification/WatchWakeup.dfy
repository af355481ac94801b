/** The watch stream together with the notifications of the writers. Commits,
    the walks of the notifications over the shared list of subscriptions, other
    clients that come and go, and the stream's waits interleave freely. */
module WatchWakeup {
  import opened Options
  import opened Subscriptions
  import opened WatchStream
  import Walks = NotifyWalk

  /** A notification found no list, or walks the one it has taken. */
  datatype Note = NoList | Walking(walk: Walks.Walk)

  /** `commits` holds the versions committed, in commit order; `notes[c]` is the
      notification of commit `c`, made after it. `lists` is the list of the
      stream's name, `me` the stream's own subscription and `slot` its channel.
      `listedAt` counts the commits before the stream's latest listing. */
  datatype System = System(watch: State, commits: seq<int>, notes: map<nat, Note>, lists: Walks.Lists,
                           me: Walks.Sub, slot: bool, listedAt: nat)

  /** Enter is the stream's own subscription, Join and Leave are other clients'. */
  datatype Move =
    | Watch(step: Step)
    | Enter(arr: nat, spare: seq<Walks.Sub>)
    | Take(c: nat)
    | Advance(c: nat)
    | Join(sub: Walks.Sub, arr: nat, spare: seq<Walks.Sub>)
    | Leave(sub: Walks.Sub)
    | Signal

  predicate TakesListing(s: State, step: Step) {
    || (step.Open? && s.phase.Closed? && IsPage(s.store.rows, s.cur.gt, s.size, step.page))
    || (step.Loop? && s.phase.Active? && s.cur.idx >= |s.cur.list|
        && IsPage(s.store.rows, s.cur.gt, s.size, step.page))
  }

  predicate Subscribed(s: State) { s.phase.Active? || s.phase.Waiting? }

  predicate Valid(y: System) {
    && Walks.ValidLists(y.lists)
    && forall c | c in y.notes && y.notes[c].Walking? :: Walks.ValidWalk(y.lists, y.notes[c].walk)
  }

  predicate CanAdd(l: Walks.Lists, arr: nat) { arr !in l.arrays }

  function Next(y: System, m: Move): System
    requires Valid(y)
  {
    match m
    case Watch(step) => // a Wake step here is the 30s timeout
      if step.Subscribe? then y
      else
        y.(watch := WatchStream.Next(y.watch, step),
           commits := if step.Commit? && step.version in y.watch.store.pending
                      then y.commits + [step.version] else y.commits,
           listedAt := if TakesListing(y.watch, step) then |y.commits| else y.listedAt,
           lists := if step.End? then Walks.Removed(y.lists, y.me) else y.lists)
    case Enter(arr, spare) =>
      if !y.watch.phase.Opened? || !CanAdd(y.lists, arr) then y
      else y.(watch := WatchStream.Next(y.watch, Subscribe), lists := Walks.Added(y.lists, y.me, arr, spare))
    case Take(c) =>
      if c >= |y.commits| || c in y.notes then y
      else if y.lists.current.None? then y.(notes := y.notes[c := NoList])
      else y.(notes := y.notes[c := Walking(Walks.Walk(y.lists.current.value.arr, 0, y.lists.current.value.len))])
    case Advance(c) =>
      if c !in y.notes || Finished(y.notes[c]) then y
      else
        var w := y.notes[c].walk;
        y.(notes := y.notes[c := Walking(w.(pos := w.pos + 1))],
           slot := y.slot || y.lists.arrays[w.arr][w.pos] == y.me)
    case Join(sub, arr, spare) =>
      if sub == y.me then y else y.(lists := Walks.Added(y.lists, sub, arr, spare))
    case Leave(sub) => if sub == y.me then y else y.(lists := Walks.Removed(y.lists, sub))
    case Signal =>
      if !y.watch.phase.Waiting? || !y.slot then y
      else y.(watch := WatchStream.Next(y.watch, Wake), slot := false)
  }

  predicate Finished(n: Note) { n.NoList? || n.walk.pos >= n.walk.end }

  predicate IsInitial(y: System) {
    && WatchStream.IsInitial(y.watch) && y.commits == [] && y.notes == map[] && !y.slot
    && y.listedAt == 0 && Walks.ValidLists(y.lists)
  }

  lemma NextIsValid(y: System, m: Move)
    requires Valid(y)
    ensures Valid(Next(y, m))
  {
    match m
    case Watch(_) => Walks.RemovedLists(y.lists, y.me);
    case Enter(arr, spare) => Walks.AddedLists(y.lists, y.me, arr, spare);
    case Join(sub, arr, spare) => Walks.AddedLists(y.lists, sub, arr, spare);
    case Leave(sub) => Walks.RemovedLists(y.lists, sub);
    case _ =>
  }

  function Run(y: System, moves: seq<Move>): (z: System)
    requires Valid(y)
    ensures Valid(z)
    decreases |moves|
  {
    if moves == [] then y
    else
      NextIsValid(y, moves[0]);
      Run(Next(y, moves[0]), moves[1..])
  }

  // ----- what every run keeps

  predicate Inv(y: System) {
    && Valid(y) && y.listedAt <= |y.commits|
    && (forall c | c in y.notes :: c < |y.commits|)
    && (Subscribed(y.watch) ==> y.me in Walks.Listed(y.lists))
  }

  lemma StepKeepsInv(y: System, m: Move)
    requires Inv(y)
    ensures Inv(Next(y, m))
  {
    NextIsValid(y, m);
    match m
    case Enter(arr, spare) => Walks.AddedLists(y.lists, y.me, arr, spare);
    case Join(sub, arr, spare) => Walks.AddedLists(y.lists, sub, arr, spare);
    case Leave(sub) => Walks.RemovedLists(y.lists, sub);
    case _ =>
  }

  lemma {:induction false} RunKeepsInv(y: System, moves: seq<Move>)
    requires Inv(y)
    ensures Inv(Run(y, moves))
    decreases |moves|
  {
    if moves != [] {
      StepKeepsInv(y, moves[0]);
      RunKeepsInv(Next(y, moves[0]), moves[1..]);
    }
  }

  /** The stream waits with an empty channel. */
  predicate Asleep(y: System) { y.watch.phase.Waiting? && !y.slot }

  /** The notification of commit `c` can still reach the stream. */
  predicate Reaches(y: System, c: nat)
    requires Valid(y)
  {
    c in y.notes && y.notes[c].Walking? && y.me in Walks.Rest(y.lists, y.notes[c].walk)
  }

  predicate NoteInv(y: System, c: nat)
    requires Valid(y)
  {
    Asleep(y) && c in y.notes ==> c < y.listedAt || Reaches(y, c)
  }

  /** Another client subscribes over the last cell in which the walk of `c`
      could have found the stream, which sleeps and has not listed since. */
  predicate LosesNow(y: System, m: Move, c: nat)
    requires Valid(y)
  {
    && m.Join? && m.sub != y.me && Asleep(y) && y.listedAt <= c
    && c in y.notes && y.notes[c].Walking? && Walks.Loses(y.lists, y.notes[c].walk, y.me)
  }

  /** Some move of the run does. */
  predicate Lost(y: System, moves: seq<Move>, c: nat)
    requires Valid(y)
    decreases |moves|
  {
    moves != [] &&
    (NextIsValid(y, moves[0]);
     LosesNow(y, moves[0], c) || Lost(Next(y, moves[0]), moves[1..], c))
  }

  lemma AdvanceKeepsNote(y: System, c: nat, d: nat)
    requires Inv(y) && NoteInv(y, c)
    ensures Valid(Next(y, Advance(d))) && NoteInv(Next(y, Advance(d)), c)
  {
    NextIsValid(y, Advance(d));
    if c == d && c in y.notes && !Finished(y.notes[c]) {
      var w := y.notes[c].walk;
      var a := y.lists.arrays[w.arr];
      assert a[w.pos..w.end] == [a[w.pos]] + a[w.pos + 1..w.end];
    }
  }

  lemma TakeKeepsNote(y: System, c: nat, d: nat)
    requires Inv(y) && NoteInv(y, c)
    ensures Valid(Next(y, Take(d))) && NoteInv(Next(y, Take(d)), c)
  {
    NextIsValid(y, Take(d));
    if c == d && c !in y.notes && Asleep(y) && y.lists.current.Some? {
      var s := y.lists.current.value;
      assert Walks.Listed(y.lists) == y.lists.arrays[s.arr][0..s.len];
    }
  }

  lemma StepKeepsNote(y: System, m: Move, c: nat)
    requires Inv(y) && NoteInv(y, c) && !LosesNow(y, m, c)
    ensures Valid(Next(y, m)) && NoteInv(Next(y, m), c)
  {
    NextIsValid(y, m);
    match m
    case Watch(_) =>
    case Enter(_, _) =>
    case Take(d) => TakeKeepsNote(y, c, d);
    case Advance(d) => AdvanceKeepsNote(y, c, d);
    case Join(sub, arr, spare) =>
      if Reaches(y, c) && sub != y.me { Walks.AddedKeepsExactly(y.lists, y.notes[c].walk, y.me, sub, arr, spare); }
    case Leave(sub) =>
      if Reaches(y, c) && sub != y.me { Walks.RemovedKeeps(y.lists, y.notes[c].walk, y.me, sub); }
    case Signal =>
  }

  lemma {:induction false} RunKeepsNote(y: System, moves: seq<Move>, c: nat)
    requires Inv(y) && NoteInv(y, c) && !Lost(y, moves, c)
    ensures Valid(Run(y, moves)) && NoteInv(Run(y, moves), c)
    decreases |moves|
  {
    if moves != [] {
      StepKeepsInv(y, moves[0]);
      StepKeepsNote(y, moves[0], c);
      RunKeepsNote(Next(y, moves[0]), moves[1..], c);
    }
  }

  /** Whenever the stream waits with an empty channel, it has listed after the
      commit of every change whose notification has finished its walk, unless
      some other client's Subscribe made that walk lose the stream. */
  lemma NoLostWakeup(y: System, moves: seq<Move>, c: nat)
    requires IsInitial(y)
    ensures var z := Run(y, moves);
            Asleep(z) && c in z.notes && Finished(z.notes[c]) ==> c < z.listedAt || Lost(y, moves, c)
  {
    if !Lost(y, moves, c) { RunKeepsNote(y, moves, c); }
  }

  // ----- the condition is exact

  function Advances(c: nat, n: nat): seq<Move> { seq(n, _ => Advance(c)) }

  lemma {:induction false} AdvancesMissTheStream(y: System, c: nat, n: nat)
    requires Valid(y) && c in y.notes && y.notes[c].Walking? && !Reaches(y, c)
    requires y.notes[c].walk.pos + n == y.notes[c].walk.end
    ensures var z := Run(y, Advances(c, n));
            && z == y.(notes := z.notes) && c in z.notes && Finished(z.notes[c])
    decreases n
  {
    if n > 0 {
      var w := y.notes[c].walk;
      var a := y.lists.arrays[w.arr];
      assert a[w.pos..w.end] == [a[w.pos]] + a[w.pos + 1..w.end];
      var z := Next(y, Advance(c));
      NextIsValid(y, Advance(c));
      assert Advances(c, n)[0] == Advance(c) && Advances(c, n)[1..] == Advances(c, n - 1);
      AdvancesMissTheStream(z, c, n - 1);
    }
  }

  /** Every such Subscribe costs the wakeup: when the walk then goes on to its
      end, the stream still sleeps and has not listed since the commit. */
  lemma LosingCostsTheWakeup(y: System, m: Move, c: nat)
    requires Valid(y) && LosesNow(y, m, c)
    ensures var w := y.notes[c].walk;
            var z := Run(y, [m] + Advances(c, w.end - w.pos));
            Asleep(z) && c in z.notes && Finished(z.notes[c]) && z.listedAt <= c && z.watch == y.watch && z.me == y.me
  {
    var w := y.notes[c].walk;
    var z := Next(y, m);
    NextIsValid(y, m);
    Walks.AddedKeepsExactly(y.lists, w, y.me, m.sub, m.arr, m.spare);
    AdvancesMissTheStream(z, c, w.end - w.pos);
    var rest := Advances(c, w.end - w.pos);
    assert ([m] + rest)[0] == m && ([m] + rest)[1..] == rest;
  }

  /** No client subscribes after another has left. */
  predicate JoinsFirst(moves: seq<Move>) {
    forall i, j | 0 <= i < j < |moves| && moves[i].Leave? :: !moves[j].Join?
  }

  predicate NoJoin(moves: seq<Move>) { forall i | 0 <= i < |moves| :: !moves[i].Join? }

  /** No walk has taken more than the current list holds. */
  predicate Full(y: System) {
    forall c | c in y.notes && y.notes[c].Walking? :: !Walks.Overwrites(y.lists, y.notes[c].walk)
  }

  lemma StepKeepsFull(y: System, m: Move)
    requires Valid(y) && Full(y) && !m.Leave? && !(m.Watch? && m.step.End?)
    ensures Full(Next(y, m))
  {
  }

  lemma {:induction false} JoinsFirstLoseNothing(y: System, moves: seq<Move>, c: nat)
    requires Valid(y) && JoinsFirst(moves) && (Full(y) || NoJoin(moves) || y.watch.phase.Ended?)
    ensures !Lost(y, moves, c)
    decreases |moves|
  {
    if moves != [] {
      var m, rest := moves[0], moves[1..];
      NextIsValid(y, m);
      if m.Leave? {
        assert NoJoin(rest);
      } else if Full(y) && !(m.Watch? && m.step.End?) {
        StepKeepsFull(y, m);
      }
      JoinsFirstLoseNothing(Next(y, m), rest, c);
    }
  }

  /** If no client subscribes after another has left, no wakeup is lost. */
  lemma NoWakeupLostWhileJoinsComeFirst(y: System, moves: seq<Move>, c: nat)
    requires IsInitial(y) && JoinsFirst(moves)
    ensures var z := Run(y, moves); Asleep(z) && c in z.notes && Finished(z.notes[c]) ==> c < z.listedAt
  {
    JoinsFirstLoseNothing(y, moves, c);
    NoLostWakeup(y, moves, c);
  }

  // ----- an idle stream is up to date

  predicate NoFailures(moves: seq<Move>) {
    forall i | 0 <= i < |moves| && moves[i].Watch? && (moves[i].step.Open? || moves[i].step.Loop?) ::
      moves[i].step.failed == {}
  }

  /** While it waits, what the store holds above the cursor was committed after
      the latest listing; and what was committed after it and not above the
      cursor is late. */
  predicate Idle(y: System) {
    var s := y.watch;
    && s.dropped == {} && y.listedAt <= |y.commits|
    && (forall c | 0 <= c < |y.commits| :: y.commits[c] !in s.store.pending && y.commits[c] <= s.store.drawn)
    && (s.phase.Waiting? ==>
          && s.cur.list == []
          && forall id, c | id in s.store.rows && Selected(s.cur.gt, s.store.rows[id]) && 0 <= c < y.listedAt ::
               y.commits[c] != s.store.rows[id])
    && (Streaming(s) ==>
          forall c | y.listedAt <= c < |y.commits|
                     && Selected(s.start, y.commits[c]) && y.commits[c] <= Horizon(s.cur) ::
            y.commits[c] in s.late)
  }

  lemma StoreStepKeepsIdle(y: System, step: Step)
    requires Valid(y) && Idle(y) && StoreInv(y.watch.store) && (step.Draw? || step.Commit? || step.Delete?)
    ensures Idle(Next(y, Watch(step)))
  {
  }

  lemma EmitKeepsIdle(y: System, step: Step)
    requires Valid(y) && Idle(y) && step.Loop? && y.watch.cur.idx < |y.watch.cur.list|
    ensures Idle(Next(y, Watch(step)))
  {
    hide IsPage;
    if y.watch.phase.Active? { assert Horizon(Next(y, Watch(step)).watch.cur) == Horizon(y.watch.cur); }
  }

  lemma ListKeepsIdle(y: System, step: Step)
    requires Valid(y) && Idle(y) && y.watch.size > 0 && y.watch.cur.idx == |y.watch.cur.list|
    requires step.Loop? && step.failed == {} && TakesListing(y.watch, step)
    ensures Idle(Next(y, Watch(step)))
  {
    EverythingPresented(step.page);
  }

  lemma OpenKeepsIdle(y: System, step: Step)
    requires Valid(y) && Idle(y) && step.Open? && step.failed == {}
    ensures Idle(Next(y, Watch(step)))
  {
    EverythingPresented(step.page);
    hide IsPage;
  }

  lemma StreamStepKeepsIdle(y: System, step: Step)
    requires Valid(y) && Idle(y) && y.watch.size > 0 && y.watch.cur.idx <= |y.watch.cur.list|
    requires (step.Open? || step.Loop?) && step.failed == {}
    ensures Idle(Next(y, Watch(step)))
  {
    hide IsPage, Idle;
    if step.Open? {
      OpenKeepsIdle(y, step);
    } else if y.watch.cur.idx < |y.watch.cur.list| {
      EmitKeepsIdle(y, step);
    } else if TakesListing(y.watch, step) {
      ListKeepsIdle(y, step);
    } else {
      assert Next(y, Watch(step)) == y;
    }
  }

  lemma OtherStepKeepsIdle(y: System, m: Move)
    requires Valid(y) && Idle(y) && (m.Watch? ==> m.step.Subscribe? || m.step.Wake? || m.step.End?)
    ensures Idle(Next(y, m))
  {
  }

  predicate IdleInv(y: System) { WatchStream.Inv(y.watch) && CoverInv(y.watch) && Idle(y) }

  lemma StepKeepsIdleInv(y: System, m: Move)
    requires Valid(y) && IdleInv(y) && (m.Watch? && (m.step.Open? || m.step.Loop?) ==> m.step.failed == {})
    ensures IdleInv(Next(y, m))
  {
    hide Idle, CoverInv;
    if m.Watch? || m.Signal? || m.Enter? {
      var step := if m.Watch? then m.step else if m.Signal? then Wake else Subscribe;
      WatchStream.StepKeepsInv(y.watch, step);
      StepKeepsCover(y.watch, step);
    }
    if m.Watch? && (m.step.Open? || m.step.Loop?) {
      StreamStepKeepsIdle(y, m.step);
    } else if m.Watch? && (m.step.Draw? || m.step.Commit? || m.step.Delete?) {
      StoreStepKeepsIdle(y, m.step);
    } else {
      OtherStepKeepsIdle(y, m);
    }
  }

  lemma {:induction false} RunKeepsIdleInv(y: System, moves: seq<Move>)
    requires Valid(y) && IdleInv(y) && NoFailures(moves)
    ensures IdleInv(Run(y, moves))
    decreases |moves|
  {
    if moves != [] {
      NextIsValid(y, moves[0]);
      StepKeepsIdleInv(y, moves[0]);
      RunKeepsIdleInv(Next(y, moves[0]), moves[1..]);
    }
  }

  /** When every listed row can be presented, a client whose stream waits with an
      empty channel lacks a stored change whose notification has finished if and
      only if the change was committed behind the cursor or after the latest
      listing, and the latter only if the notification lost the stream. */
  lemma IdleStreamIsUpToDate(y: System, moves: seq<Move>, c: nat, id: Id)
    requires IsInitial(y) && NoFailures(moves)
    requires var z := Run(y, moves);
             && Asleep(z) && c in z.notes && Finished(z.notes[c])
             && id in z.watch.store.rows && c < |z.commits| && z.commits[c] == z.watch.store.rows[id]
             && Selected(z.watch.start, z.commits[c])
    ensures var z := Run(y, moves);
            && (Missing(z.watch, id) <==> z.commits[c] in z.watch.late || z.listedAt <= c)
            && (z.listedAt <= c ==> Lost(y, moves, c))
  {
    NoLostWakeup(y, moves, c);
    RunKeepsIdleInv(y, moves);
    var z := Run(y, moves);
    var s := z.watch;
    var v := s.store.rows[id];
    if v <= Horizon(s.cur) { assert IsCovered(s, Row(id, v)); }
    if v in s.late { assert v in s.late + s.dropped && Uncovered(s, v); }
  }

  // ----- a lost wakeup

  lemma {:induction false} RunAppends(y: System, a: seq<Move>, b: seq<Move>)
    requires Valid(y)
    ensures Valid(Run(y, a)) && Run(y, a + b) == Run(Run(y, a), b)
    decreases |a|
  {
    if a == [] {
      assert a + b == b;
    } else {
      NextIsValid(y, a[0]);
      RunAppends(Next(y, a[0]), a[1..], b);
      assert (a + b)[0] == a[0] && (a + b)[1..] == a[1..] + b;
    }
  }

  /** A run extended by one more move. */
  ghost function Then(y: System, run: (seq<Move>, System), m: Move): (r: (seq<Move>, System))
    requires Valid(y) && Run(y, run.0) == run.1 && Valid(run.1)
    ensures Run(y, r.0) == r.1 && Valid(r.1) && r.1 == Next(run.1, m)
  {
    RunAppends(y, run.0, [m]);
    NextIsValid(run.1, m);
    assert Run(run.1, [m]) == Next(run.1, m) by { assert [m][1..] == []; }
    (run.0 + [m], Next(run.1, m))
  }

  /** One other client is subscribed, and a write of row `a` has drawn version 1. */
  function OneOther(me: Walks.Sub, other: Walks.Sub, a: Id, size: nat): System {
    System(State(Store(map[], 1, map[1 := a], 0), Closed, 0, size, Cursor(0, [], 0, false, []), {}, {}),
           [], map[], Walks.Lists(map[0 := [other]], Some(Walks.Slice(0, 1))), me, false, 0)
  }

  /** The stream has listed nothing, has sent its bookmark and waits. */
  lemma StreamFallsAsleep(me: Walks.Sub, other: Walks.Sub, a: Id, size: nat) returns (r: (seq<Move>, System))
    requires size > 0
    ensures var y := OneOther(me, other, a, size);
            && Valid(y) && Run(y, r.0) == r.1
            && r.1 == y.(watch := r.1.watch,
                         lists := Walks.Lists(map[0 := [other], 1 := [other, me]], Some(Walks.Slice(1, 2))))
            && r.1.watch == y.watch.(phase := Waiting, cur := Cursor(0, [], 0, true, [Bookmark]))
  {
    var y := OneOther(me, other, a, size);
    r := Then(y, ([], y), Watch(Open([], {})));
    hide Run;
    assert r.1.watch == y.watch.(phase := Opened);
    r := Then(y, r, Enter(1, []));
    assert Walks.Listed(y.lists) == [other] && [other] + [me] + [] == [other, me];
    assert y.lists.arrays[1 := [other, me]] == map[0 := [other], 1 := [other, me]];
    assert r.1.lists == Walks.Lists(map[0 := [other], 1 := [other, me]], Some(Walks.Slice(1, 2)));
    assert r.1.watch == y.watch.(phase := Active);
    r := Then(y, r, Watch(Loop([], {})));
    assert r.1.watch.cur == Cursor(0, [], 0, true, [Bookmark]);
    r := Then(y, r, Watch(Loop([], {})));
  }

  /** The change is committed and its notification has passed the other client,
      which then leaves: the stream is moved to the front. */
  lemma OtherLeaves(me: Walks.Sub, other: Walks.Sub, a: Id, size: nat) returns (r: (seq<Move>, System))
    requires size > 0 && me != other
    ensures var y := OneOther(me, other, a, size);
            && Valid(y) && Run(y, r.0) == r.1 && Valid(r.1)
            && r.1.notes == map[0 := Walking(Walks.Walk(1, 1, 2))] && r.1.listedAt == 0 && Asleep(r.1) && r.1.me == me
            && r.1.lists == Walks.Lists(map[0 := [other], 1 := [me, me]], Some(Walks.Slice(1, 1)))
            && r.1.watch.store.rows == map[a := 1] && r.1.watch.late == {} && r.1.watch.start == 0
            && r.1.watch.cur.events == [Bookmark]
  {
    var y := OneOther(me, other, a, size);
    r := StreamFallsAsleep(me, other, a, size);
    hide Run;
    assert Valid(r.1);
    r := Then(y, r, Watch(Commit(1)));
    r := Then(y, r, Take(0));
    assert r.1.notes == map[0 := Walking(Walks.Walk(1, 0, 2))];
    r := Then(y, r, Advance(0));
    assert r.1.notes == map[0 := Walking(Walks.Walk(1, 1, 2))];
    var l := r.1.lists;
    assert Walks.Listed(l) == [other, me];
    assert l.arrays[1][0 := l.arrays[1][1]] == [me, me];
    assert IndexOf(Walks.Listed(l), other) == 0;
    assert l.arrays[1 := [me, me]] == map[0 := [other], 1 := [me, me]];
    r := Then(y, r, Leave(other));
  }

  /** Two other clients suffice: one leaves behind the walk, one subscribes over
      the cell ahead of it. The notification finishes, and the stream still
      sleeps, subscribed, without the change. */
  lemma WakeupIsLost(me: Walks.Sub, other: Walks.Sub, added: Walks.Sub, a: Id, size: nat)
    returns (y: System, moves: seq<Move>)
    requires size > 0 && me != other && me != added
    ensures IsInitial(y)
    ensures var z := Run(y, moves);
            && Asleep(z) && 0 in z.notes && Finished(z.notes[0]) && z.listedAt == 0
            && Missing(z.watch, a) && z.watch.late == {} && Valid(z) && z.me == me && me in Walks.Listed(z.lists)
  {
    y := OneOther(me, other, a, size);
    var r := OtherLeaves(me, other, a, size);
    hide Run;
    var m := Join(added, 2, []);
    LosingCostsTheWakeup(r.1, m, 0);
    moves := r.0 + ([m] + Advances(0, 1));
    RunAppends(y, r.0, [m] + Advances(0, 1));
    RunKeepsInv(y, moves);
  }
}
