/** The deployment watch stream: a cursor over row versions that lists, emits,
    sends one bookmark, and then waits for a signal, while writers commit rows
    and notify beside it. */
module WatchStream {

  type Id = string

  /** A deployment at a version. Versions come from a database sequence. */
  datatype Row = Row(id: Id, version: int)

  datatype Event = Change(row: Row) | Bookmark

  /** The variables of the stream's event closure. */
  datatype Cursor = Cursor(gt: int, list: seq<Row>, idx: nat, bookmarkSent: bool, events: seq<Event>)

  /** One turn of the event loop: emit the next listed row, or take a new
      listing; a new listing without rows gives the bookmark, then a wait. */
  function Turn(c: Cursor, listing: seq<Row>): (Cursor, bool) {
    if c.idx < |c.list| then
      var row := c.list[c.idx];
      (c.(gt := row.version, idx := c.idx + 1, events := c.events + [Change(row)]), false)
    else
      var d := c.(list := listing, idx := 0);
      if listing != [] then (d, false)
      else if !c.bookmarkSent then (d.(bookmarkSent := true, events := c.events + [Bookmark]), false)
      else (d, true)
  }

  class Stream {
    var gtVersion: int
    var list: seq<Row>
    var idx: nat
    var bookmarkSent: bool
    ghost var events: seq<Event>

    ghost function State(): Cursor
      reads this
    {
      Cursor(gtVersion, list, idx, bookmarkSent, events)
    }

    /** One turn of the loop in GetNextEvent; `listing` is what a listing taken
        now would return. An event is returned, or the loop goes on, or waits. */
    method NextTurn(listing: seq<Row>) returns (event: seq<Event>, wait: bool)
      modifies this
      ensures (State(), wait) == Turn(old(State()), listing)
      ensures events == old(events) + event && |event| <= 1
    {
      event, wait := [], false;
      if idx < |list| {
        var result := list[idx];
        gtVersion := result.version;
        idx := idx + 1;
        event := [Change(result)];
      } else {
        list := listing;
        idx := 0;
        if |list| == 0 {
          if !bookmarkSent {
            bookmarkSent := true;
            event := [Bookmark];
          } else {
            wait := true;
          }
        }
      }
      events := events + event;
      assert old(events) + [] == old(events);
    }
  }

  // ----- the store

  /** `pending` holds writes that have drawn a version and not yet committed;
      `newest` is the largest version committed so far. */
  datatype Store = Store(rows: map<Id, int>, drawn: int, pending: map<int, Id>, newest: int)

  predicate Selected(gt: int, version: int) { gt == 0 || version > gt }

  /** `page` is what the first page of a listing above `gt` holds: selected rows
      in ascending order, all of them unless the page is full. */
  predicate IsPage(rows: map<Id, int>, gt: int, size: nat, page: seq<Row>) {
    && |page| <= size
    && (forall i | 0 <= i < |page| ::
          page[i].id in rows && rows[page[i].id] == page[i].version && Selected(gt, page[i].version))
    && Ascending(page)
    && (forall id | id in rows && Selected(gt, rows[id]) && Row(id, rows[id]) !in page ::
          |page| == size && forall i | 0 <= i < |page| :: page[i].version < rows[id])
  }

  /** Rows that fail to be presented are left out of the list. */
  function Presented(page: seq<Row>, failed: set<Id>): (r: seq<Row>)
    ensures forall x :: x in r <==> x in page && x.id !in failed
    ensures |r| <= |page|
  {
    if page == [] then []
    else (if page[0].id in failed then [] else [page[0]]) + Presented(page[1..], failed)
  }

  predicate Ascending(rows: seq<Row>) {
    forall i, j | 0 <= i < j < |rows| :: rows[i].version < rows[j].version
  }

  lemma {:induction false} PresentedStaysSorted(page: seq<Row>, failed: set<Id>)
    requires Ascending(page)
    ensures Ascending(Presented(page, failed))
  {
    if page != [] {
      PresentedStaysSorted(page[1..], failed);
      var rest := Presented(page[1..], failed);
      forall i | 0 <= i < |rest| ensures page[0].version < rest[i].version {
        assert rest[i] in page[1..];
      }
    }
  }

  // ----- the system

  datatype Phase = Closed | Opened | Active | Waiting | Ended

  /** `late` and `dropped` record the versions the cursor has passed without
      listing: committed behind it, or listed but not presentable. */
  datatype State = State(store: Store, phase: Phase, start: int, size: nat, cur: Cursor,
                         late: set<int>, dropped: set<int>)

  datatype Step =
    | Draw(id: Id)
    | Commit(version: int)
    | Delete(id: Id)
    | Open(page: seq<Row>, failed: set<Id>)
    | Subscribe
    | Loop(page: seq<Row>, failed: set<Id>)
    | Wake
    | End

  /** The version up to which the stream has already taken its listings. */
  function Horizon(c: Cursor): int {
    if c.idx < |c.list| then c.list[|c.list| - 1].version else c.gt
  }

  /** The versions of `page` that a listing leaves behind for good. */
  function LeftBehind(page: seq<Row>, list: seq<Row>): set<int> {
    set r | r in page && r !in list && list != [] && r.version < list[|list| - 1].version :: r.version
  }

  predicate Streaming(s: State) { s.phase.Opened? || s.phase.Active? || s.phase.Waiting? }

  function Next(s: State, step: Step): State {
    var db := s.store;
    match step
    case Draw(id) =>
      // a row being written is locked until its writer commits
      if id in db.pending.Values then s
      else s.(store := db.(drawn := db.drawn + 1, pending := db.pending[db.drawn + 1 := id]))
    case Commit(v) =>
      if v !in db.pending then s
      else s.(store := db.(rows := db.rows[db.pending[v] := v], pending := db.pending - {v},
                           newest := if v > db.newest then v else db.newest),
              late := if Streaming(s) && Selected(s.start, v) && v <= Horizon(s.cur) then s.late + {v} else s.late)
    case Delete(id) => if id in db.pending.Values then s else s.(store := db.(rows := db.rows - {id}))
    case Open(page, failed) =>
      if !s.phase.Closed? || !IsPage(db.rows, s.cur.gt, s.size, page) then s
      else
        var list := Presented(page, failed);
        s.(phase := Opened, cur := s.cur.(list := list, idx := 0), dropped := s.dropped + LeftBehind(page, list))
    case Subscribe => if s.phase.Opened? then s.(phase := Active) else s
    case Loop(page, failed) =>
      if !s.phase.Active? then s
      else if s.cur.idx < |s.cur.list| then s.(cur := Turn(s.cur, []).0)
      else if !IsPage(db.rows, s.cur.gt, s.size, page) then s
      else
        var list := Presented(page, failed);
        var (cur, wait) := Turn(s.cur, list);
        s.(cur := cur, phase := if wait then Waiting else Active,
           dropped := s.dropped + LeftBehind(page, list))
    case Wake => if s.phase.Waiting? then s.(phase := Active) else s
    case End => s.(phase := Ended)
  }

  function Run(s: State, steps: seq<Step>): State
    decreases |steps|
  {
    if steps == [] then s else Run(Next(s, steps[0]), steps[1..])
  }

  predicate StoreInv(db: Store) {
    && (forall id | id in db.rows :: 0 < db.rows[id] <= db.newest && db.rows[id] !in db.pending)
    && (forall a, b | a in db.rows && b in db.rows && a != b :: db.rows[a] != db.rows[b])
    && (forall v | v in db.pending :: 0 < v <= db.drawn)
    && 0 <= db.newest <= db.drawn
  }

  predicate IsInitial(s: State) {
    && StoreInv(s.store) && s.phase.Closed? && s.size > 0
    && s.cur == Cursor(s.start, [], 0, false, []) && s.late == {} && s.dropped == {}
  }

  // ----- what every run keeps

  predicate CursorInv(s: State) {
    var c := s.cur;
    && c.idx <= |c.list|
    && Ascending(c.list)
    && (forall i | c.idx <= i < |c.list| :: Selected(c.gt, c.list[i].version))
    && (forall i | 0 <= i < |c.list| ::
          0 < c.list[i].version <= s.store.newest && c.list[i].version !in s.store.pending)
    && (c.gt == s.start || 0 < c.gt <= s.store.newest)
    && (Selected(s.start, c.gt) || c.gt == s.start)
  }

  predicate EventsInv(s: State) {
    var c := s.cur;
    && (forall i | 0 <= i < |c.events| && c.events[i].Change? ::
          var v := c.events[i].row.version;
          0 < v <= c.gt && Selected(s.start, v) && v <= s.store.newest && v !in s.store.pending)
    && (forall i, j | 0 <= i < j < |c.events| && c.events[i].Change? && c.events[j].Change? ::
          c.events[i].row.version < c.events[j].row.version)
    && (forall i, j | 0 <= i < j < |c.events| :: !(c.events[i].Bookmark? && c.events[j].Bookmark?))
    && (Bookmark in c.events ==> c.bookmarkSent)
  }

  /** Rows up to the horizon are emitted, about to be, or known to be passed over. */
  predicate IsCovered(s: State, row: Row)
    requires s.cur.idx <= |s.cur.list|
  {
    || Change(row) in s.cur.events || row in s.cur.list[s.cur.idx..]
    || row.version in s.late || row.version in s.dropped
  }

  predicate Uncovered(s: State, v: int)
    requires s.cur.idx <= |s.cur.list|
  {
    && v <= Horizon(s.cur)
    && (forall e | e in s.cur.events && e.Change? :: e.row.version != v)
    && (forall r | r in s.cur.list[s.cur.idx..] :: r.version != v)
  }

  predicate CoverInv(s: State)
    requires s.cur.idx <= |s.cur.list|
  {
    && (forall id | id in s.store.rows && Selected(s.start, s.store.rows[id]) && Streaming(s)
          && s.store.rows[id] <= Horizon(s.cur) :: IsCovered(s, Row(id, s.store.rows[id])))
    && (forall v | v in s.late + s.dropped :: Uncovered(s, v))
  }

  predicate Inv(s: State) {
    && s.size > 0 && StoreInv(s.store) && CursorInv(s) && EventsInv(s)
    && (s.phase.Closed? ==> s.cur == Cursor(s.start, [], 0, false, []) && s.late == {} && s.dropped == {})
  }

  /** `t` is `s` after a new listing `page`, taken with no row left to emit. */
  predicate Listed(s: State, t: State, page: seq<Row>, failed: set<Id>) {
    && (s.phase.Closed? || (Streaming(s) && s.cur.idx == |s.cur.list|))
    && t.store == s.store && t.start == s.start && t.late == s.late && Streaming(t)
    && IsPage(s.store.rows, s.cur.gt, s.size, page)
    && t.cur.list == Presented(page, failed) && t.cur.idx == 0 && t.cur.gt == s.cur.gt
    && (t.cur.events == s.cur.events || t.cur.events == s.cur.events + [Bookmark])
    && t.dropped == s.dropped + LeftBehind(page, t.cur.list)
  }

  lemma StoreStepKeepsInv(s: State, step: Step)
    requires Inv(s) && (step.Draw? || step.Commit? || step.Delete?)
    ensures Inv(Next(s, step))
  {
  }

  lemma EmittingKeepsInv(s: State)
    requires Inv(s) && s.phase.Active? && s.cur.idx < |s.cur.list|
    ensures Inv(s.(cur := Turn(s.cur, []).0))
  {
  }

  lemma ListingKeepsCursor(s: State, t: State, page: seq<Row>, failed: set<Id>)
    requires Inv(s) && Listed(s, t, page, failed)
    ensures CursorInv(t)
  {
    PresentedStaysSorted(page, failed);
    forall i | 0 <= i < |t.cur.list|
      ensures var v := t.cur.list[i].version;
              Selected(t.cur.gt, v) && 0 < v <= t.store.newest && v !in t.store.pending
    {
      assert t.cur.list[i] in page;
    }
  }

  lemma BookmarkKeepsEvents(s: State, t: State)
    requires EventsInv(s) && t.store == s.store && t.start == s.start && t.cur.gt == s.cur.gt
    requires if s.cur.bookmarkSent || !t.cur.bookmarkSent
             then t.cur.events == s.cur.events && t.cur.bookmarkSent == s.cur.bookmarkSent
             else t.cur.events == s.cur.events + [Bookmark]
    ensures EventsInv(t)
  {
  }

  lemma ListingKeepsInv(s: State, t: State, page: seq<Row>, failed: set<Id>)
    requires Inv(s) && Listed(s, t, page, failed) && t.size == s.size
    requires if s.cur.bookmarkSent || !t.cur.bookmarkSent
             then t.cur.events == s.cur.events && t.cur.bookmarkSent == s.cur.bookmarkSent
             else t.cur.events == s.cur.events + [Bookmark]
    ensures Inv(t)
  {
    ListingKeepsCursor(s, t, page, failed);
    BookmarkKeepsEvents(s, t);
  }

  lemma StepKeepsInv(s: State, step: Step)
    requires Inv(s)
    ensures Inv(Next(s, step))
  {
    var t := Next(s, step);
    match step
    case Open(page, failed) =>
      if s.phase.Closed? && IsPage(s.store.rows, s.cur.gt, s.size, page) { ListingKeepsInv(s, t, page, failed); }
    case Loop(page, failed) =>
      if s.phase.Active? {
        if s.cur.idx < |s.cur.list| {
          EmittingKeepsInv(s);
        } else if IsPage(s.store.rows, s.cur.gt, s.size, page) {
          ListingKeepsInv(s, t, page, failed);
        }
      }
    case Subscribe | Wake | End =>
    case _ => StoreStepKeepsInv(s, step);
  }

  lemma ListedOrLeftBehind(db: Store, gt: int, size: nat, page: seq<Row>, failed: set<Id>, id: Id)
    requires StoreInv(db) && IsPage(db.rows, gt, size, page) && id in db.rows && Selected(gt, db.rows[id])
    requires var list := Presented(page, failed); list != [] && db.rows[id] <= list[|list| - 1].version
    ensures var list := Presented(page, failed);
            Row(id, db.rows[id]) in list || db.rows[id] in LeftBehind(page, list)
  {
    var list, row := Presented(page, failed), Row(id, db.rows[id]);
    var last := list[|list| - 1];
    assert last in page;
    var k :| 0 <= k < |page| && page[k] == last;
    assert row in page;
  }

  lemma ListingCovers(s: State, t: State, page: seq<Row>, failed: set<Id>, id: Id)
    requires Inv(s) && CoverInv(s) && Listed(s, t, page, failed)
    requires id in t.store.rows && Selected(t.start, t.store.rows[id]) && t.store.rows[id] <= Horizon(t.cur)
    ensures IsCovered(t, Row(id, t.store.rows[id]))
  {
    var list, row := t.cur.list, Row(id, t.store.rows[id]);
    assert list[0..] == list;
    if Selected(s.cur.gt, row.version) {
      ListedOrLeftBehind(s.store, s.cur.gt, s.size, page, failed, id);
    } else {
      assert IsCovered(s, row);
    }
  }

  lemma OnePerVersion(rows: map<Id, int>, gt: int, size: nat, page: seq<Row>, a: Row, b: Row)
    requires IsPage(rows, gt, size, page) && a in page && b in page && a.version == b.version
    ensures a == b && Selected(gt, a.version)
  {
    var i :| 0 <= i < |page| && page[i] == a;
    var j :| 0 <= j < |page| && page[j] == b;
    assert !(i < j) && !(j < i);
  }

  lemma StaysPassedOver(s: State, t: State, page: seq<Row>, failed: set<Id>, v: int)
    requires Inv(s) && Inv(t) && CoverInv(s) && Listed(s, t, page, failed) && v in s.late + s.dropped
    ensures Uncovered(t, v)
  {
    var list := t.cur.list;
    assert list[0..] == list;
    assert Uncovered(s, v);
    forall r | r in list ensures r.version > v {
      var k :| 0 <= k < |list| && list[k] == r;
      assert Selected(t.cur.gt, r.version);
    }
  }

  lemma IsPassedOver(s: State, t: State, page: seq<Row>, failed: set<Id>, v: int)
    requires Inv(t) && Listed(s, t, page, failed) && v in LeftBehind(page, t.cur.list)
    ensures Uncovered(t, v)
  {
    var list := t.cur.list;
    assert list[0..] == list;
    var r :| r in page && r !in list && r.version == v && v < list[|list| - 1].version;
    OnePerVersion(s.store.rows, s.cur.gt, s.size, page, r, r);
    forall q | q in list ensures q.version != v {
      if q.version == v { OnePerVersion(s.store.rows, s.cur.gt, s.size, page, q, r); }
    }
    NothingEmittedAbove(t, v);
  }

  lemma NothingEmittedAbove(s: State, v: int)
    requires Inv(s) && Selected(s.cur.gt, v)
    ensures forall e | e in s.cur.events && e.Change? :: e.row.version != v
  {
  }

  lemma ListingKeepsCover(s: State, t: State, page: seq<Row>, failed: set<Id>)
    requires Inv(s) && Inv(t) && CoverInv(s) && Listed(s, t, page, failed)
    ensures CoverInv(t)
  {
    forall id | id in t.store.rows && Selected(t.start, t.store.rows[id]) && t.store.rows[id] <= Horizon(t.cur)
      ensures IsCovered(t, Row(id, t.store.rows[id]))
    {
      ListingCovers(s, t, page, failed, id);
    }
    forall v | v in t.late + t.dropped ensures Uncovered(t, v) {
      if v in s.late + s.dropped {
        StaysPassedOver(s, t, page, failed, v);
      } else {
        IsPassedOver(s, t, page, failed, v);
      }
    }
  }

  lemma EmittingKeepsCover(s: State, t: State)
    requires Inv(s) && CoverInv(s) && s.phase.Active? && s.cur.idx < |s.cur.list|
    requires t == s.(cur := Turn(s.cur, []).0)
    ensures CoverInv(t)
  {
    var c, d := s.cur, t.cur;
    assert c.list[c.idx..] == [c.list[c.idx]] + d.list[d.idx..];
    assert Horizon(d) == Horizon(c);
    forall id | id in t.store.rows && Selected(t.start, t.store.rows[id]) && t.store.rows[id] <= Horizon(d)
      ensures IsCovered(t, Row(id, t.store.rows[id]))
    {
      assert IsCovered(s, Row(id, s.store.rows[id]));
    }
    forall v | v in t.late + t.dropped ensures Uncovered(t, v) { assert Uncovered(s, v); }
  }

  lemma CommitKeepsCover(s: State, v: int)
    requires Inv(s) && CoverInv(s) && v in s.store.pending
    ensures CoverInv(Next(s, Commit(v)))
  {
    var t := Next(s, Commit(v));
    forall id | id in t.store.rows && Selected(t.start, t.store.rows[id]) && Streaming(t)
                && t.store.rows[id] <= Horizon(t.cur)
      ensures IsCovered(t, Row(id, t.store.rows[id]))
    {
      if id != s.store.pending[v] { assert IsCovered(s, Row(id, s.store.rows[id])); }
    }
    forall u | u in t.late + t.dropped ensures Uncovered(t, u) {
      if u in s.late + s.dropped { assert Uncovered(s, u); }
    }
  }

  lemma StepKeepsCover(s: State, step: Step)
    requires Inv(s) && CoverInv(s)
    ensures CoverInv(Next(s, step))
  {
    var t := Next(s, step);
    StepKeepsInv(s, step);
    match step
    case Commit(v) => if v in s.store.pending { CommitKeepsCover(s, v); }
    case Open(page, failed) =>
      if s.phase.Closed? && IsPage(s.store.rows, s.cur.gt, s.size, page) { ListingKeepsCover(s, t, page, failed); }
    case Loop(page, failed) =>
      if s.phase.Active? {
        if s.cur.idx < |s.cur.list| {
          EmittingKeepsCover(s, t);
        } else if IsPage(s.store.rows, s.cur.gt, s.size, page) {
          ListingKeepsCover(s, t, page, failed);
        }
      }
    case _ => OtherStepsKeepCover(s, step);
  }

  lemma OtherStepsKeepCover(s: State, step: Step)
    requires Inv(s) && CoverInv(s)
    requires step.Draw? || step.Delete? || step.Subscribe? || step.Wake? || step.End?
    ensures CoverInv(Next(s, step))
  {
    var t := Next(s, step);
    forall id | id in t.store.rows && Selected(t.start, t.store.rows[id]) && Streaming(t)
                && t.store.rows[id] <= Horizon(t.cur)
      ensures IsCovered(t, Row(id, t.store.rows[id]))
    {
      assert IsCovered(s, Row(id, s.store.rows[id]));
    }
    forall u | u in t.late + t.dropped ensures Uncovered(t, u) { assert Uncovered(s, u); }
  }

  lemma {:induction false} RunKeepsInv(s: State, steps: seq<Step>)
    requires Inv(s) && CoverInv(s)
    ensures Inv(Run(s, steps)) && CoverInv(Run(s, steps))
    decreases |steps|
  {
    if steps != [] {
      StepKeepsInv(s, steps[0]);
      StepKeepsCover(s, steps[0]);
      RunKeepsInv(Next(s, steps[0]), steps[1..]);
    }
  }

  // ----- what the client sees

  /** Over every run of writers and stream, the versions sent strictly increase
      from above the starting version, and the bookmark is sent at most once. */
  lemma VersionsIncreaseAndOneBookmark(s: State, steps: seq<Step>, i: nat, j: nat)
    requires IsInitial(s) && i < j < |Run(s, steps).cur.events|
    ensures var e := Run(s, steps).cur.events;
            && (e[i].Change? ==> Selected(s.start, e[i].row.version))
            && (e[i].Change? && e[j].Change? ==> e[i].row.version < e[j].row.version)
            && !(e[i].Bookmark? && e[j].Bookmark?)
  {
    RunKeepsInv(s, steps);
    StartStays(s, steps);
  }

  lemma {:induction false} StartStays(s: State, steps: seq<Step>)
    ensures Run(s, steps).start == s.start && Run(s, steps).size == s.size
    decreases |steps|
  {
    if steps != [] { StartStays(Next(s, steps[0]), steps[1..]); }
  }

  /** The step sends the bookmark. */
  predicate SendsBookmark(s: State, step: Step) {
    step.Loop? && Next(s, step).cur.bookmarkSent && !s.cur.bookmarkSent
  }

  /** A stored row above the start that the client has not been sent. */
  predicate Missing(s: State, id: Id) {
    id in s.store.rows && Selected(s.start, s.store.rows[id])
    && Change(Row(id, s.store.rows[id])) !in s.cur.events
  }

  /** At the bookmark, a stored row above the start is missing exactly when it
      was committed behind the cursor, or was passed over because it could not
      be presented, or lies beyond a page of which nothing could be presented. */
  lemma MissingAtBookmark(s: State, steps: seq<Step>, step: Step, id: Id)
    requires IsInitial(s) && SendsBookmark(Run(s, steps), step)
    requires var t := Next(Run(s, steps), step); id in t.store.rows && Selected(t.start, t.store.rows[id])
    ensures var t := Next(Run(s, steps), step);
            var v := t.store.rows[id];
            && (Missing(t, id) <==> v in t.late || v in t.dropped || Selected(t.cur.gt, v))
            && (Selected(t.cur.gt, v) ==>
                if Row(id, v) in step.page then id in step.failed
                else |step.page| == s.size && step.failed != {})
  {
    var r := Run(s, steps);
    RunKeepsInv(s, steps);
    StartStays(s, steps);
    StepKeepsInv(r, step);
    StepKeepsCover(r, step);
    hide Run, Inv;
    var t := Next(r, step);
    var v := t.store.rows[id];
    if Selected(t.cur.gt, v) {
      NothingEmittedAbove(t, v);
      if Row(id, v) !in step.page { assert step.page[0] in step.page; }
    } else {
      assert IsCovered(t, Row(id, v));
    }
    if v in t.late + t.dropped { assert Uncovered(t, v); }
  }

  // ----- when nothing is missing

  /** Commits come in version order, and every listed row can be presented. */
  predicate Orderly(s: State, steps: seq<Step>)
    decreases |steps|
  {
    steps == []
    || (&& (steps[0].Commit? && steps[0].version in s.store.pending ==> steps[0].version > s.store.newest)
        && (steps[0].Open? || steps[0].Loop? ==> steps[0].failed == {})
        && Orderly(Next(s, steps[0]), steps[1..]))
  }

  lemma EverythingPresented(page: seq<Row>)
    ensures Presented(page, {}) == page
  {
  }

  lemma OrderlyStep(s: State, step: Step)
    requires Inv(s) && s.late == {} && s.dropped == {} && Orderly(s, [step])
    ensures Next(s, step).late == {} && Next(s, step).dropped == {}
  {
    assert [step][0] == step;
    if step.Open? || step.Loop? { EverythingPresented(step.page); }
    if step.Commit? && s.cur.idx < |s.cur.list| {
      assert s.cur.list[|s.cur.list| - 1].version <= s.store.newest;
    }
  }

  lemma {:induction false} OrderlyRun(s: State, steps: seq<Step>)
    requires Inv(s) && s.late == {} && s.dropped == {} && Orderly(s, steps)
    ensures Run(s, steps).late == {} && Run(s, steps).dropped == {}
    decreases |steps|
  {
    if steps != [] {
      StepKeepsInv(s, steps[0]);
      OrderlyStep(s, steps[0]);
      OrderlyRun(Next(s, steps[0]), steps[1..]);
    }
  }

  /** If rows become visible in version order and can all be presented, then at
      the bookmark the client has been sent every stored row above its start,
      at its current version. */
  lemma NothingMissingAtBookmark(s: State, steps: seq<Step>, step: Step, id: Id)
    requires IsInitial(s) && Orderly(s, steps) && Orderly(Run(s, steps), [step])
    requires SendsBookmark(Run(s, steps), step)
    ensures !Missing(Next(Run(s, steps), step), id)
  {
    var r := Run(s, steps);
    OrderlyRun(s, steps);
    RunKeepsInv(s, steps);
    OrderlyStep(r, step);
    assert [step][0] == step;
    var t := Next(r, step);
    if id in t.store.rows && Selected(t.start, t.store.rows[id]) {
      MissingAtBookmark(s, steps, step, id);
      EverythingPresented(step.page);
    }
  }

  // ----- a commit behind the cursor

  lemma {:induction false} RunExtends(s: State, steps: seq<Step>, step: Step)
    ensures Run(s, steps + [step]) == Next(Run(s, steps), step)
    decreases |steps|
  {
    if steps == [] {
      assert (steps + [step])[1..] == [];
    } else {
      assert (steps + [step])[1..] == steps[1..] + [step];
      RunExtends(Next(s, steps[0]), steps[1..], step);
    }
  }

  ghost function Then(s: State, run: (seq<Step>, State), step: Step): (r: (seq<Step>, State))
    requires Run(s, run.0) == run.1
    ensures Run(s, r.0) == r.1 && r.1 == Next(run.1, step)
  {
    RunExtends(s, run.0, step);
    (run.0 + [step], Next(run.1, step))
  }

  /** Row `b` at version 2 is committed; version 1 is drawn for row `a` and not committed. */
  function BothDrawn(a: Id, b: Id, size: nat): State {
    State(Store(map[b := 2], 2, map[1 := a], 2), Closed, 0, size, Cursor(0, [], 0, false, []), {}, {})
  }

  lemma SendsTheCommittedRow(a: Id, b: Id, size: nat) returns (r: (seq<Step>, State))
    requires a != b && size > 0
    ensures Run(BothDrawn(a, b, size), r.0) == r.1
    ensures r.1.cur == Cursor(2, [Row(b, 2)], 1, false, [Change(Row(b, 2))])
    ensures r.1.store == BothDrawn(a, b, size).store && r.1.phase.Active? && r.1.start == 0 && r.1.size == size
  {
    var s := BothDrawn(a, b, size);
    var sent := [Row(b, 2)];
    EverythingPresented(sent);
    r := Then(s, ([], s), Open(sent, {}));
    hide Run;
    assert r.1.cur == Cursor(0, sent, 0, false, []) && r.1.phase.Opened?;
    r := Then(s, r, Subscribe);
    r := Then(s, r, Loop([], {}));
  }

  /** Versions are drawn before they are committed. A row that draws first and
      commits second, after the stream has sent the other, is never sent. */
  lemma LateCommitIsMissed(a: Id, b: Id, size: nat) returns (s: State, steps: seq<Step>, step: Step)
    requires a != b && size > 0
    ensures IsInitial(s) && SendsBookmark(Run(s, steps), step)
    ensures Missing(Next(Run(s, steps), step), a)
  {
    s := BothDrawn(a, b, size);
    var r := SendsTheCommittedRow(a, b, size);
    hide Run;
    r := Then(s, r, Commit(1));
    assert r.1.store.rows == map[b := 2, a := 1];
    steps, step := r.0, Loop([], {});
  }

  // ----- a page that cannot be presented

  function Members(rows: seq<Row>): set<Row> { set r | r in rows }

  lemma {:induction false} AscendingMembers(rows: seq<Row>)
    requires Ascending(rows)
    ensures |Members(rows)| == |rows|
  {
    if rows != [] {
      var n := |rows| - 1;
      AscendingMembers(rows[..n]);
      assert rows == rows[..n] + [rows[n]] && rows[n] !in rows[..n];
      assert Members(rows) == Members(rows[..n]) + {rows[n]};
    }
  }

  /** A row missing from one page of a table is not on any other. */
  lemma PageHolds(rows: map<Id, int>, gt: int, size: nat, p: seq<Row>, q: seq<Row>)
    requires IsPage(rows, gt, size, p) && IsPage(rows, gt, size, q)
    ensures Members(q) <= Members(p)
  {
    if r :| r in Members(q) && r !in Members(p) {
      var k :| 0 <= k < |q| && q[k] == r;
      assert |p| == size && forall i | 0 <= i < |p| :: p[i].version < r.version;
      forall x | x in Members(p) ensures x in Members(q) {
        var i :| 0 <= i < |p| && p[i] == x;
        assert p[i].version < q[k].version;
      }
      AscendingMembers(p);
      AscendingMembers(q);
      SmallerSet(Members(p), Members(q), r);
    }
  }

  lemma SmallerSet<T>(a: set<T>, b: set<T>, x: T)
    requires a <= b && x in b && x !in a
    ensures |a| < |b|
  {
    assert b == (b - a) + a && x in b - a;
    assert |b| == |b - a| + |a|;
  }

  lemma LastIsGreatest(a: seq<Row>, x: Row)
    requires Ascending(a) && x in Members(a)
    ensures a != [] && (x == a[|a| - 1] || x.version < a[|a| - 1].version)
  {
    var i :| 0 <= i < |a| && a[i] == x;
  }

  lemma WithoutLast(a: seq<Row>)
    requires Ascending(a) && a != []
    ensures Ascending(a[..|a| - 1]) && Members(a[..|a| - 1]) == Members(a) - {a[|a| - 1]}
  {
    var n := |a| - 1;
    assert a == a[..n] + [a[n]] && a[n] !in a[..n];
  }

  lemma {:induction false} AscendingIsDetermined(a: seq<Row>, b: seq<Row>)
    requires Ascending(a) && Ascending(b) && Members(a) == Members(b)
    ensures a == b
    decreases |a|
  {
    AscendingMembers(a);
    AscendingMembers(b);
    if a != [] {
      var n := |a| - 1;
      assert a[n] in Members(a) && b[n] in Members(b);
      LastIsGreatest(a, b[n]);
      LastIsGreatest(b, a[n]);
      WithoutLast(a);
      WithoutLast(b);
      hide Ascending, Members;
      AscendingIsDetermined(a[..n], b[..n]);
      assert a == a[..n] + [a[n]] && b == b[..n] + [b[n]];
    }
  }

  /** The first page of a table above a version is determined. */
  lemma PageIsUnique(rows: map<Id, int>, gt: int, size: nat, p: seq<Row>, q: seq<Row>)
    requires IsPage(rows, gt, size, p) && IsPage(rows, gt, size, q)
    ensures p == q
  {
    PageHolds(rows, gt, size, p, q);
    PageHolds(rows, gt, size, q, p);
    AscendingIsDetermined(p, q);
  }

  function IdsOf(page: seq<Row>): set<Id> { set r | r in page :: r.id }

  lemma {:induction false} NothingPresented(page: seq<Row>, failed: set<Id>)
    requires IdsOf(page) <= failed
    ensures Presented(page, failed) == []
  {
    if page != [] {
      assert page[0] in page && page[0].id in IdsOf(page);
      NothingPresented(page[1..], failed);
    }
  }

  /** Whatever the table, if its first page is full and none of its rows can be
      presented, the bookmark is sent with every row beyond the page missing,
      though none of them is late or was passed over. */
  lemma UnpresentablePageHidesTheRest(s: State, page: seq<Row>, id: Id)
    requires IsInitial(s) && IsPage(s.store.rows, s.start, s.size, page)
    requires id in s.store.rows && Selected(s.start, s.store.rows[id]) && Row(id, s.store.rows[id]) !in page
    ensures var steps, step := [Open(page, IdsOf(page)), Subscribe], Loop(page, IdsOf(page));
            var t := Next(Run(s, steps), step);
            && SendsBookmark(Run(s, steps), step) && Missing(t, id) && t.late == {} && t.dropped == {}
  {
    var open, loop := Open(page, IdsOf(page)), Loop(page, IdsOf(page));
    NothingPresented(page, IdsOf(page));
    assert [open, Subscribe][1..] == [Subscribe] && [Subscribe][1..] == [];
    var s1 := Next(s, open);
    var s2 := Next(s1, Subscribe);
    assert Run(s, [open, Subscribe]) == s2;
    assert s1.cur == s.cur && s2.cur == s.cur && s2.phase.Active?;
  }

  /** The rows of `page` stay stored as they are and cannot be presented, and what
      is committed has larger versions than they. */
  predicate StaysUnpresentable(s: State, steps: seq<Step>, page: seq<Row>)
    decreases |steps|
  {
    steps == [] ||
    (&& (match steps[0]
         case Commit(v) =>
           v in s.store.pending ==> s.store.pending[v] !in IdsOf(page) && forall r | r in page :: r.version < v
         case Delete(id) => id !in IdsOf(page)
         case Open(_, failed) => IdsOf(page) <= failed
         case Loop(_, failed) => IdsOf(page) <= failed
         case _ => true)
     && StaysUnpresentable(Next(s, steps[0]), steps[1..], page))
  }

  predicate Stuck(s: State, page: seq<Row>) {
    && |page| == s.size && IsPage(s.store.rows, s.cur.gt, s.size, page)
    && s.cur.list == [] && forall e | e in s.cur.events :: e == Bookmark
  }

  lemma StoreStepStaysStuck(s: State, step: Step, page: seq<Row>)
    requires Stuck(s, page) && StaysUnpresentable(s, [step], page) && (step.Commit? || step.Delete?)
    ensures Stuck(Next(s, step), page)
  {
    assert [step][0] == step;
    assert forall i | 0 <= i < |page| :: page[i] in page && page[i].id in IdsOf(page);
  }

  lemma ListingStaysStuck(s: State, step: Step, page: seq<Row>)
    requires Stuck(s, page) && StaysUnpresentable(s, [step], page) && (step.Open? || step.Loop?)
    ensures Stuck(Next(s, step), page)
  {
    assert [step][0] == step;
    if IsPage(s.store.rows, s.cur.gt, s.size, step.page) {
      PageIsUnique(s.store.rows, s.cur.gt, s.size, page, step.page);
      NothingPresented(page, step.failed);
    }
    hide IsPage;
  }

  lemma {:induction false} RunStaysStuck(s: State, steps: seq<Step>, page: seq<Row>)
    requires Stuck(s, page) && StaysUnpresentable(s, steps, page)
    ensures Stuck(Run(s, steps), page)
    decreases |steps|
  {
    if steps != [] {
      var step := steps[0];
      assert [step][0] == step && [step][1..] == [];
      if step.Commit? || step.Delete? {
        StoreStepStaysStuck(s, step, page);
      } else if step.Open? || step.Loop? {
        ListingStaysStuck(s, step, page);
      }
      RunStaysStuck(Next(s, step), steps[1..], page);
    }
  }

  /** The cursor moves only when a row is sent, and every listing starts at the
      cursor: as long as the rows of a full first page cannot be presented, the
      stream sends nothing, however long it runs and whatever else is committed. */
  lemma UnpresentablePageBlocksTheStream(s: State, steps: seq<Step>, page: seq<Row>, row: Row)
    requires IsInitial(s) && IsPage(s.store.rows, s.start, s.size, page) && |page| == s.size
    requires StaysUnpresentable(s, steps, page)
    ensures Change(row) !in Run(s, steps).cur.events
  {
    RunStaysStuck(s, steps, page);
  }
}
