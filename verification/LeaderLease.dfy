/** The leader lease of one worker type: any number of workers compete for one
    database row. An attempt is a sequence of separate database and clock
    operations, which interleave with those of every other attempt. */
module LeaderLease {
  import opened Options

  const SECOND := 1_000_000_000
  const RENEW_WINDOW := 30 * SECOND

  datatype Lease = Lease(leader: string, expires: int)

  predicate IsExpired(lease: Lease, now: int) { lease.leader == "" || now > lease.expires }

  predicate IsDue(lease: Lease, now: int) { lease.expires < now + RENEW_WINDOW }

  /** Where one worker's attempt stands. `read` and `locked` count the commits on
      the row at the snapshot read and at the row lock. */
  datatype Phase =
    | Idle
    | Snapshot(lease: Lease, read: nat)
    | Stamped(lease: Lease, read: nat, newExpiry: int)
    | Unexpired(lease: Lease, read: nat, newExpiry: int)
    | Opening(lease: Lease, read: nat, newExpiry: int)
    | Missed(lease: Lease, read: nat)
    | Locked(lease: Lease, read: nat, newExpiry: int, locked: nat)

  /** What the last finished attempt told its worker; `stored` is false when the
      commit failed, an error the attempt does not look at. */
  datatype Answer = Refused | Acquired(expires: int, stored: bool)

  datatype Commit = Commit(worker: string, expires: int)

  datatype State = State(row: Lease, now: int, commits: seq<Commit>, holder: Option<string>,
                         phase: map<string, Phase>, last: map<string, Answer>)
  {
    function Phase(w: string): Phase { if w in phase then phase[w] else Idle }

    function At(w: string, p: Phase): State { this.(phase := phase[w := p]) }

    function Answered(w: string, a: Answer): State {
      this.(phase := phase[w := Idle], last := last[w := a])
    }
  }

  datatype Step =
    | Tick(d: nat)
    | Read(w: string)
    | Stamp(w: string)
    | CheckExpired(w: string)
    | CheckDue(w: string)
    | TryLock(w: string)
    | CheckMissed(w: string)
    | Save(w: string)
    | SaveFails(w: string)
    | Fail(w: string)

  predicate Enabled(s: State, step: Step) {
    match step
    case Tick(_) => true
    case Read(w) => w != "" && s.Phase(w).Idle?
    case Stamp(w) => s.Phase(w).Snapshot?
    case CheckExpired(w) => s.Phase(w).Stamped?
    case CheckDue(w) => s.Phase(w).Unexpired?
    case TryLock(w) => s.Phase(w).Opening?
    case CheckMissed(w) => s.Phase(w).Missed?
    case Save(w) => s.Phase(w).Locked?
    case SaveFails(w) => s.Phase(w).Locked?
    case Fail(w) => w != "" && (s.Phase(w).Idle? || s.Phase(w).Opening? || s.Phase(w).Locked?)
  }

  function Apply(s: State, step: Step, leaseTime: int): State
    requires Enabled(s, step)
  {
    match step
    case Tick(d) => s.(now := s.now + d)
    case Read(w) => s.At(w, Snapshot(s.row, |s.commits|))
    case Stamp(w) =>
      var p := s.Phase(w);
      s.At(w, Stamped(p.lease, p.read, s.now + leaseTime))
    case CheckExpired(w) =>
      var p := s.Phase(w);
      s.At(w, if IsExpired(p.lease, s.now) then Opening(p.lease, p.read, p.newExpiry)
              else Unexpired(p.lease, p.read, p.newExpiry))
    case CheckDue(w) =>
      var p := s.Phase(w);
      if p.lease.leader == w && IsDue(p.lease, s.now) then s.At(w, Opening(p.lease, p.read, p.newExpiry))
      else s.Answered(w, if p.lease.leader == w then Acquired(p.lease.expires, true) else Refused)
    case TryLock(w) =>
      var p := s.Phase(w);
      if s.holder.Some? then s.At(w, Missed(p.lease, p.read))
      else s.At(w, Locked(p.lease, p.read, p.newExpiry, |s.commits|)).(holder := Some(w))
    case CheckMissed(w) =>
      var p := s.Phase(w);
      s.Answered(w, if IsExpired(p.lease, s.now) then Refused else Acquired(p.lease.expires, true))
    case Save(w) =>
      var e := s.Phase(w).newExpiry;
      s.Answered(w, Acquired(e, true))
       .(row := Lease(w, e), commits := s.commits + [Commit(w, e)], holder := None)
    case SaveFails(w) => s.Answered(w, Acquired(s.Phase(w).newExpiry, false)).(holder := None)
    case Fail(w) => s.Answered(w, Refused).(holder := if s.Phase(w).Locked? then None else s.holder)
  }

  // ----- runs

  predicate Alone(s: State, w: string) { forall v | v in s.phase && v != w :: s.phase[v].Idle? }

  /** In a run without overlap an attempt starts only when no other is under way. */
  predicate MayStep(s: State, step: Step, overlap: bool) {
    Enabled(s, step) && (!overlap && step.Read? ==> Alone(s, step.w))
  }

  function Next(s: State, step: Step, leaseTime: int, overlap: bool): State {
    if MayStep(s, step, overlap) then Apply(s, step, leaseTime) else s
  }

  /** A schedule is any sequence of steps; one that cannot be taken is skipped. */
  function Run(s: State, steps: seq<Step>, leaseTime: int, overlap: bool): State
    decreases |steps|
  {
    if steps == [] then s
    else Run(Next(s, steps[0], leaseTime, overlap), steps[1..], leaseTime, overlap)
  }

  predicate IsInitial(s: State) {
    s.commits == [] && s.holder.None? && s.phase == map[] && s.last == map[]
  }

  // ----- what every interleaving keeps

  predicate PhaseInv(s: State, w: string, p: Phase) {
    && (!p.Idle? ==> w != "" && p.read <= |s.commits| && (p.read == |s.commits| ==> p.lease == s.row))
    && (p.Opening? || p.Locked? ==> IsExpired(p.lease, s.now) || p.lease.leader == w)
    && (p.Locked? ==> p.locked == |s.commits|)
    && (p.Locked? <==> s.holder == Some(w))
  }

  predicate Inv(s: State) {
    && (s.commits != [] ==> var c := s.commits[|s.commits| - 1]; s.row == Lease(c.worker, c.expires))
    && (forall w | w in s.phase :: PhaseInv(s, w, s.phase[w]))
    && (s.holder.Some? ==> s.holder.value in s.phase)
  }

  lemma PhaseStep(s: State, step: Step, leaseTime: int, w: string)
    requires Inv(s) && Enabled(s, step) && w in Apply(s, step, leaseTime).phase
    ensures var t := Apply(s, step, leaseTime); PhaseInv(t, w, t.phase[w])
  {
    if w in s.phase { assert PhaseInv(s, w, s.phase[w]); }
    if !step.Tick? && step.w in s.phase { assert PhaseInv(s, step.w, s.phase[step.w]); }
  }

  lemma RowStep(s: State, step: Step, leaseTime: int)
    requires Inv(s) && Enabled(s, step)
    ensures var t := Apply(s, step, leaseTime);
            && (t.commits != [] ==> var c := t.commits[|t.commits| - 1]; t.row == Lease(c.worker, c.expires))
            && (t.holder.Some? ==> t.holder.value in t.phase)
  {
    hide PhaseInv;
  }

  lemma StepKeepsInv(s: State, step: Step, leaseTime: int)
    requires Inv(s) && Enabled(s, step)
    ensures Inv(Apply(s, step, leaseTime))
  {
    RowStep(s, step, leaseTime);
    hide PhaseInv, Apply;
    var t := Apply(s, step, leaseTime);
    forall w | w in t.phase ensures PhaseInv(t, w, t.phase[w]) { PhaseStep(s, step, leaseTime, w); }
  }

  lemma {:induction false} RunKeepsInv(s: State, steps: seq<Step>, leaseTime: int, overlap: bool)
    requires Inv(s)
    ensures Inv(Run(s, steps, leaseTime, overlap))
    decreases |steps|
  {
    if steps != [] {
      if MayStep(s, steps[0], overlap) { StepKeepsInv(s, steps[0], leaseTime); }
      RunKeepsInv(Next(s, steps[0], leaseTime, overlap), steps[1..], leaseTime, overlap);
    }
  }

  /** Saving would replace the unexpired lease of another worker. */
  predicate Steals(s: State, w: string) {
    s.row.leader != w && !IsExpired(s.row, s.now)
  }

  /** The row is not looked at again under the lock. A worker about to save
      replaces another's unexpired lease exactly when the newest commit on the
      row is such a lease and landed between the worker's read and its lock. */
  lemma StealsOnlyPastAnotherCommit(s: State, steps: seq<Step>, leaseTime: int, w: string)
    requires IsInitial(s)
    requires Run(s, steps, leaseTime, true).Phase(w).Locked?
    ensures var t := Run(s, steps, leaseTime, true);
            var p := t.Phase(w);
            && (p.read == p.locked ==> t.row == p.lease && (IsExpired(t.row, t.now) || t.row.leader == w))
            && (Steals(t, w) <==>
                && p.read < p.locked == |t.commits|
                && var c := t.commits[|t.commits| - 1];
                   c.worker != w && c.worker != "" && t.now <= c.expires)
  {
    RunKeepsInv(s, steps, leaseTime, true);
  }

  // ----- what an answer rests on

  /** The lease was on the row at some time: first of all, or by a commit. */
  predicate WasOnRow(s: State, first: Lease, lease: Lease) {
    lease == first || Commit(lease.leader, lease.expires) in s.commits
  }

  predicate OriginPhase(s: State, first: Lease, leaseTime: int, w: string, p: Phase) {
    && (!p.Idle? ==> WasOnRow(s, first, p.lease))
    && (p.Opening? || p.Missed? || p.Locked? ==> IsExpired(p.lease, s.now) || p.lease.leader == w)
    && (p.Stamped? || p.Unexpired? || p.Opening? || p.Locked? ==> p.newExpiry <= s.now + leaseTime)
  }

  predicate OriginInv(s: State, first: Lease, leaseTime: int) {
    && WasOnRow(s, first, s.row)
    && (forall w | w in s.phase :: OriginPhase(s, first, leaseTime, w, s.phase[w]))
    && (forall c | c in s.commits :: c.expires <= s.now + leaseTime)
    && (forall w | w in s.last && s.last[w].Acquired? ::
          if s.last[w].stored then WasOnRow(s, first, Lease(w, s.last[w].expires))
          else s.last[w].expires <= s.now + leaseTime)
  }

  lemma OriginPhaseStep(s: State, step: Step, first: Lease, leaseTime: int, w: string)
    requires OriginInv(s, first, leaseTime) && Enabled(s, step) && w in Apply(s, step, leaseTime).phase
    ensures var t := Apply(s, step, leaseTime); OriginPhase(t, first, leaseTime, w, t.phase[w])
  {
    if w in s.phase { assert OriginPhase(s, first, leaseTime, w, s.phase[w]); }
  }

  lemma OriginAnswerStep(s: State, step: Step, first: Lease, leaseTime: int, w: string)
    requires OriginInv(s, first, leaseTime) && Enabled(s, step)
    requires w in Apply(s, step, leaseTime).last && Apply(s, step, leaseTime).last[w].Acquired?
    ensures var t := Apply(s, step, leaseTime);
            if t.last[w].stored then WasOnRow(t, first, Lease(w, t.last[w].expires))
            else t.last[w].expires <= t.now + leaseTime
  {
    if w in s.phase { assert OriginPhase(s, first, leaseTime, w, s.phase[w]); }
  }

  lemma OriginRowStep(s: State, step: Step, first: Lease, leaseTime: int)
    requires OriginInv(s, first, leaseTime) && Enabled(s, step)
    ensures var t := Apply(s, step, leaseTime);
            && WasOnRow(t, first, t.row)
            && (forall c | c in t.commits :: c.expires <= t.now + leaseTime)
  {
    if step.Save? { assert OriginPhase(s, first, leaseTime, step.w, s.phase[step.w]); }
    hide OriginPhase;
  }

  lemma {:induction false} RunKeepsOrigin(s: State, first: Lease, steps: seq<Step>, leaseTime: int, overlap: bool)
    requires OriginInv(s, first, leaseTime)
    ensures OriginInv(Run(s, steps, leaseTime, overlap), first, leaseTime)
    decreases |steps|
  {
    if steps != [] {
      var t := Next(s, steps[0], leaseTime, overlap);
      if MayStep(s, steps[0], overlap) {
        OriginRowStep(s, steps[0], first, leaseTime);
        forall w | w in t.phase { OriginPhaseStep(s, steps[0], first, leaseTime, w); }
        forall w | w in t.last && t.last[w].Acquired? { OriginAnswerStep(s, steps[0], first, leaseTime, w); }
        hide Apply, OriginPhase, WasOnRow;
        assert OriginInv(t, first, leaseTime);
      }
      RunKeepsOrigin(t, first, steps[1..], leaseTime, overlap);
    }
  }

  /** Whatever attempts overlap or fail, a worker told that it leads was told of a
      lease of its own: one it committed, or the one that stood on the row at
      first. Only an answer whose commit failed is not on the row. */
  lemma LeadersHoldTheirOwnLease(s: State, steps: seq<Step>, leaseTime: int, overlap: bool, w: string)
    requires IsInitial(s)
    requires var t := Run(s, steps, leaseTime, overlap); w in t.last && t.last[w].Acquired?
    ensures var t := Run(s, steps, leaseTime, overlap);
            var e := t.last[w].expires;
            if t.last[w].stored then Commit(w, e) in t.commits || s.row == Lease(w, e) else e <= t.now + leaseTime
  {
    RunKeepsOrigin(s, s.row, steps, leaseTime, overlap);
  }

  /** No commit promises more than the lease time from now. */
  lemma LeasesAreShort(s: State, steps: seq<Step>, leaseTime: int, overlap: bool, c: Commit)
    requires IsInitial(s) && c in Run(s, steps, leaseTime, overlap).commits
    ensures c.expires <= Run(s, steps, leaseTime, overlap).now + leaseTime
  {
    RunKeepsOrigin(s, s.row, steps, leaseTime, overlap);
  }

  /** Who misses the lock is told that it leads exactly when the lease it read is
      its own and still lasts; on an expired lease it is refused. */
  lemma MissedLockIsAnswered(s: State, steps: seq<Step>, leaseTime: int, overlap: bool, w: string)
    requires IsInitial(s) && Run(s, steps, leaseTime, overlap).Phase(w).Missed?
    ensures var t := Run(s, steps, leaseTime, overlap);
            var lease := t.Phase(w).lease;
            var u := Next(t, CheckMissed(w), leaseTime, overlap);
            && w in u.last && u.row == t.row && u.commits == t.commits && u.holder == t.holder
            && (u.last[w].Acquired? <==> lease.leader == w && w != "" && t.now <= lease.expires)
            && (u.last[w].Acquired? ==> u.last[w] == Acquired(lease.expires, true))
  {
    RunKeepsOrigin(s, s.row, steps, leaseTime, overlap);
    RunKeepsInv(s, steps, leaseTime, overlap);
    var t := Run(s, steps, leaseTime, overlap);
    assert OriginPhase(t, s.row, leaseTime, w, t.phase[w]) && PhaseInv(t, w, t.phase[w]);
  }

  /** An error at any point of an attempt refuses the worker, frees the lock that
      it held and leaves the row alone. */
  lemma ErrorsRefuse(s: State, steps: seq<Step>, leaseTime: int, overlap: bool, w: string)
    requires IsInitial(s) && Enabled(Run(s, steps, leaseTime, overlap), Fail(w))
    ensures var t := Run(s, steps, leaseTime, overlap);
            var u := Next(t, Fail(w), leaseTime, overlap);
            && w in u.last && u.last[w].Refused? && u.Phase(w).Idle?
            && u.row == t.row && u.commits == t.commits && u.holder != Some(w)
            && (t.holder != Some(w) ==> u.holder == t.holder)
  {
    RunKeepsInv(s, steps, leaseTime, overlap);
    var t := Run(s, steps, leaseTime, overlap);
    if t.holder == Some(w) { assert PhaseInv(t, w, t.phase[w]); }
  }

  /** An attempt wins a lease that nobody has, that is over or that is its own, and
      rewrites its own only with less than 30 seconds left. */
  lemma RenewsInTheLastHalfMinute(row: Lease, w: string, now: int, leaseTime: int)
    ensures Attempt(row, w, now, leaseTime).1 <==> row.leader in {"", w} || row.expires < now
    ensures Attempt(row, w, now, leaseTime).0
            == if row.leader == "" || row.expires < now || (row.leader == w && row.expires - now < 30_000_000_000)
               then Lease(w, now + leaseTime) else row
  {
  }

  // ----- attempts that do not overlap

  /** A worker that was told it leads and has not passed the expiry it saw. */
  predicate Believes(s: State, w: string) {
    w in s.last && s.last[w].Acquired? && s.now <= s.last[w].expires
  }

  predicate AnswerInv(s: State, w: string, a: Answer) {
    a.Acquired? && a.stored ==> w != "" && (s.row == Lease(w, a.expires) || s.now > a.expires)
  }

  predicate AloneInv(s: State) {
    && Inv(s)
    && (forall v, w | v in s.phase && w in s.phase && !s.phase[v].Idle? && !s.phase[w].Idle? :: v == w)
    && (forall w | w in s.phase && !s.phase[w].Idle? :: s.phase[w].read == |s.commits| && !s.phase[w].Missed?)
    && (forall w | w in s.last :: AnswerInv(s, w, s.last[w]))
  }

  lemma StepKeepsAloneInv(s: State, step: Step, leaseTime: int)
    requires AloneInv(s) && MayStep(s, step, false)
    ensures AloneInv(Apply(s, step, leaseTime))
  {
    StepKeepsInv(s, step, leaseTime);
    AttemptStep(s, step, leaseTime);
    hide Inv, Apply, AnswerInv;
    var t := Apply(s, step, leaseTime);
    forall w | w in t.last ensures AnswerInv(t, w, t.last[w]) { AnswerStep(s, step, leaseTime, w); }
  }

  /** One attempt is under way at most, and its snapshot is current. */
  lemma AttemptStep(s: State, step: Step, leaseTime: int)
    requires AloneInv(s) && MayStep(s, step, false)
    ensures var t := Apply(s, step, leaseTime);
            && (forall v, w | v in t.phase && w in t.phase && !t.phase[v].Idle? && !t.phase[w].Idle? :: v == w)
            && (forall w | w in t.phase && !t.phase[w].Idle? :: t.phase[w].read == |t.commits| && !t.phase[w].Missed?)
  {
    hide AnswerInv;
    if s.holder.Some? { assert PhaseInv(s, s.holder.value, s.phase[s.holder.value]); }
    hide PhaseInv;
  }

  lemma AnswerStep(s: State, step: Step, leaseTime: int, w: string)
    requires AloneInv(s) && MayStep(s, step, false) && w in Apply(s, step, leaseTime).last
    ensures var t := Apply(s, step, leaseTime); AnswerInv(t, w, t.last[w])
  {
    if !step.Tick? && step.w in s.phase { assert PhaseInv(s, step.w, s.phase[step.w]); }
    hide PhaseInv;
    if w in s.last { assert AnswerInv(s, w, s.last[w]); }
  }

  lemma {:induction false} RunKeepsAloneInv(s: State, steps: seq<Step>, leaseTime: int)
    requires AloneInv(s)
    ensures AloneInv(Run(s, steps, leaseTime, false))
    decreases |steps|
  {
    if steps != [] {
      if MayStep(s, steps[0], false) { StepKeepsAloneInv(s, steps[0], leaseTime); }
      RunKeepsAloneInv(Next(s, steps[0], leaseTime, false), steps[1..], leaseTime);
    }
  }

  /** When attempts do not overlap, two workers believe they lead at the same
      time only if one of them was told so by an attempt whose commit failed. */
  lemma AtMostOneLeader(s: State, steps: seq<Step>, leaseTime: int, v: string, w: string)
    requires IsInitial(s) && v != w
    requires var t := Run(s, steps, leaseTime, false); Believes(t, v) && Believes(t, w)
    ensures var t := Run(s, steps, leaseTime, false); !t.last[v].stored || !t.last[w].stored
  {
    RunKeepsAloneInv(s, steps, leaseTime);
    var t := Run(s, steps, leaseTime, false);
    assert AnswerInv(t, v, t.last[v]) && AnswerInv(t, w, t.last[w]);
  }

  // ----- what the conditions are for

  lemma {:induction false} RunExtends(s: State, steps: seq<Step>, step: Step, leaseTime: int, overlap: bool)
    ensures Run(s, steps + [step], leaseTime, overlap)
            == Next(Run(s, steps, leaseTime, overlap), step, leaseTime, overlap)
    decreases |steps|
  {
    if steps == [] {
      assert (steps + [step])[1..] == [];
    } else {
      assert (steps + [step])[1..] == steps[1..] + [step];
      RunExtends(Next(s, steps[0], leaseTime, overlap), steps[1..], step, leaseTime, overlap);
    }
  }

  /** A run extended by one more step. */
  ghost function Then(s: State, run: (seq<Step>, State), step: Step, leaseTime: int, overlap: bool)
    : (r: (seq<Step>, State))
    requires Run(s, run.0, leaseTime, overlap) == run.1
    ensures Run(s, r.0, leaseTime, overlap) == r.1 && r.0 == run.0 + [step]
  {
    RunExtends(s, run.0, step, leaseTime, overlap);
    (run.0 + [step], Next(run.1, step, leaseTime, overlap))
  }

  /** Any two workers that both read an expired lease can overtake each other:
      the second replaces the lease the first was just granted. */
  lemma OverlapSteals(s: State, a: string, b: string, leaseTime: nat) returns (steps: seq<Step>)
    requires IsInitial(s) && IsExpired(s.row, s.now) && a != "" && b != "" && a != b
    ensures var t := Run(s, steps, leaseTime, true);
            t.Phase(b).Locked? && Steals(t, b) && Believes(t, a)
  {
    var r := BothReadOneSaves(s, a, b, leaseTime);
    hide Run;
    r := Then(s, r, Stamp(b), leaseTime, true);
    r := Then(s, r, CheckExpired(b), leaseTime, true);
    r := Then(s, r, TryLock(b), leaseTime, true);
    steps := r.0;
  }

  lemma BothReadOneSaves(s: State, a: string, b: string, leaseTime: nat) returns (r: (seq<Step>, State))
    requires IsInitial(s) && IsExpired(s.row, s.now) && a != "" && b != "" && a != b
    ensures Run(s, r.0, leaseTime, true) == r.1
    ensures r.1.row == Lease(a, s.now + leaseTime) && Believes(r.1, a) && r.1.Phase(b) == Snapshot(s.row, 0)
    ensures r.1.now == s.now && r.1.holder.None?
  {
    r := Then(s, ([], s), Read(a), leaseTime, true);
    r := Then(s, r, Read(b), leaseTime, true);
    hide Run;
    r := Then(s, r, Stamp(a), leaseTime, true);
    r := Then(s, r, CheckExpired(a), leaseTime, true);
    r := Then(s, r, TryLock(a), leaseTime, true);
    r := Then(s, r, Save(a), leaseTime, true);
  }

  // ----- attempts as single actions

  /** The same attempt when nothing happens beside it and no time passes. */
  function Attempt(row: Lease, w: string, now: int, leaseTime: int): (Lease, bool) {
    if IsExpired(row, now) || (row.leader == w && IsDue(row, now)) then (Lease(w, now + leaseTime), true)
    else (row, row.leader == w)
  }

  class LeaseTable {
    var row: Lease

    method AcquireLeaderLease(workerId: string, now: int, leaseTime: int) returns (acquired: bool, current: Lease)
      modifies this
      ensures (row, acquired) == Attempt(old(row), workerId, now, leaseTime)
      ensures current == row
    {
      var lease := row;
      var newExpiry := now + leaseTime;
      acquired := false;
      if IsExpired(lease, now) || (lease.leader == workerId && IsDue(lease, now)) {
        row := Lease(workerId, newExpiry);
        acquired := true;
      } else if lease.leader == workerId {
        acquired := true;
      }
      current := row;
    }
  }

  predicate OnlyOf(steps: seq<Step>, w: string) {
    forall i | 0 <= i < |steps| :: steps[i].Tick? || steps[i].w == w
  }

  /** Only worker `w` has moved on from `s`, to phase `p`. */
  predicate Moved(s: State, t: State, w: string, p: Phase) {
    && t.Phase(w) == p && t.row == s.row && t.now == s.now && t.commits == s.commits && t.last == s.last
    && (Alone(s, w) ==> Alone(t, w))
    && t.holder == (if p.Locked? then Some(w) else s.holder)
  }

  lemma ReachOpening(s: State, w: string, leaseTime: int) returns (steps: seq<Step>)
    requires w != "" && s.Phase(w).Idle? && Alone(s, w)
    requires IsExpired(s.row, s.now) || (s.row.leader == w && IsDue(s.row, s.now))
    ensures Moved(s, Run(s, steps, leaseTime, false), w, Opening(s.row, |s.commits|, s.now + leaseTime))
    ensures OnlyOf(steps, w)
  {
    var r := Then(s, ([], s), Read(w), leaseTime, false);
    hide Run;
    assert Moved(s, r.1, w, Snapshot(s.row, |s.commits|));
    r := Then(s, r, Stamp(w), leaseTime, false);
    assert Moved(s, r.1, w, Stamped(s.row, |s.commits|, s.now + leaseTime));
    r := Then(s, r, CheckExpired(w), leaseTime, false);
    if !IsExpired(s.row, s.now) {
      assert Moved(s, r.1, w, Unexpired(s.row, |s.commits|, s.now + leaseTime));
      r := Then(s, r, CheckDue(w), leaseTime, false);
    }
    steps := r.0;
  }

  /** Worker `w` has made the attempt as a single action; nothing else changed. */
  predicate Attempted(s: State, t: State, w: string, leaseTime: int) {
    && w in t.last && (t.row, t.last[w].Acquired?) == Attempt(s.row, w, s.now, leaseTime)
    && (t.last[w].Acquired? ==> t.last[w] == Acquired(t.row.expires, true))
    && t.last - {w} == s.last - {w}
    && t.now == s.now && t.holder.None? && t.Phase(w).Idle? && Alone(t, w)
  }

  lemma SavingAttempt(s: State, w: string, leaseTime: int) returns (steps: seq<Step>)
    requires w != "" && s.holder.None? && s.Phase(w).Idle? && Alone(s, w)
    requires IsExpired(s.row, s.now) || (s.row.leader == w && IsDue(s.row, s.now))
    ensures Attempted(s, Run(s, steps, leaseTime, false), w, leaseTime) && OnlyOf(steps, w)
  {
    steps := ReachOpening(s, w, leaseTime);
    hide Run;
    var r := (steps, Run(s, steps, leaseTime, false));
    r := Then(s, r, TryLock(w), leaseTime, false);
    assert Moved(s, r.1, w, Locked(s.row, |s.commits|, s.now + leaseTime, |s.commits|));
    r := Then(s, r, Save(w), leaseTime, false);
    steps := r.0;
  }

  lemma IdleAttempt(s: State, w: string, leaseTime: int) returns (steps: seq<Step>)
    requires w != "" && s.holder.None? && s.Phase(w).Idle? && Alone(s, w)
    requires !IsExpired(s.row, s.now) && !(s.row.leader == w && IsDue(s.row, s.now))
    ensures Attempted(s, Run(s, steps, leaseTime, false), w, leaseTime) && OnlyOf(steps, w)
  {
    var r := Then(s, ([], s), Read(w), leaseTime, false);
    hide Run;
    assert Moved(s, r.1, w, Snapshot(s.row, |s.commits|));
    r := Then(s, r, Stamp(w), leaseTime, false);
    assert Moved(s, r.1, w, Stamped(s.row, |s.commits|, s.now + leaseTime));
    r := Then(s, r, CheckExpired(w), leaseTime, false);
    assert Moved(s, r.1, w, Unexpired(s.row, |s.commits|, s.now + leaseTime));
    r := Then(s, r, CheckDue(w), leaseTime, false);
    steps := r.0;
  }

  /** An undisturbed attempt of the step protocol is the single action. */
  lemma UndisturbedAttempt(s: State, w: string, leaseTime: int) returns (steps: seq<Step>)
    requires w != "" && s.holder.None? && s.Phase(w).Idle? && Alone(s, w)
    ensures Attempted(s, Run(s, steps, leaseTime, false), w, leaseTime) && OnlyOf(steps, w)
  {
    if IsExpired(s.row, s.now) || (s.row.leader == w && IsDue(s.row, s.now)) {
      steps := SavingAttempt(s, w, leaseTime);
    } else {
      steps := IdleAttempt(s, w, leaseTime);
    }
  }

  lemma {:induction false} RunAppends(s: State, a: seq<Step>, b: seq<Step>, leaseTime: int, overlap: bool)
    ensures Run(s, a + b, leaseTime, overlap) == Run(Run(s, a, leaseTime, overlap), b, leaseTime, overlap)
    decreases |a|
  {
    if a == [] {
      assert a + b == b;
    } else {
      assert (a + b)[1..] == a[1..] + b;
      RunAppends(Next(s, a[0], leaseTime, overlap), a[1..], b, leaseTime, overlap);
    }
  }

  /** A failed commit goes unnoticed: without any overlap a second worker then
      leads next to the first. */
  lemma LostCommitMakesTwoLeaders(s: State, a: string, b: string, leaseTime: nat) returns (steps: seq<Step>)
    requires IsInitial(s) && IsExpired(s.row, s.now) && a != "" && b != "" && a != b
    ensures var t := Run(s, steps, leaseTime, false); Believes(t, a) && Believes(t, b)
  {
    var opening := ReachOpening(s, a, leaseTime);
    hide Run;
    var r := (opening, Run(s, opening, leaseTime, false));
    r := Then(s, r, TryLock(a), leaseTime, false);
    assert Moved(s, r.1, a, Locked(s.row, 0, s.now + leaseTime, 0));
    r := Then(s, r, SaveFails(a), leaseTime, false);
    var second := UndisturbedAttempt(r.1, b, leaseTime);
    assert a in r.1.last - {b};
    RunAppends(s, r.0, second, leaseTime, false);
    steps := r.0 + second;
  }

  // ----- when a second worker can come to believe

  /** No attempt is under way. */
  predicate Resting(s: State) { s.holder.None? && forall w | w in s.phase :: s.phase[w].Idle? }

  predicate StepsOf(steps: seq<Step>, w: string) {
    exists i | 0 <= i < |steps| :: !steps[i].Tick? && steps[i].w == w
  }

  /** The row backs what `v` was told: it is `v`'s and lasts at least as long. */
  predicate Backed(s: State, v: string) {
    v in s.last && s.last[v].Acquired? && s.row.leader == v && s.row.expires >= s.last[v].expires
  }

  /** While `v` believes, the row backs it and no other worker has got further
      than finding the row taken. */
  predicate Guarded(s: State, v: string, row: Lease, a: Answer) {
    && v in s.last && s.last[v] == a && a.Acquired?
    && (s.now <= a.expires ==>
          && s.row == row && s.holder.None?
          && (forall w | w in s.phase ::
                var p := s.phase[w];
                p.Idle? || (w != v && (p.Snapshot? || p.Stamped? || p.Unexpired?) && p.lease == row))
          && (forall w | w in s.last && w != v :: s.last[w].Acquired? ==> s.now > s.last[w].expires))
  }

  lemma StepKeepsGuard(s: State, step: Step, leaseTime: int, v: string, row: Lease, a: Answer)
    requires Guarded(s, v, row, a) && v != "" && row.leader == v && row.expires >= a.expires
    requires Enabled(s, step) && (step.Tick? || step.w != v)
    ensures Guarded(Apply(s, step, leaseTime), v, row, a)
  {
  }

  lemma {:induction false} RunKeepsGuard(s: State, steps: seq<Step>, leaseTime: int, overlap: bool,
                                         v: string, row: Lease, a: Answer)
    requires Guarded(s, v, row, a) && v != "" && row.leader == v && row.expires >= a.expires && !StepsOf(steps, v)
    ensures Guarded(Run(s, steps, leaseTime, overlap), v, row, a)
    decreases |steps|
  {
    if steps != [] {
      hide Guarded;
      if MayStep(s, steps[0], overlap) { StepKeepsGuard(s, steps[0], leaseTime, v, row, a); }
      assert forall i | 0 <= i < |steps[1..]| :: steps[1..][i] == steps[i + 1];
      RunKeepsGuard(Next(s, steps[0], leaseTime, overlap), steps[1..], leaseTime, overlap, v, row, a);
    }
  }

  /** Beside a belief that the row backs, no other worker comes to believe, in
      whatever order, overlapping or failing, the others attempt. */
  lemma BackedBeliefStandsAlone(s: State, steps: seq<Step>, leaseTime: int, overlap: bool, v: string, w: string)
    requires Resting(s) && v != "" && Believes(s, v) && Backed(s, v) && !StepsOf(steps, v)
    requires w != v && forall x | x != v :: !Believes(s, x)
    ensures var t := Run(s, steps, leaseTime, overlap); !(Believes(t, v) && Believes(t, w))
  {
    assert forall x | x in s.last && x != v :: !Believes(s, x);
    RunKeepsGuard(s, steps, leaseTime, overlap, v, s.row, s.last[v]);
  }

  /** In runs without overlap, only a belief from a failed commit lacks backing. */
  lemma StoredBeliefIsBacked(s: State, steps: seq<Step>, leaseTime: int, v: string)
    requires IsInitial(s)
    requires var t := Run(s, steps, leaseTime, false); Believes(t, v) && t.last[v].stored
    ensures Backed(Run(s, steps, leaseTime, false), v)
  {
    RunKeepsAloneInv(s, steps, leaseTime);
    var t := Run(s, steps, leaseTime, false);
    assert AnswerInv(t, v, t.last[v]);
  }

  lemma TickOnly(s: State, d: nat, leaseTime: int)
    ensures Run(s, [Tick(d)], leaseTime, false) == s.(now := s.now + d)
  {
    assert [Tick(d)][1..] == [];
  }

  /** A row that is empty, `w`'s own, or over before `v`'s belief lets `w` come to
      believe beside `v`: time passes until the row is over, and `w` attempts. */
  lemma UnbackedBeliefIsShared(s: State, leaseTime: nat, v: string, w: string) returns (steps: seq<Step>)
    requires Resting(s) && Believes(s, v) && w != v && w != ""
    requires s.row.leader == "" || s.row.leader == w || s.row.expires < s.last[v].expires
    ensures var t := Run(s, steps, leaseTime, false); Believes(t, v) && Believes(t, w)
    ensures OnlyOf(steps, w)
  {
    var d := if s.row.leader == "" || s.row.leader == w || s.now > s.row.expires then 0 else s.row.expires + 1 - s.now;
    TickOnly(s, d, leaseTime);
    hide Run;
    var t := s.(now := s.now + d);
    var attempt := UndisturbedAttempt(t, w, leaseTime);
    steps := [Tick(d)] + attempt;
    RunAppends(s, [Tick(d)], attempt, leaseTime, false);
    assert v in t.last - {w};
  }

  /** A schedule without overlap and without a step of `v` makes `w` believe beside `v`. */
  ghost predicate CanShare(s: State, leaseTime: int, v: string, w: string, steps: seq<Step>) {
    && w != v && w != "" && !StepsOf(steps, v)
    && var t := Run(s, steps, leaseTime, false); Believes(t, v) && Believes(t, w)
  }

  /** Beside a believing `v`, some other worker can come to believe if and only if
      the row is not `v`'s or is over before `v`'s belief. */
  lemma BeliefIsSharedExactly(s: State, leaseTime: nat, v: string)
    requires Resting(s) && v != "" && Believes(s, v) && forall x | x != v :: !Believes(s, x)
    ensures (exists w, steps :: CanShare(s, leaseTime, v, w, steps)) <==> !Backed(s, v)
  {
    if Backed(s, v) {
      forall w, steps ensures !CanShare(s, leaseTime, v, w, steps) {
        if w != v && !StepsOf(steps, v) { BackedBeliefStandsAlone(s, steps, leaseTime, false, v, w); }
      }
    } else {
      var w := if s.row.leader != "" && s.row.leader != v then s.row.leader else v + "'";
      assert |v + "'"| == |v| + 1;
      var steps := UnbackedBeliefIsShared(s, leaseTime, v, w);
      assert CanShare(s, leaseTime, v, w, steps);
    }
  }

  // ----- keeping the lease

  /** Worker `w` attempts at time `t`; an attempt that fails changes nothing. */
  datatype Event = Event(t: int, w: string, ok: bool)

  function Elect(row: Lease, e: Event, leaseTime: int): (Lease, bool) {
    if e.ok then Attempt(row, e.w, e.t, leaseTime) else (row, false)
  }

  /** Times do not go back, and no event is more than `gap` after the last
      successful attempt of the leader. */
  predicate Covered(events: seq<Event>, leader: string, since: int, gap: int)
    decreases |events|
  {
    events == []
    || var e := events[0];
       && since <= e.t <= since + gap
       && (forall i | 0 <= i < |events| :: e.t <= events[i].t)
       && Covered(events[1..], leader, if e.ok && e.w == leader then e.t else since, gap)
  }

  /** The answers along a schedule, and the row at its end. */
  function Answers(row: Lease, events: seq<Event>, leaseTime: int): (seq<bool>, Lease)
    decreases |events|
  {
    if events == [] then ([], row)
    else
      var (row1, a) := Elect(row, events[0], leaseTime);
      var (rest, last) := Answers(row1, events[1..], leaseTime);
      ([a] + rest, last)
  }

  function Min(a: int, b: int): int { if a < b then a else b }

  /** A leader whose successful attempts are never more than the renewal window
      or the lease time apart stays leader for the whole schedule: it is always
      confirmed, and everyone else is always refused. */
  lemma {:induction false} LeaderIsNeverReplaced(row: Lease, leader: string, since: int,
                                                 events: seq<Event>, leaseTime: int, gap: int)
    requires leader != "" && row.leader == leader && row.expires >= since + Min(RENEW_WINDOW, leaseTime)
    requires 0 <= gap <= Min(RENEW_WINDOW, leaseTime) && Covered(events, leader, since, gap)
    ensures var (answers, last) := Answers(row, events, leaseTime);
            && last.leader == leader && |answers| == |events|
            && (forall i | 0 <= i < |events| :: answers[i] == (events[i].ok && events[i].w == leader))
            && (events != [] ==> !IsExpired(last, events[|events| - 1].t))
    decreases |events|
  {
    if events != [] {
      var e := events[0];
      var (row1, a) := Elect(row, e, leaseTime);
      var since1 := if e.ok && e.w == leader then e.t else since;
      LeaderIsNeverReplaced(row1, leader, since1, events[1..], leaseTime, gap);
    }
  }

  /** The bound is tight: with any larger gap some covered schedule hands the
      lease to another worker. */
  lemma LargerGapLosesTheLease(leader: string, other: string, leaseTime: int, gap: int)
    returns (row: Lease, events: seq<Event>)
    requires leader != "" && other != "" && leader != other && leaseTime >= 0
    requires gap > Min(RENEW_WINDOW, leaseTime)
    ensures row.leader == leader && row.expires >= Min(RENEW_WINDOW, leaseTime)
    ensures Covered(events, leader, 0, gap) && Answers(row, events, leaseTime).1.leader == other
  {
    row, events := Lease(leader, Min(RENEW_WINDOW, leaseTime)), [Event(gap, other, true)];
    assert events[1..] == [];
  }

  /** The default 15s interval and 1min lease are within the bound. */
  lemma DefaultsKeepTheLeader(row: Lease, leader: string, since: int, events: seq<Event>)
    requires leader != "" && row.leader == leader && row.expires >= since + 30 * SECOND
    requires Covered(events, leader, since, 15 * SECOND)
    ensures var (answers, last) := Answers(row, events, 60 * SECOND);
            && last.leader == leader && |answers| == |events|
            && (forall i | 0 <= i < |events| :: answers[i] == (events[i].ok && events[i].w == leader))
            && (events != [] ==> !IsExpired(last, events[|events| - 1].t))
  {
    LeaderIsNeverReplaced(row, leader, since, events, 60 * SECOND, 15 * SECOND);
  }
}
