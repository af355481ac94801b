/** The manager of the workers: on every tick it starts, stops and drops
    workers and keeps a wait group in step with the running ones. */
module LeaderElectionManager {
  import opened Options
  import Reconciler

  datatype Channel = Nil | Open | Closed

  predicate IsLive(s: Reconciler.State) { !s.loop.Exited? }

  ghost predicate Reached(s: Reconciler.State, t: Reconciler.State) { exists steps :: t == Reconciler.Run(s, steps) }

  lemma Reaching(s: Reconciler.State, steps: seq<Reconciler.Step>, t: Reconciler.State)
    requires t == Reconciler.Run(s, steps)
    ensures Reached(s, t)
  {
  }

  /** The steps without the closing of the stop channel. */
  function WhileOpen(steps: seq<Reconciler.Step>): seq<Reconciler.Step> {
    if steps == [] then []
    else (if steps[0].CloseStopChannel? then [] else [steps[0]]) + WhileOpen(steps[1..])
  }

  /** While the stop channel is open the loop does not end. */
  lemma {:induction false} StaysLive(s: Reconciler.State, steps: seq<Reconciler.Step>)
    requires IsLive(s) && !s.stopping
    ensures var t := Reconciler.Run(s, WhileOpen(steps)); IsLive(t) && !t.stopping
    decreases |steps|
  {
    if steps != [] {
      if steps[0].CloseStopChannel? {
        StaysLive(s, steps[1..]);
        assert WhileOpen(steps) == WhileOpen(steps[1..]);
      } else {
        StaysLive(Reconciler.Next(s, steps[0]), steps[1..]);
        assert WhileOpen(steps)[1..] == WhileOpen(steps[1..]);
      }
    }
  }

  /** The steps left to a loop that finishes what it is doing and then ends. */
  function Ending(s: Reconciler.State): seq<Reconciler.Step> {
    match s.loop
    case Starting => [Reconciler.Begin, Reconciler.Finish, Reconciler.Exit]
    case Selecting => [Reconciler.Exit]
    case Reconciling(_) => [Reconciler.Finish, Reconciler.Exit]
    case Exited => []
  }

  /** Once the channel is closed, the loop can end after any steps. */
  lemma RunEnds(s: Reconciler.State, steps: seq<Reconciler.Step>)
    requires s.stopping
    ensures var all := steps + Ending(Reconciler.Run(s, steps)); !IsLive(Reconciler.Run(s, all))
  {
    var t := Reconciler.Run(s, steps);
    Reconciler.StoppingStays(s, steps);
    Reconciler.RunAppends(s, steps, Ending(t));
    EndingEnds(t);
  }

  lemma EndingEnds(t: Reconciler.State)
    requires t.stopping
    ensures !IsLive(Reconciler.Run(t, Ending(t)))
  {
    var b, f, x := Reconciler.Begin, Reconciler.Finish, Reconciler.Exit;
    assert [b, f, x][1..] == [f, x] && [f, x][1..] == [x] && [x][1..] == [];
    var t1 := if t.loop.Starting? then Reconciler.Next(t, b) else t;
    var t2 := if t1.loop.Reconciling? then Reconciler.Next(t1, f) else t1;
    assert t2.stopping && (t2.loop.Selecting? || t2.loop.Exited?);
    assert Reconciler.Run(t2, [x]) == Reconciler.Next(t2, x);
    if !t.loop.Exited? && !t.loop.Selecting? { assert Reconciler.Run(t1, [f, x]) == Reconciler.Run(t2, [x]); }
  }

  /** A worker. `syncTeardown` is the wait group that its reconcile loop leaves
      when it ends, and `loop` is the state of the loop last started, which runs
      beside everything the manager does. */
  class Worker {
    var isRunning: bool
    var imStop: Channel
    var syncTeardown: nat
    var loop: Option<Reconciler.State>

    /** Running with one live loop behind an open stop channel, or at rest. */
    ghost predicate Valid()
      reads this
    {
      && (loop.Some? ==> Reconciler.Inv(loop.value))
      && if isRunning
         then imStop == Open && loop.Some? && IsLive(loop.value) && !loop.value.stopping && syncTeardown == 1
         else imStop != Open && (loop.Some? ==> !IsLive(loop.value)) && syncTeardown == 0
    }

    /** No loop is alive, every reconcile begun has been completed, and whatever
        steps are still taken, by late callers say, none begins. */
    ghost predicate Quiet()
      reads this
    {
      loop.Some? ==>
        && !IsLive(loop.value) && loop.value.done == loop.value.begun
        && forall steps :: Reconciler.Run(loop.value, steps).begun == loop.value.begun
    }

    constructor ()
      ensures Valid() && !isRunning && imStop == Nil && loop == None
    {
      isRunning, imStop, syncTeardown, loop := false, Nil, 0, None;
    }

    method Start()
      requires Valid() && !isRunning
      modifies this
      ensures Valid() && isRunning && loop == Some(Reconciler.STARTED)
    {
      imStop := Open;
      syncTeardown := syncTeardown + 1;
      isRunning := true;
      loop := Some(Reconciler.STARTED);
    }

    lemma RestIsQuiet()
      requires Valid() && !isRunning
      ensures Quiet()
    {
      if loop.Some? {
        forall steps ensures Reconciler.Run(loop.value, steps).begun == loop.value.begun {
          Reconciler.ExitIsFinal(loop.value, steps);
        }
      }
    }

    /** Waits for the wait group: the loop and its callers take any steps, until
        the loop has ended and has left the group. */
    method WaitForLoop()
      requires loop.Some? && Reconciler.Inv(loop.value) && loop.value.stopping
      requires syncTeardown == if IsLive(loop.value) then 1 else 0
      modifies `loop, `syncTeardown
      ensures loop.Some? && Reconciler.Inv(loop.value) && !IsLive(loop.value) && syncTeardown == 0
      ensures Reached(old(loop.value), loop.value)
    {
      var steps: seq<Reconciler.Step> := *;
      RunEnds(loop.value, steps);
      steps := steps + Ending(Reconciler.Run(loop.value, steps));
      var i := 0;
      assert steps[..0] == [] && steps[..|steps|] == steps;
      while syncTeardown > 0
        invariant 0 <= i <= |steps| && loop.Some? && loop.value == Reconciler.Run(old(loop.value), steps[..i])
        invariant Reconciler.Inv(loop.value) && syncTeardown == if IsLive(loop.value) then 1 else 0
        decreases |steps| - i
      {
        Reconciler.StepKeepsInv(loop.value, steps[i]);
        Reconciler.RunExtends(old(loop.value), steps[..i], steps[i]);
        assert steps[..i + 1] == steps[..i] + [steps[i]];
        loop := Some(Reconciler.Next(loop.value, steps[i]));
        i := i + 1;
        if !IsLive(loop.value) {
          syncTeardown := syncTeardown - 1; // the deferred Done of the loop
        }
      }
      Reaching(old(loop.value), steps[..i], loop.value);
    }

    /** Closing a nil channel would panic; a closed one is left alone. Whatever
        the loop has been doing, when Stop returns it has ended. */
    method Stop()
      requires Valid() && imStop != Nil
      modifies this
      ensures Valid() && !isRunning && imStop == Closed && Quiet()
    {
      if imStop == Open {
        var before: seq<Reconciler.Step> := *;
        Reconciler.RunKeepsInv(loop.value, WhileOpen(before));
        StaysLive(loop.value, before);
        loop := Some(Reconciler.Run(loop.value, WhileOpen(before)));
        Reconciler.StepKeepsInv(loop.value, Reconciler.CloseStopChannel);
        loop := Some(Reconciler.Next(loop.value, Reconciler.CloseStopChannel));
        imStop := Closed;
        WaitForLoop();
      }
      isRunning := false;
      RestIsQuiet();
    }
  }

  predicate Distinct<T(==)>(ws: seq<T>) { forall i, j | 0 <= i < j < |ws| :: ws[i] != ws[j] }

  ghost function RunningOf(ws: set<Worker>): set<Worker>
    reads ws
  {
    set w | w in ws && w.isRunning
  }

  /** `ws` without the members of `gone`, in the same order. */
  function Without<T(==)>(ws: seq<T>, gone: set<T>): seq<T> {
    if ws == [] then []
    else
      var n := |ws| - 1;
      Without(ws[..n], gone) + if ws[n] in gone then [] else [ws[n]]
  }

  lemma {:induction false} WithoutKeeps<T>(ws: seq<T>, gone: set<T>)
    ensures var r := Without(ws, gone);
            && (forall w | w in r :: w in ws && w !in gone) && (forall w | w in ws && w !in gone :: w in r)
            && |r| <= |ws| && (|r| == |ws| ==> r == ws)
  {
    if ws != [] {
      var n := |ws| - 1;
      WithoutKeeps(ws[..n], gone);
      assert ws == ws[..n] + [ws[n]];
    }
  }

  lemma {:induction false} WithoutIsDistinct<T>(ws: seq<T>, gone: set<T>)
    requires Distinct(ws)
    ensures Distinct(Without(ws, gone))
  {
    if ws != [] {
      var n := |ws| - 1;
      WithoutIsDistinct(ws[..n], gone);
      WithoutKeeps(ws[..n], gone);
      assert ws[n] !in ws[..n];
    }
  }

  /** What a tick finds: the workers that have terminated, and those for which
      this process holds the leader lease. */
  datatype Tick = Tick(terminated: set<Worker>, leaders: set<Worker>)

  /** The workers that none of the ticks has found terminated. */
  function Survivors(ws: seq<Worker>, ticks: seq<Tick>): seq<Worker> {
    if ticks == [] then ws
    else Without(Survivors(ws, ticks[..|ticks| - 1]), ticks[|ticks| - 1].terminated)
  }

  lemma {:induction false} SurvivorsAre(ws: seq<Worker>, ticks: seq<Tick>, w: Worker)
    ensures w in Survivors(ws, ticks) <==> w in ws && forall i | 0 <= i < |ticks| :: w !in ticks[i].terminated
    decreases |ticks|
  {
    if ticks != [] {
      var before := ticks[..|ticks| - 1];
      SurvivorsAre(ws, before, w);
      WithoutKeeps(Survivors(ws, before), ticks[|ticks| - 1].terminated);
      assert forall i | 0 <= i < |before| :: before[i] == ticks[i];
    }
  }

  predicate Leads(tick: Tick, w: Worker) { w !in tick.terminated && w in tick.leaders }

  /** The running workers after a tick has visited `ws` in turn. */
  function Followed(running: set<Worker>, ws: seq<Worker>, tick: Tick): set<Worker> {
    if ws == [] then running
    else
      var n := |ws| - 1;
      var before := Followed(running, ws[..n], tick);
      if Leads(tick, ws[n]) then before + {ws[n]} else before - {ws[n]}
  }

  lemma NothingYet(running: set<Worker>, tick: Tick)
    ensures Followed(running, [], tick) == running && Without([], tick.terminated) == []
  {
  }

  lemma OneMore(running: set<Worker>, ws: seq<Worker>, tick: Tick, i: nat)
    requires i < |ws|
    ensures Without(ws[..i + 1], tick.terminated)
            == Without(ws[..i], tick.terminated) + if ws[i] in tick.terminated then [] else [ws[i]]
    ensures Followed(running, ws[..i + 1], tick)
            == var before := Followed(running, ws[..i], tick);
               if Leads(tick, ws[i]) then before + {ws[i]} else before - {ws[i]}
  {
    assert ws[..i + 1][..i] == ws[..i];
  }

  lemma {:induction false} FollowedIs(running: set<Worker>, ws: seq<Worker>, tick: Tick)
    ensures Followed(running, ws, tick)
            == (set w | w in running && w !in ws) + (set w | w in ws && Leads(tick, w))
  {
    if ws != [] {
      FollowedIs(running, ws[..|ws| - 1], tick);
      assert ws == ws[..|ws| - 1] + [ws[|ws| - 1]];
    }
  }

  /** A tick leaves running exactly the kept workers that lead. */
  lemma TickResult(running: set<Worker>, ws: seq<Worker>, tick: Tick)
    requires forall w | w in running :: w in ws
    ensures var kept := Without(ws, tick.terminated);
            && Followed(running, ws, tick) == (set w | w in kept && w in tick.leaders)
            && (forall w | w in Followed(running, ws, tick) :: w in kept) && (forall w | w in kept :: w in ws)
            && (|kept| == |ws| ==> kept == ws) && (Distinct(ws) ==> Distinct(kept))
  {
    FollowedIs(running, ws, tick);
    WithoutKeeps(ws, tick.terminated);
    if Distinct(ws) { WithoutIsDistinct(ws, tick.terminated); }
  }

  class Manager {
    var workers: seq<Worker>
    var workerGrp: nat
    /** Every worker the manager was made with. */
    ghost const all: set<Worker>

    /** The wait group counts the running workers, and none of the workers that
        were dropped is running. */
    ghost predicate Valid()
      reads this, all
    {
      && Distinct(workers) && (forall w | w in workers :: w in all)
      && (forall w | w in all :: w.Valid() && (w.isRunning ==> w in workers))
      && workerGrp == |RunningOf(all)|
    }

    constructor (workers: seq<Worker>)
      requires Distinct(workers) && forall w | w in workers :: w.Valid() && !w.isRunning
      ensures Valid() && this.workers == workers && all == (set w | w in workers) && workerGrp == 0
    {
      this.workers, this.workerGrp, this.all := workers, 0, set w | w in workers;
      new;
      assert RunningOf(all) == {};
    }

    method StopWorker(w: Worker)
      requires Valid() && w in workers && w.isRunning
      modifies this`workerGrp, w
      ensures Valid() && !w.isRunning
      ensures RunningOf(all) == old(RunningOf(all)) - {w}
    {
      assert w in RunningOf(all);
      w.Stop();
      assert RunningOf(all) == old(RunningOf(all)) - {w};
      workerGrp := workerGrp - 1;
    }

    method StartWorker(w: Worker)
      requires Valid() && w in workers && !w.isRunning
      modifies this`workerGrp, w
      ensures Valid() && w.isRunning
      ensures RunningOf(all) == old(RunningOf(all)) + {w}
    {
      w.Start();
      assert RunningOf(all) == old(RunningOf(all)) + {w};
      workerGrp := workerGrp + 1;
    }

    /** One worker's turn in a tick: it runs afterwards exactly if `lead` holds. */
    method Follow(worker: Worker, lead: bool)
      requires Valid() && worker in workers
      modifies this`workerGrp, worker
      ensures Valid()
      ensures RunningOf(all) == if lead then old(RunningOf(all)) + {worker} else old(RunningOf(all)) - {worker}
    {
      if lead && !worker.isRunning {
        StartWorker(worker);
      } else if !lead && worker.isRunning {
        StopWorker(worker);
      }
    }

    /** The loop of a tick; the workers that have not terminated are returned. */
    method Sweep(tick: Tick) returns (newWorkers: seq<Worker>)
      requires Valid()
      modifies this`workerGrp, all
      ensures Valid() && newWorkers == Without(workers, tick.terminated)
      ensures RunningOf(all) == Followed(old(RunningOf(all)), workers, tick)
    {
      assert forall w | w in workers :: w in all;
      hide Valid, Without, RunningOf, Followed;
      NothingYet(RunningOf(all), tick);
      newWorkers := [];
      for i := 0 to |workers|
        invariant Valid() && workers == old(workers)
        invariant newWorkers == Without(workers[..i], tick.terminated)
        invariant RunningOf(all) == Followed(old(RunningOf(all)), workers[..i], tick)
      {
        var worker := workers[i];
        OneMore(old(RunningOf(all)), workers, tick, i);
        if worker in tick.terminated {
          Follow(worker, false);
        } else {
          newWorkers := newWorkers + [worker];
          Follow(worker, worker in tick.leaders);
        }
      }
      assert workers[..|workers|] == workers;
    }

    /** One tick: afterwards exactly the leaders among the workers that have not
        terminated are running, and only those workers are kept. */
    method StartWorkers(tick: Tick)
      requires Valid()
      modifies this`workers, this`workerGrp, all
      ensures Valid() && workers == Without(old(workers), tick.terminated)
      ensures RunningOf(all) == (set w | w in workers && w in tick.leaders)
    {
      ghost var before := RunningOf(all);
      assert forall w | w in before :: w in workers;
      var newWorkers := Sweep(tick);
      TickResult(before, workers, tick);
      hide *;
      if |newWorkers| != |workers| {
        Keep(newWorkers);
      }
    }

    method Keep(newWorkers: seq<Worker>)
      requires Valid() && (Distinct(workers) ==> Distinct(newWorkers))
      requires (forall w | w in newWorkers :: w in workers) && forall w | w in RunningOf(all) :: w in newWorkers
      modifies this`workers
      ensures Valid() && workers == newWorkers
    {
      forall w | w in all && w.isRunning ensures w in newWorkers { assert w in RunningOf(all); }
      workers := newWorkers;
    }

    method TearDown()
      requires Valid()
      modifies this`workerGrp, all
      ensures Valid() && workers == old(workers) && workerGrp == 0
      ensures forall w | w in all :: !w.isRunning && w.Quiet()
    {
      for i := 0 to |workers|
        invariant Valid() && workers == old(workers)
        invariant forall j | 0 <= j < i :: !workers[j].isRunning
      {
        if workers[i].isRunning {
          StopWorker(workers[i]);
        }
      }
      assert RunningOf(all) == {};
      forall w | w in all ensures !w.isRunning && w.Quiet() {
        assert w !in RunningOf(all);
        w.RestIsQuiet();
      }
    }

    /** The manager's goroutine over its whole life, for any number of ticks; `ran`
        holds the workers running after each tick. */
    method RunUntilStopped(ticks: seq<Tick>) returns (ghost ran: seq<set<Worker>>)
      requires Valid()
      modifies this`workers, this`workerGrp, all
      ensures Valid() && workerGrp == 0 && workers == Survivors(old(workers), ticks)
      ensures |ran| == |ticks| && forall i | 0 <= i < |ticks| ::
                ran[i] == set w | w in Survivors(old(workers), ticks[..i + 1]) && w in ticks[i].leaders
      ensures forall w | w in all :: !w.isRunning && w.Quiet()
    {
      hide Without;
      ran := [];
      for i := 0 to |ticks|
        invariant Valid() && workers == Survivors(old(workers), ticks[..i])
        invariant |ran| == i && forall j | 0 <= j < i ::
                    ran[j] == set w | w in Survivors(old(workers), ticks[..j + 1]) && w in ticks[j].leaders
      {
        assert ticks[..i + 1] == ticks[..i] + [ticks[i]];
        StartWorkers(ticks[i]);
        ran := ran + [RunningOf(all)];
      }
      assert ticks[..|ticks|] == ticks;
      TearDown();
    }
  }
}
