/** The reconcile loop of one started worker, and the callers that wake it:
    a channel of capacity one, calls that wait for their reconcile, calls that
    do not, and the stop of the loop, in any interleaving. */
module Reconciler {
  import opened Options

  /** A message wakes the loop; it may carry the call that waits for it. */
  datatype Message = Plain | For(call: nat)

  datatype Loop = Starting | Selecting | Reconciling(serving: Option<nat>) | Exited

  /** A waiting call. `before` counts the reconciles begun when it was made, and
      `served` numbers the reconcile that served it. */
  datatype Call =
    | Sending(before: nat)
    | Queued(before: nat)
    | Serving(before: nat, served: nat)
    | Released(before: nat, served: nat)
    | Returned(before: nat, served: nat)

  /** `posted` holds, per call that does not wait, the reconciles begun before it. */
  datatype State = State(channel: Option<Message>, loop: Loop, begun: nat, done: nat,
                         calls: map<nat, Call>, posted: seq<nat>, stopping: bool, stopReturned: bool)

  datatype Step =
    | CallAndWait(c: nat)
    | Deliver(c: nat)
    | CallAndGo
    | Begin
    | Receive
    | Elapse
    | Finish
    | Return(c: nat)
    | CloseStopChannel
    | Exit
    | StopReturns

  const STARTED := State(None, Starting, 0, 0, map[], [], false, false)

  function BeginReconcile(s: State, serving: Option<nat>): State {
    s.(begun := s.begun + 1, loop := Reconciling(serving))
  }

  /** The timer and the signal bus both begin a reconcile, as Elapse. */
  function Next(s: State, step: Step): State {
    match step
    case CallAndWait(c) => if c in s.calls then s else s.(calls := s.calls[c := Sending(s.begun)])
    case Deliver(c) =>
      if c !in s.calls || !s.calls[c].Sending? || s.channel.Some? then s
      else s.(channel := Some(For(c)), calls := s.calls[c := Queued(s.calls[c].before)])
    case CallAndGo =>
      // a message that finds the channel full is dropped
      s.(channel := if s.channel.None? then Some(Plain) else s.channel, posted := s.posted + [s.begun])
    case Begin => if s.loop.Starting? then BeginReconcile(s, None) else s
    case Receive =>
      if !s.loop.Selecting? || s.channel.None? then s
      else
        var t := s.(channel := None);
        if s.channel.value.Plain? || s.channel.value.call !in s.calls then BeginReconcile(t, None)
        else
          var c := s.channel.value.call;
          BeginReconcile(t.(calls := s.calls[c := Serving(s.calls[c].before, s.begun + 1)]), Some(c))
    case Elapse => if s.loop.Selecting? then BeginReconcile(s, None) else s
    case Finish =>
      if !s.loop.Reconciling? then s
      else
        var t := s.(done := s.done + 1, loop := Selecting);
        if s.loop.serving.None? || s.loop.serving.value !in s.calls || !s.calls[s.loop.serving.value].Serving? then t
        else
          var c := s.loop.serving.value;
          t.(calls := s.calls[c := Released(s.calls[c].before, s.calls[c].served)])
    case Return(c) =>
      if c in s.calls && s.calls[c].Released?
      then s.(calls := s.calls[c := Returned(s.calls[c].before, s.calls[c].served)])
      else s
    case CloseStopChannel => s.(stopping := true)
    case Exit => if s.loop.Selecting? && s.stopping then s.(loop := Exited) else s
    case StopReturns => if s.stopping && s.loop.Exited? then s.(stopReturned := true) else s
  }

  function Run(s: State, steps: seq<Step>): State
    decreases |steps|
  {
    if steps == [] then s else Run(Next(s, steps[0]), steps[1..])
  }

  lemma {:induction false} RunAppends(s: State, a: seq<Step>, b: seq<Step>)
    ensures Run(s, a + b) == Run(Run(s, a), b)
    decreases |a|
  {
    if a == [] {
      assert a + b == b;
    } else {
      assert (a + b)[1..] == a[1..] + b;
      RunAppends(Next(s, a[0]), a[1..], b);
    }
  }

  lemma RunExtends(s: State, steps: seq<Step>, step: Step)
    ensures Run(s, steps + [step]) == Next(Run(s, steps), step)
  {
    RunAppends(s, steps, [step]);
    assert [step][1..] == [];
  }

  lemma {:induction false} StoppingStays(s: State, steps: seq<Step>)
    requires s.stopping
    ensures Run(s, steps).stopping
    decreases |steps|
  {
    if steps != [] { StoppingStays(Next(s, steps[0]), steps[1..]); }
  }

  predicate CallInv(s: State, c: nat, call: Call) {
    && call.before <= s.begun
    && (call.Serving? ==> call.before < call.served == s.begun && s.loop == Reconciling(Some(c)))
    && (call.Released? || call.Returned? ==> call.before < call.served <= s.done)
    && (call.Queued? <==> s.channel == Some(For(c)))
  }

  predicate Inv(s: State) {
    && s.done == (if s.loop.Reconciling? then s.begun - 1 else s.begun)
    && (s.channel.Some? && s.channel.value.For? ==> s.channel.value.call in s.calls)
    && (forall c | c in s.calls :: CallInv(s, c, s.calls[c]))
    && (forall i | 0 <= i < |s.posted| :: s.posted[i] <= s.begun && (s.posted[i] < s.begun || s.channel.Some?))
    && (s.stopReturned ==> s.loop.Exited?)
    && (s.loop.Exited? ==> s.stopping)
  }

  lemma CallStep(s: State, step: Step, c: nat)
    requires Inv(s) && c in Next(s, step).calls
    ensures CallInv(Next(s, step), c, Next(s, step).calls[c])
  {
    if step.Receive? || step.Finish? {
      ServiceStep(s, step, c);
    } else if c in s.calls {
      assert CallInv(s, c, s.calls[c]);
    }
  }

  lemma ServiceStep(s: State, step: Step, c: nat)
    requires Inv(s) && (step.Receive? || step.Finish?) && c in Next(s, step).calls
    ensures CallInv(Next(s, step), c, Next(s, step).calls[c])
  {
    assert CallInv(s, c, s.calls[c]);
  }

  lemma PostedStep(s: State, step: Step, i: nat)
    requires Inv(s) && i < |Next(s, step).posted|
    ensures var t := Next(s, step); t.posted[i] <= t.begun && (t.posted[i] < t.begun || t.channel.Some?)
  {
    hide CallInv;
    if i < |s.posted| { assert s.posted[i] <= s.begun; }
  }

  lemma LoopStep(s: State, step: Step)
    requires Inv(s)
    ensures var t := Next(s, step);
            && t.done == (if t.loop.Reconciling? then t.begun - 1 else t.begun)
            && (t.channel.Some? && t.channel.value.For? ==> t.channel.value.call in t.calls)
            && (t.stopReturned ==> t.loop.Exited?) && (t.loop.Exited? ==> t.stopping)
  {
    hide CallInv;
  }

  lemma StepKeepsInv(s: State, step: Step)
    requires Inv(s)
    ensures Inv(Next(s, step))
  {
    LoopStep(s, step);
    hide CallInv, Next;
    var t := Next(s, step);
    forall c | c in t.calls ensures CallInv(t, c, t.calls[c]) { CallStep(s, step, c); }
    forall i | 0 <= i < |t.posted| ensures t.posted[i] <= t.begun && (t.posted[i] < t.begun || t.channel.Some?) {
      PostedStep(s, step, i);
    }
  }

  lemma {:induction false} RunKeepsInv(s: State, steps: seq<Step>)
    requires Inv(s)
    ensures Inv(Run(s, steps))
    decreases |steps|
  {
    if steps != [] {
      StepKeepsInv(s, steps[0]);
      RunKeepsInv(Next(s, steps[0]), steps[1..]);
    }
  }

  /** A waiting call returns only after a reconcile that began after the call
      and has completed. */
  lemma WaitingCallSeesAWholeReconcile(steps: seq<Step>, c: nat)
    ensures var s := Run(STARTED, steps);
            c in s.calls && s.calls[c].Returned? ==> s.calls[c].before < s.calls[c].served <= s.done
  {
    RunKeepsInv(STARTED, steps);
    var s := Run(STARTED, steps);
    if c in s.calls { assert CallInv(s, c, s.calls[c]); }
  }

  /** Once Stop has returned no reconcile is in flight, and none begins again. */
  lemma StoppedMeansQuiet(steps: seq<Step>, more: seq<Step>)
    requires Run(STARTED, steps).stopReturned
    ensures var s, t := Run(STARTED, steps), Run(Run(STARTED, steps), more);
            s.done == s.begun && t.begun == s.begun && t.done == s.done
  {
    RunKeepsInv(STARTED, steps);
    ExitIsFinal(Run(STARTED, steps), more);
  }

  lemma {:induction false} ExitIsFinal(s: State, steps: seq<Step>)
    requires s.loop.Exited?
    ensures Run(s, steps).loop.Exited? && Run(s, steps).begun == s.begun && Run(s, steps).done == s.done
    decreases |steps|
  {
    if steps != [] { ExitIsFinal(Next(s, steps[0]), steps[1..]); }
  }

  /** A waiting call that the loop has not released when it ends never is. */
  lemma {:induction false} UnservedCallNeverReturns(s: State, steps: seq<Step>, c: nat)
    requires s.loop.Exited? && c in s.calls && !s.calls[c].Released? && !s.calls[c].Returned?
    ensures var t := Run(s, steps); c in t.calls && !t.calls[c].Released? && !t.calls[c].Returned?
    decreases |steps|
  {
    if steps != [] { UnservedCallNeverReturns(Next(s, steps[0]), steps[1..], c); }
  }

  predicate ReturnsIn(s: State, steps: seq<Step>, c: nat) {
    var t := Run(s, steps); c in t.calls && t.calls[c].Returned?
  }

  /** Once the loop has ended, a waiting call can still return if and only if its
      reconcile was complete by then. */
  lemma ReturnsAfterExitExactly(s: State, c: nat)
    requires s.loop.Exited? && c in s.calls
    ensures (exists steps :: ReturnsIn(s, steps, c)) <==> s.calls[c].Released? || s.calls[c].Returned?
  {
    if s.calls[c].Released? {
      assert [Return(c)][1..] == [];
      assert Run(s, [Return(c)]) == Next(s, Return(c));
      assert ReturnsIn(s, [Return(c)], c);
    } else if s.calls[c].Returned? {
      assert ReturnsIn(s, [], c);
    } else {
      forall steps ensures !ReturnsIn(s, steps, c) { UnservedCallNeverReturns(s, steps, c); }
    }
  }

  /** So over every run that ends the loop: the call can return exactly if it was
      made, taken and served before. */
  lemma CallReturnsExactly(steps: seq<Step>, c: nat)
    requires Run(STARTED, steps).loop.Exited? && c in Run(STARTED, steps).calls
    ensures var s := Run(STARTED, steps);
            (exists more :: ReturnsIn(s, more, c)) <==> !s.calls[c].Sending? && !s.calls[c].Queued?
  {
    RunKeepsInv(STARTED, steps);
    var s := Run(STARTED, steps);
    assert CallInv(s, c, s.calls[c]);
    ReturnsAfterExitExactly(s, c);
  }

  /** Any call made just before the loop is stopped can be stranded. */
  lemma CallIsStranded(c: nat)
    ensures var s := Run(STARTED, [Begin, Finish, CallAndWait(c), CloseStopChannel, Exit]);
            s.loop.Exited? && c in s.calls && forall more :: !ReturnsIn(s, more, c)
  {
    var s1 := Next(STARTED, Begin);
    var s2 := Next(s1, Finish);
    var s3 := Next(s2, CallAndWait(c));
    var s4 := Next(s3, CloseStopChannel);
    RunExtends(STARTED, [], Begin);
    RunExtends(STARTED, [Begin], Finish);
    RunExtends(STARTED, [Begin, Finish], CallAndWait(c));
    RunExtends(STARTED, [Begin, Finish, CallAndWait(c)], CloseStopChannel);
    RunExtends(STARTED, [Begin, Finish, CallAndWait(c), CloseStopChannel], Exit);
    hide Run;
    assert [] + [Begin] == [Begin] && [Begin] + [Finish] == [Begin, Finish];
    assert [Begin, Finish] + [CallAndWait(c)] == [Begin, Finish, CallAndWait(c)];
    assert [Begin, Finish, CallAndWait(c)] + [CloseStopChannel] == [Begin, Finish, CallAndWait(c), CloseStopChannel];
    var steps := [Begin, Finish, CallAndWait(c), CloseStopChannel, Exit];
    assert [Begin, Finish, CallAndWait(c), CloseStopChannel] + [Exit] == steps;
    var s := Run(STARTED, steps);
    assert s == Next(s4, Exit) by { Nothing(STARTED); }
    forall more ensures !ReturnsIn(s, more, c) { UnservedCallNeverReturns(s, more, c); }
  }

  lemma Nothing(s: State)
    ensures Run(s, []) == s
  {
  }

  // ----- calls that do not wait

  predicate IsLoopStep(step: Step) {
    step.Begin? || step.Receive? || step.Elapse? || step.Finish? || step.Exit?
  }

  /** The steps the loop itself takes in a run. */
  function LoopSteps(s: State, steps: seq<Step>): nat
    decreases |steps|
  {
    if steps == [] then 0
    else (if IsLoopStep(steps[0]) && Next(s, steps[0]) != s then 1 else 0) + LoopSteps(Next(s, steps[0]), steps[1..])
  }

  lemma {:induction false} TwoLoopStepsBegin(s: State, steps: seq<Step>)
    requires LoopSteps(s, steps) >= if s.loop.Reconciling? then 2 else 1
    ensures Run(s, steps).loop.Exited? || Run(s, steps).begun > s.begun
    decreases |steps|
  {
    var t := Next(s, steps[0]);
    if t.loop.Exited? {
      ExitIsFinal(t, steps[1..]);
    } else if t.begun > s.begun {
      BegunGrows(t, steps[1..]);
    } else {
      TwoLoopStepsBegin(t, steps[1..]);
    }
  }

  lemma {:induction false} BegunGrows(s: State, steps: seq<Step>)
    ensures Run(s, steps).begun >= s.begun
    decreases |steps|
  {
    if steps != [] { BegunGrows(Next(s, steps[0]), steps[1..]); }
  }

  /** After a call that does not wait, even one whose message was dropped,
      either a reconcile has begun since, or a message is waiting that the loop
      can take as soon as it selects; and once the loop has taken two more
      steps, a later reconcile has begun unless the loop has stopped. */
  lemma PostedCallIsFollowedByAReconcile(steps: seq<Step>, i: nat, more: seq<Step>)
    requires i < |Run(STARTED, steps).posted|
    ensures var s := Run(STARTED, steps);
            && (s.begun > s.posted[i] || s.channel.Some?)
            && (s.channel.Some? && s.loop.Selecting? ==> Next(s, Receive).begun == s.begun + 1)
            && (LoopSteps(s, more) >= 2 ==> Run(s, more).loop.Exited? || Run(s, more).begun > s.posted[i])
  {
    var s := Run(STARTED, steps);
    RunKeepsInv(STARTED, steps);
    if LoopSteps(s, more) >= 2 { TwoLoopStepsBegin(s, more); }
  }

  // ----- said on the run itself

  lemma {:induction false} CallKeepsItsTime(s: State, steps: seq<Step>, c: nat)
    requires c in s.calls
    ensures c in Run(s, steps).calls && Run(s, steps).calls[c].before == s.calls[c].before
    decreases |steps|
  {
    if steps != [] { CallKeepsItsTime(Next(s, steps[0]), steps[1..], c); }
  }

  /** A waiting call made after the run `a` returns only once a reconcile that had
      not begun by then is complete. */
  lemma ReconcileBeginsAfterTheCall(a: seq<Step>, c: nat, b: seq<Step>)
    requires c !in Run(STARTED, a).calls && ReturnsIn(Run(STARTED, a), [CallAndWait(c)] + b, c)
    ensures var s, t := Run(STARTED, a), Run(Run(STARTED, a), [CallAndWait(c)] + b);
            s.begun < t.calls[c].served <= t.done
  {
    var s := Run(STARTED, a);
    var steps := [CallAndWait(c)] + b;
    assert steps[1..] == b;
    CallKeepsItsTime(Next(s, CallAndWait(c)), b, c);
    RunAppends(STARTED, a, steps);
    WaitingCallSeesAWholeReconcile(a + steps, c);
  }

  /** A call that does not wait, made after the run `a`: two steps of the loop
      later, a reconcile has begun that had not begun by then. */
  lemma ReconcileFollowsTheCall(a: seq<Step>, more: seq<Step>)
    requires var t := Next(Run(STARTED, a), CallAndGo); LoopSteps(t, more) >= 2
    ensures var s, u := Run(STARTED, a), Run(Next(Run(STARTED, a), CallAndGo), more);
            u.loop.Exited? || u.begun > s.begun
  {
    RunExtends(STARTED, a, CallAndGo);
    PostedCallIsFollowedByAReconcile(a + [CallAndGo], |Run(STARTED, a).posted|, more);
  }

  /** The timer, or a signal of the bus, begins a reconcile whenever the loop
      selects, and nothing else then changes. */
  lemma TimerReconciles(s: State)
    requires s.loop.Selecting?
    ensures var t := Next(s, Elapse);
            t.loop == Reconciling(None) && t.begun == s.begun + 1 && s == t.(loop := s.loop, begun := s.begun)
  {
  }

  lemma {:induction false} StartingMeansNothingBegun(s: State, steps: seq<Step>)
    requires s.loop.Starting? <==> s.begun == 0
    ensures Run(s, steps).loop.Starting? <==> Run(s, steps).begun == 0
    decreases |steps|
  {
    if steps != [] { StartingMeansNothingBegun(Next(s, steps[0]), steps[1..]); }
  }

  /** A started loop reconciles before anything else: whenever it selects or has
      ended, one reconcile is complete. */
  lemma FirstReconcileComesFirst(steps: seq<Step>)
    ensures var s := Run(STARTED, steps); s.loop.Selecting? || s.loop.Exited? ==> s.done >= 1
    ensures Next(STARTED, Begin).begun == 1
  {
    StartingMeansNothingBegun(STARTED, steps);
    RunKeepsInv(STARTED, steps);
  }

  // ----- while the loop lives

  /** The step that brings the call `c` on. */
  function Helps(s: State, c: nat): Step
    requires c in s.calls
  {
    if s.calls[c].Released? || s.calls[c].Returned? then Return(c)
    else if s.loop.Starting? then Begin
    else if s.loop.Reconciling? then Finish
    else if s.channel.Some? then Receive
    else Deliver(c)
  }

  /** How many such steps the call is away from its return. */
  function Distance(s: State, c: nat): nat
    requires c in s.calls
  {
    var taken := if s.channel.Some? then 2 else 0;
    match s.calls[c]
    case Returned(_, _) => 0
    case Released(_, _) => 1
    case Serving(_, _) => 2
    case Queued(_) => if s.loop.Starting? then 5 else if s.loop.Reconciling? then 4 else 3
    case Sending(_) => taken + if s.loop.Starting? then 6 else if s.loop.Reconciling? then 5 else 4
  }

  lemma HelpsOn(s: State, c: nat)
    requires Inv(s) && !s.loop.Exited? && c in s.calls && !s.calls[c].Returned?
    ensures var t := Next(s, Helps(s, c));
            Inv(t) && !t.loop.Exited? && c in t.calls && Distance(t, c) < Distance(s, c)
  {
    StepKeepsInv(s, Helps(s, c));
    assert CallInv(s, c, s.calls[c]);
  }

  lemma {:induction false} LiveLoopServes(s: State, c: nat) returns (steps: seq<Step>)
    requires Inv(s) && !s.loop.Exited? && c in s.calls
    ensures ReturnsIn(s, steps, c)
    decreases Distance(s, c)
  {
    if s.calls[c].Returned? {
      steps := [];
    } else {
      HelpsOn(s, c);
      var rest := LiveLoopServes(Next(s, Helps(s, c)), c);
      steps := [Helps(s, c)] + rest;
      assert steps[0] == Helps(s, c) && steps[1..] == rest;
    }
  }

  /** In every state that a run reaches, a waiting call can still return if and
      only if the loop has not ended or the call's reconcile is complete. */
  lemma CallCanReturnExactly(steps: seq<Step>, c: nat)
    requires c in Run(STARTED, steps).calls
    ensures var s := Run(STARTED, steps);
            (exists more :: ReturnsIn(s, more, c)) <==>
            !s.loop.Exited? || s.calls[c].Released? || s.calls[c].Returned?
  {
    var s := Run(STARTED, steps);
    RunKeepsInv(STARTED, steps);
    if s.loop.Exited? {
      ReturnsAfterExitExactly(s, c);
    } else {
      var more := LiveLoopServes(s, c);
    }
  }

  /** Stop can return from every state that a run reaches: the loop finishes what it
      is at and leaves, and no other reconcile begins. */
  lemma StopCanReturn(steps: seq<Step>) returns (more: seq<Step>)
    ensures var s, t := Run(STARTED, steps), Run(Run(STARTED, steps), more);
            t.stopReturned && t.begun <= if s.loop.Starting? then s.begun + 1 else s.begun
  {
    var s := Run(STARTED, steps);
    RunKeepsInv(STARTED, steps);
    var t := Next(s, CloseStopChannel);
    more := Leave(t);
    RunAppends(s, [CloseStopChannel], more);
    assert [CloseStopChannel][1..] == [];
    more := [CloseStopChannel] + more;
  }

  lemma Leave(s: State) returns (steps: seq<Step>)
    requires s.stopping
    ensures var t := Run(s, steps);
            t.stopReturned && t.begun == if s.loop.Starting? then s.begun + 1 else s.begun
    decreases match s.loop case Starting => 3 case Reconciling(_) => 2 case Selecting => 1 case Exited => 0
  {
    if s.loop.Exited? {
      steps := [StopReturns];
      assert steps[1..] == [];
    } else {
      var step := match s.loop case Starting => Begin case Reconciling(_) => Finish case _ => Exit;
      var rest := Leave(Next(s, step));
      steps := [step] + rest;
      assert steps[0] == step && steps[1..] == rest;
    }
  }
}
