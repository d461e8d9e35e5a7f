/**
 The readiness gauge shared by overlapping instances (plugin/zonedns_agent/setup.go).
 markResolverReady and markResolverStopped run concurrently, one call per generation
 each; the model interleaves their single reads and writes.
 */
module Readiness {
  import opened Wrappers

  /** A call of markResolverReady(gen) or markResolverStopped(gen). */
  datatype Op = Ready(gen: nat) | Stopped(gen: nat)

  /** Where a call is. */
  datatype Pc = Waiting | Locked | GenWritten | Compared(stillLatest: bool) | Finished

  datatype State = State(
    generations: nat,
    mutex: Option<Op>,
    readyGeneration: nat,
    gauge: bool,
    calls: map<Op, Pc>,
    log: seq<Op>)

  const INITIAL := State(0, None, 0, false, map[], [])

  /** `log` in the state lists the finished calls in the order they released the mutex. */
  datatype Step =
    | NewGeneration
    | Call(op: Op)
    | Lock(op: Op)
    | WriteGeneration(op: Op)
    | WriteGauge(op: Op)
    | Compare(op: Op)
    | Clear(op: Op)
    | Unlock(op: Op)

  predicate At(s: State, op: Op, pc: Pc) {
    op in s.calls && s.calls[op] == pc
  }

  predicate Enabled(s: State, step: Step) {
    match step
    case NewGeneration => true
    case Call(op) => 0 < op.gen <= s.generations && op !in s.calls && op !in s.log
    case Lock(op) => s.mutex == None && At(s, op, Waiting)
    case WriteGeneration(op) => op.Ready? && At(s, op, Locked)
    case WriteGauge(op) => op.Ready? && At(s, op, GenWritten)
    case Compare(op) => op.Stopped? && At(s, op, Locked)
    case Clear(op) => op.Stopped? && op in s.calls && s.calls[op].Compared?
    case Unlock(op) => At(s, op, Finished)
  }

  function Next(s: State, step: Step): State
    requires Enabled(s, step)
  {
    match step
    case NewGeneration => s.(generations := s.generations + 1)
    case Call(op) => s.(calls := s.calls[op := Waiting])
    case Lock(op) => s.(mutex := Some(op), calls := s.calls[op := Locked])
    case WriteGeneration(op) => s.(readyGeneration := op.gen, calls := s.calls[op := GenWritten])
    case WriteGauge(op) => s.(gauge := true, calls := s.calls[op := Finished])
    case Compare(op) => s.(calls := s.calls[op := Compared(s.readyGeneration == op.gen)])
    case Clear(op) =>
      s.(gauge := if s.calls[op].stillLatest then false else s.gauge, calls := s.calls[op := Finished])
    case Unlock(op) => s.(mutex := None, calls := s.calls - {op}, log := s.log + [op])
  }

  /** The state after any interleaving of steps; `None` if one of them was not enabled. */
  function Exec(steps: seq<Step>): Option<State> {
    if steps == [] then Some(INITIAL)
    else
      var n := |steps| - 1;
      var before := Exec(steps[..n]);
      if before.Some? && Enabled(before.value, steps[n]) then Some(Next(before.value, steps[n])) else None
  }

  predicate Legal(steps: seq<Step>) {
    Exec(steps).Some?
  }

  function After(steps: seq<Step>): State
    requires Legal(steps)
  {
    Exec(steps).value
  }

  // ---------------------------------------------------------------------
  // What the finished calls say
  // ---------------------------------------------------------------------

  /** The last generation to report ready; 0 if none has. */
  function LastReady(log: seq<Op>): nat {
    if log == [] then 0
    else
      var n := |log| - 1;
      if log[n].Ready? then log[n].gen else LastReady(log[..n])
  }

  /** The gauge the calls should leave when run one after the other. */
  function Shows(log: seq<Op>): bool {
    if log == [] then false
    else
      var n := |log| - 1;
      match log[n]
      case Ready(_) => true
      case Stopped(gen) => Shows(log[..n]) && LastReady(log[..n]) != gen
  }

  /** The last ready report is at `i`, and its generation has not stopped since. */
  ghost predicate LastReadyStands(log: seq<Op>, i: nat) {
    && i < |log| && log[i].Ready?
    && forall j :: i < j < |log| ==> log[j].Stopped? && log[j].gen != log[i].gen
  }

  /** The meaning of `Shows`: a last ready report stands. */
  lemma {:induction false} ShowsIff(log: seq<Op>)
    ensures Shows(log) <==> exists i: nat :: LastReadyStands(log, i)
    ensures Shows(log) ==> exists i: nat :: LastReadyStands(log, i) && log[i].gen == LastReady(log)
  {
    if log != [] {
      var n := |log| - 1;
      ShowsIff(log[..n]);
      match log[n]
      case Ready(_) =>
        assert LastReadyStands(log, n);
      case Stopped(gen) =>
        if Shows(log) {
          var i: nat :| LastReadyStands(log[..n], i) && log[..n][i].gen == LastReady(log[..n]);
          assert LastReadyStands(log, i);
        }
        if i: nat :| LastReadyStands(log, i) {
          assert LastReadyStands(log[..n], i);
          LastReadyAt(log[..n], i);
        }
    }
  }

  lemma {:induction false} LastReadyAt(log: seq<Op>, i: nat)
    requires LastReadyStands(log, i)
    ensures LastReady(log) == log[i].gen
  {
    var n := |log| - 1;
    if i < n {
      assert LastReadyStands(log[..n], i);
      LastReadyAt(log[..n], i);
    }
  }

  // ---------------------------------------------------------------------
  // The protocol keeps its promise
  // ---------------------------------------------------------------------

  /** Exactly the holder of the mutex is inside its critical section. */
  ghost predicate Exclusive(s: State) {
    forall op :: op in s.calls ==> (s.calls[op] != Waiting <==> s.mutex == Some(op))
  }

  /** What the shared variables hold while the holder is at `pc`. */
  ghost predicate HolderOk(s: State, op: Op, pc: Pc) {
    match pc
    case Waiting => false
    case Locked => s.gauge == Shows(s.log) && s.readyGeneration == LastReady(s.log)
    case GenWritten => op.Ready? && s.gauge == Shows(s.log) && s.readyGeneration == op.gen
    case Compared(b) =>
      && op.Stopped? && s.gauge == Shows(s.log) && s.readyGeneration == LastReady(s.log)
      && b == (LastReady(s.log) == op.gen)
    case Finished =>
      s.gauge == Shows(s.log + [op]) && s.readyGeneration == LastReady(s.log + [op])
  }

  ghost predicate Inv(s: State) {
    && Exclusive(s)
    && (s.mutex == None ==> s.gauge == Shows(s.log) && s.readyGeneration == LastReady(s.log))
    && (s.mutex.Some? ==> s.mutex.value in s.calls && HolderOk(s, s.mutex.value, s.calls[s.mutex.value]))
  }

  /** Every single read and write keeps the invariant. */
  lemma InvStep(s: State, step: Step)
    requires Inv(s) && Enabled(s, step)
    ensures Inv(Next(s, step))
  {
    match step
    case NewGeneration => InvIdle(s, step);
    case Call(_) => InvIdle(s, step);
    case Lock(op) => InvLock(s, op);
    case Unlock(op) => InvUnlock(s, op);
    case _ =>
      if step.op.Ready? {
        InvReady(s, step);
      } else {
        InvStopped(s, step);
      }
  }

  /** Steps outside the critical section. */
  lemma InvIdle(s: State, step: Step)
    requires Inv(s) && Enabled(s, step) && (step.NewGeneration? || step.Call?)
    ensures Inv(Next(s, step))
  {
  }

  lemma InvLock(s: State, op: Op)
    requires Inv(s) && Enabled(s, Lock(op))
    ensures Inv(Next(s, Lock(op)))
  {
  }

  lemma InvUnlock(s: State, op: Op)
    requires Inv(s) && Enabled(s, Unlock(op))
    ensures Inv(Next(s, Unlock(op)))
  {
  }

  /** The two writes of markResolverReady. */
  lemma InvReady(s: State, step: Step)
    requires Inv(s) && Enabled(s, step) && (step.WriteGeneration? || step.WriteGauge?)
    ensures Inv(Next(s, step))
  {
  }

  /** The comparison and the conditional write of markResolverStopped. */
  lemma InvStopped(s: State, step: Step)
    requires Inv(s) && Enabled(s, step) && (step.Compare? || step.Clear?)
    ensures Inv(Next(s, step))
  {
  }

  lemma {:induction false} InvAfter(steps: seq<Step>)
    requires Legal(steps)
    ensures Inv(After(steps))
  {
    if steps != [] {
      InvAfter(steps[..|steps| - 1]);
      InvStep(After(steps[..|steps| - 1]), steps[|steps| - 1]);
    }
  }

  /**
   In every interleaving, whenever the mutex is free the gauge is 1 exactly when
   some generation has reported ready and the last to do so has not stopped since.
   */
  lemma GaugeExact(steps: seq<Step>)
    requires Legal(steps) && After(steps).mutex == None
    ensures After(steps).gauge <==> exists i: nat :: LastReadyStands(After(steps).log, i)
  {
    InvAfter(steps);
    ShowsIff(After(steps).log);
  }

  // ---------------------------------------------------------------------
  // "The newest generation that became ready is still running"
  // ---------------------------------------------------------------------

  /** The newest generation to have reported ready; 0 if none has. */
  function NewestReady(log: seq<Op>): nat {
    if log == [] then 0
    else
      var n := |log| - 1;
      var before := NewestReady(log[..n]);
      if log[n].Ready? && log[n].gen > before then log[n].gen else before
  }

  lemma {:induction false} NewestReadyIsMax(log: seq<Op>)
    ensures forall i :: 0 <= i < |log| && log[i].Ready? ==> log[i].gen <= NewestReady(log)
    ensures NewestReady(log) > 0 ==> Ready(NewestReady(log)) in log
    ensures LastReady(log) > 0 ==> Ready(LastReady(log)) in log
  {
    if log != [] {
      var n := |log| - 1;
      NewestReadyIsMax(log[..n]);
      assert forall op :: op in log <==> op in log[..n] || op == log[n];
    }
  }

  /** What operators read the gauge as. */
  predicate NewestRuns(log: seq<Op>) {
    NewestReady(log) > 0 && Stopped(NewestReady(log)) !in log
  }

  predicate Accurate(log: seq<Op>) {
    Shows(log) == NewestRuns(log)
  }

  /**
   The next finished call keeps the gauge accurate: a ready report leaves the newest
   ready generation one that has not stopped; a stop comes while the gauge is 0, or
   from a generation that is both the last and the newest to be ready, or neither.
   */
  predicate Orderly(log: seq<Op>, op: Op) {
    match op
    case Ready(gen) => Stopped(if gen > NewestReady(log) then gen else NewestReady(log)) !in log
    case Stopped(gen) => !Shows(log) || (LastReady(log) == gen <==> NewestReady(log) == gen)
  }

  /** Exactly when one more call keeps an accurate gauge accurate. */
  lemma AccurateStepIff(log: seq<Op>, op: Op)
    requires Accurate(log) && op.gen > 0
    ensures Accurate(log + [op]) <==> Orderly(log, op)
  {
  }

  ghost predicate PositiveGens(log: seq<Op>) {
    forall i :: 0 <= i < |log| ==> log[i].gen > 0
  }

  ghost predicate AccurateAt(log: seq<Op>, k: nat)
    requires k <= |log|
  {
    Accurate(log[..k])
  }

  ghost predicate OrderlyAt(log: seq<Op>, k: nat)
    requires k < |log|
  {
    Orderly(log[..k], log[k])
  }

  ghost predicate AlwaysAccurate(log: seq<Op>) {
    forall k :: 0 <= k <= |log| ==> AccurateAt(log, k)
  }

  ghost predicate AlwaysOrderly(log: seq<Op>) {
    forall k :: 0 <= k < |log| ==> OrderlyAt(log, k)
  }

  lemma LogPrefix(log: seq<Op>)
    requires log != []
    ensures var n := |log| - 1;
      && (AlwaysAccurate(log) <==> AlwaysAccurate(log[..n]) && AccurateAt(log, n + 1))
      && (AlwaysOrderly(log) <==> AlwaysOrderly(log[..n]) && OrderlyAt(log, n))
      && (AlwaysAccurate(log[..n]) ==> AccurateAt(log, n))
  {
    var n := |log| - 1;
    forall k | 0 <= k <= n ensures AccurateAt(log[..n], k) <==> AccurateAt(log, k) {
      assert log[..n][..k] == log[..k];
    }
    forall k | 0 <= k < n ensures OrderlyAt(log[..n], k) <==> OrderlyAt(log, k) {
      assert log[..n][..k] == log[..k];
    }
  }

  /** The gauge was accurate after every call if and only if every call was orderly. */
  lemma {:induction false} AlwaysAccurateIff(log: seq<Op>)
    requires PositiveGens(log)
    ensures AlwaysAccurate(log) <==> AlwaysOrderly(log)
  {
    if log == [] {
      assert log[..0] == [];
    } else {
      var n := |log| - 1;
      AlwaysAccurateIff(log[..n]);
      LogPrefix(log);
      if AccurateAt(log, n) {
        AccurateStepIff(log[..n], log[n]);
        assert log[..n + 1] == log[..n] + [log[n]];
      }
    }
  }

  /**
   Ready reports come in generation order, and none comes after its own generation's
   stop. A generation may stop without ever having been ready.
   */
  ghost predicate InOrder(log: seq<Op>) {
    && (forall i, j :: 0 <= i < j < |log| && log[i].Ready? && log[j].Ready? ==> log[i].gen < log[j].gen)
    && (forall j :: 0 <= j < |log| && log[j].Ready? ==> Stopped(log[j].gen) !in log[..j])
  }

  /** In such runs the gauge is always read rightly. */
  lemma {:induction false} InOrderAccurate(log: seq<Op>)
    requires InOrder(log) && PositiveGens(log)
    ensures Accurate(log) && LastReady(log) == NewestReady(log)
  {
    if log != [] {
      var n := |log| - 1;
      InOrderPrefix(log);
      InOrderAccurate(log[..n]);
      NotYetStopped(log, n);
      InOrderStep(log[..n], log[n]);
      assert log == log[..n] + [log[n]];
    }
  }

  lemma InOrderStep(log: seq<Op>, op: Op)
    requires Accurate(log) && LastReady(log) == NewestReady(log) && op.gen > 0
    requires op.Ready? ==> Stopped(op.gen) !in log && NewestReady(log) < op.gen
    ensures Accurate(log + [op]) && LastReady(log + [op]) == NewestReady(log + [op])
  {
  }

  lemma InOrderPrefix(log: seq<Op>)
    requires InOrder(log) && log != []
    ensures InOrder(log[..|log| - 1])
  {
    var before := log[..|log| - 1];
    forall j | 0 <= j < |before| && before[j].Ready? ensures Stopped(before[j].gen) !in before[..j] {
      assert before[..j] == log[..j] && log[j].Ready?;
    }
  }

  lemma NotYetStopped(log: seq<Op>, n: nat)
    requires InOrder(log) && PositiveGens(log) && n < |log|
    ensures log[n].Ready? ==> Stopped(log[n].gen) !in log[..n] && NewestReady(log[..n]) < log[n].gen
  {
    NewestReadyIsMax(log[..n]);
    if log[n].Ready? && NewestReady(log[..n]) > 0 {
      var i :| 0 <= i < n && log[..n][i] == Ready(NewestReady(log[..n]));
      assert log[i].gen < log[n].gen;
    }
  }

  /** The whole statement over interleavings: in order, the gauge is 1 exactly while the newest ready generation runs. */
  lemma GaugeMeansNewestRuns(steps: seq<Step>)
    requires Legal(steps) && After(steps).mutex == None && InOrder(After(steps).log)
    ensures After(steps).gauge <==> NewestRuns(After(steps).log)
  {
    InvAfter(steps);
    GensAfter(steps);
    InOrderAccurate(After(steps).log);
  }

  ghost predicate GensOk(s: State) {
    && (forall op :: op in s.calls ==> 0 < op.gen <= s.generations)
    && (forall i :: 0 <= i < |s.log| ==> 0 < s.log[i].gen <= s.generations)
  }

  lemma {:induction false} GensAfter(steps: seq<Step>)
    requires Legal(steps)
    ensures GensOk(After(steps))
  {
    if steps != [] {
      GensAfter(steps[..|steps| - 1]);
    }
  }

  /** A generation stopped before it reports ready leaves the gauge at 1 with nothing running. */
  lemma StopBeforeReady()
    ensures var log := [Stopped(1), Ready(1)];
      Shows(log) && !NewestRuns(log)
  {
    var log := [Stopped(1), Ready(1)];
    assert log[..1] == [Stopped(1)];
    assert NewestReady([Stopped(1)]) == 0;
  }

  /** An older generation reporting late and then stopping clears the gauge of a newer one that runs. */
  lemma LateOlderReady()
    ensures var log := [Ready(2), Ready(1), Stopped(1)];
      !Shows(log) && NewestRuns(log)
  {
  }

  // ---------------------------------------------------------------------
  // Every order of calls happens
  // ---------------------------------------------------------------------

  lemma Extend(steps: seq<Step>, step: Step)
    requires Legal(steps) && Enabled(After(steps), step)
    ensures Legal(steps + [step]) && After(steps + [step]) == Next(After(steps), step)
  {
    assert (steps + [step])[..|steps|] == steps;
  }

  lemma AddGenerations(steps: seq<Step>, gen: nat) returns (more: seq<Step>)
    requires Legal(steps)
    ensures Legal(more) && After(more) == After(steps).(generations := After(more).generations)
    ensures After(more).generations >= gen
    decreases gen - After(steps).generations
  {
    more := steps;
    if After(steps).generations < gen {
      Extend(steps, NewGeneration);
      more := AddGenerations(steps + [NewGeneration], gen);
    }
  }

  /** One call from start to finish with nobody else in between. */
  lemma RunAlone(steps: seq<Step>, op: Op) returns (more: seq<Step>)
    requires Legal(steps) && Enabled(After(steps), Call(op)) && After(steps).mutex == None && After(steps).calls == map[]
    ensures Legal(more) && After(more).log == After(steps).log + [op]
    ensures After(more).mutex == None && After(more).calls == map[]
  {
    more := steps;
    Extend(more, Call(op));
    more := more + [Call(op)];
    Extend(more, Lock(op));
    more := more + [Lock(op)];
    var first, second := if op.Ready? then WriteGeneration(op) else Compare(op), if op.Ready? then WriteGauge(op) else Clear(op);
    Extend(more, first);
    more := more + [first];
    Extend(more, second);
    more := more + [second];
    Extend(more, Unlock(op));
    more := more + [Unlock(op)];
  }

  /** Any order in which distinct calls might finish is the order of some interleaving. */
  lemma {:induction false} Realizable(log: seq<Op>) returns (steps: seq<Step>)
    requires PositiveGens(log) && forall i, j :: 0 <= i < j < |log| ==> log[i] != log[j]
    ensures Legal(steps) && After(steps).log == log
    ensures After(steps).mutex == None && After(steps).calls == map[]
  {
    if log == [] {
      steps := [];
    } else {
      var n := |log| - 1;
      steps := Realizable(log[..n]);
      steps := AddGenerations(steps, log[n].gen);
      steps := RunAlone(steps, log[n]);
      assert log == log[..n] + [log[n]];
    }
  }

  /** So the two misreadings above are real: an interleaving ends in each. */
  lemma MisreadingsHappen() returns (stuck: seq<Step>, cleared: seq<Step>)
    ensures Legal(stuck) && After(stuck).mutex == None && After(stuck).gauge && !NewestRuns(After(stuck).log)
    ensures Legal(cleared) && After(cleared).mutex == None && !After(cleared).gauge && NewestRuns(After(cleared).log)
  {
    stuck := Realizable([Stopped(1), Ready(1)]);
    InvAfter(stuck);
    StopBeforeReady();
    cleared := Realizable([Ready(2), Ready(1), Stopped(1)]);
    InvAfter(cleared);
    LateOlderReady();
  }

  // ---------------------------------------------------------------------
  // VM mode
  // ---------------------------------------------------------------------

  /**
   wireResolverReadyLifecycle: setups follow one another, each reports its generation
   ready before it returns, and a stop is only ever called for a generation that has.
   */
  ghost predicate VmAllows(s: State, step: Step) {
    match step
    case NewGeneration => s.generations > 0 ==> Ready(s.generations) in s.log
    case Call(op) => op.Stopped? ==> Ready(op.gen) in s.log
    case _ => true
  }

  ghost predicate VmRun(steps: seq<Step>) {
    steps == [] ||
    var n := |steps| - 1;
    VmRun(steps[..n]) && Legal(steps) && VmAllows(After(steps[..n]), steps[n])
  }

  ghost predicate VmInv(s: State) {
    && InOrder(s.log) && GensOk(s)
    && (forall op :: op in s.calls && op.Ready? ==> op.gen == s.generations && op !in s.log)
    && (forall op :: op in s.calls && op.Stopped? ==> Ready(op.gen) in s.log)
    && (forall op :: op in s.log && op.Stopped? ==> Ready(op.gen) in s.log)
    && (forall g :: 0 < g < s.generations ==> Ready(g) in s.log)
  }

  lemma VmUnlock(s: State, op: Op)
    requires VmInv(s) && op in s.calls
    ensures VmInv(s.(mutex := None, calls := s.calls - {op}, log := s.log + [op]))
  {
    VmOrder(s, op);
    LogGrows(s.log, op);
    var s' := s.(mutex := None, calls := s.calls - {op}, log := s.log + [op]);
    assert GensOk(s');
    assert forall g :: 0 < g < s.generations ==> Ready(g) in s.log;
  }

  lemma LogGrows(log: seq<Op>, op: Op)
    ensures forall o :: o in log + [op] <==> o in log || o == op
  {
  }

  lemma VmOrder(s: State, op: Op)
    requires VmInv(s) && op in s.calls
    ensures InOrder(s.log + [op])
  {
    forall i | 0 <= i < |s.log| && s.log[i].Ready? && op.Ready? ensures s.log[i].gen < op.gen {
      assert s.log[i] in s.log;
    }
    InOrderExtend(s.log, op);
  }

  lemma InOrderExtend(log: seq<Op>, op: Op)
    requires InOrder(log)
    requires forall i :: 0 <= i < |log| && log[i].Ready? && op.Ready? ==> log[i].gen < op.gen
    requires op.Ready? ==> Stopped(op.gen) !in log
    ensures InOrder(log + [op])
  {
    var more := log + [op];
    forall j | 0 <= j < |more| && more[j].Ready? ensures Stopped(more[j].gen) !in more[..j] {
      assert more[..j] == log[..j];
      assert log[..|log|] == log;
    }
  }

  lemma VmStep(s: State, step: Step)
    requires VmInv(s) && Enabled(s, step) && VmAllows(s, step)
    ensures VmInv(Next(s, step))
  {
    match step
    case NewGeneration =>
      assert forall op :: op in s.calls && op.Ready? ==> op == Ready(s.generations);
    case Call(op) => VmCall(s, op);
    case Unlock(op) => VmUnlock(s, op);
    case _ => VmInside(s, step);
  }

  lemma VmCall(s: State, op: Op)
    requires VmInv(s) && Enabled(s, Call(op)) && VmAllows(s, Call(op))
    ensures VmInv(Next(s, Call(op)))
  {
  }

  /** Steps that change neither the log nor the set of calls under way. */
  lemma VmInside(s: State, step: Step)
    requires VmInv(s) && Enabled(s, step) && !step.NewGeneration? && !step.Call? && !step.Unlock?
    ensures VmInv(Next(s, step))
  {
  }

  lemma {:induction false} VmRunInOrder(steps: seq<Step>)
    requires VmRun(steps)
    ensures Legal(steps) && VmInv(After(steps))
  {
    if steps != [] {
      var n := |steps| - 1;
      VmRunInOrder(steps[..n]);
      VmStep(After(steps[..n]), steps[n]);
    }
  }

  /** In VM mode the gauge always means what operators read it as. */
  lemma VmGaugeMeansNewestRuns(steps: seq<Step>)
    requires VmRun(steps) && Legal(steps) && After(steps).mutex == None
    ensures After(steps).gauge <==> NewestRuns(After(steps).log)
  {
    VmRunInOrder(steps);
    GaugeMeansNewestRuns(steps);
  }
}
