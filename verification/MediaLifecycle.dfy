/** Starting and stopping the media workers.  A start hands over to a recovery task, a stop fences it: the
  * `started` flag and the lifecycle epoch say which tasks still count, and a gate keeps the launch of the
  * workers and a stop apart.
  */
module MediaLifecycle {
  import opened Wrappers

  type Id = nat

  /** A call of `start` that has set the flag, and then forgotten the last stop. */
  datatype Starting = Swapped | Cleared

  /** A call of `stop`: the flag is lowered and the epoch advanced, then it waits for the gate and stops the
    * port, and then lowers and advances both again. */
  datatype Stopping = Lowered | Fenced | AtGate | PortStopped | LoweredAgain | FencedAgain

  datatype Phase = Recovering | Recovered | Gated | Checked

  /** A recovery task of the start that was given `epoch`. */
  datatype Task = Task(epoch: nat, phase: Phase)

  datatype Gate = Free | TaskHas(id: Id) | StopHas(id: Id)

  datatype State = State(
    started: bool,
    epoch: nat,
    stopComplete: bool,
    gate: Gate,
    workers: Option<nat>,   // the epoch for which the worker set was launched
    starts: map<Id, Starting>,
    stops: map<Id, Stopping>,
    tasks: map<Id, Task>,
    nextId: Id)

  datatype Step =
    | CallStart
    | Forget(start: Id)
    | Spawn(start: Id)
    | Recover(task: Id, ok: bool)
    | TakeGate(task: Id)
    | Check(task: Id)
    | Launch(task: Id, ok: bool)
    | CallStop
    | Fence(stop: Id)
    | StopTakesGate(stop: Id)
    | StopPort(stop: Id, ok: bool)
    | LowerAgain(stop: Id)
    | FenceAgain(stop: Id)
    | FinishStop(stop: Id)

  const INITIAL := State(false, 0, false, Free, None, map[], map[], map[], 0)

  predicate IsCurrent(s: State, epoch: nat) {
    s.started && s.epoch == epoch
  }

  predicate TaskAt(s: State, t: Id, phase: Phase) {
    t in s.tasks && s.tasks[t].phase == phase
  }

  predicate StopAt(s: State, i: Id, phase: Stopping) {
    i in s.stops && s.stops[i] == phase
  }

  /** The stop holds the gate. */
  predicate Holds(s: State, i: Id) {
    i in s.stops && !s.stops[i].Lowered? && !s.stops[i].Fenced?
  }

  /** The stop has stopped the port. */
  predicate Past(s: State, i: Id) {
    Holds(s, i) && !s.stops[i].AtGate?
  }

  function Advance(s: State, t: Id, phase: Phase): State
    requires t in s.tasks
  {
    s.(tasks := s.tasks[t := s.tasks[t].(phase := phase)])
  }

  function EndTask(s: State, t: Id): State {
    s.(tasks := s.tasks - {t})
  }

  predicate OfTask(step: Step) {
    step.Recover? || step.TakeGate? || step.Check? || step.Launch?
  }

  predicate OfStart(step: Step) {
    step.CallStart? || step.Forget? || step.Spawn?
  }

  /** The state after `step`; a step that is not possible changes nothing. */
  function Apply(s: State, step: Step): State {
    if OfTask(step) then ApplyToTask(s, step)
    else if OfStart(step) then ApplyToStart(s, step)
    else ApplyToStop(s, step)
  }

  function ApplyToTask(s: State, step: Step): State {
    match step
    case Recover(t, ok) =>
      if !TaskAt(s, t, Recovering) then s
      else if ok && IsCurrent(s, s.tasks[t].epoch) then Advance(s, t, Recovered)
      else EndTask(s, t)
    case TakeGate(t) =>
      if TaskAt(s, t, Recovered) && s.gate == Free then Advance(s, t, Gated).(gate := TaskHas(t)) else s
    case Check(t) =>
      if !TaskAt(s, t, Gated) then s
      else if IsCurrent(s, s.tasks[t].epoch) then Advance(s, t, Checked)
      else EndTask(s, t).(gate := Free)
    case Launch(t, ok) =>
      if TaskAt(s, t, Checked)
      then EndTask(s, t).(gate := Free, workers := if ok then Some(s.tasks[t].epoch) else s.workers)
      else s
    case _ => s
  }

  function ApplyToStart(s: State, step: Step): State {
    match step
    case CallStart =>
      if s.started then s
      else s.(started := true, starts := s.starts[s.nextId := Swapped], nextId := s.nextId + 1)
    case Forget(i) =>
      if i in s.starts && s.starts[i] == Swapped then s.(stopComplete := false, starts := s.starts[i := Cleared]) else s
    case Spawn(i) =>
      if i in s.starts && s.starts[i] == Cleared
      then s.(epoch := s.epoch + 1, starts := s.starts - {i},
              tasks := s.tasks[s.nextId := Task(s.epoch + 1, Recovering)], nextId := s.nextId + 1)
      else s
    case _ => s
  }

  function AdvanceStop(s: State, i: Id, phase: Stopping): State {
    s.(stops := s.stops[i := phase])
  }

  function ApplyToStop(s: State, step: Step): State {
    match step
    case CallStop => s.(started := false, stops := s.stops[s.nextId := Lowered], nextId := s.nextId + 1)
    case Fence(i) => if StopAt(s, i, Lowered) then AdvanceStop(s, i, Fenced).(epoch := s.epoch + 1) else s
    case StopTakesGate(i) =>
      if StopAt(s, i, Fenced) && s.gate == Free then AdvanceStop(s, i, AtGate).(gate := StopHas(i)) else s
    case StopPort(i, ok) =>
      if !StopAt(s, i, AtGate) then s
      else if s.stopComplete || !ok then s.(gate := Free, stops := s.stops - {i})
      else AdvanceStop(s, i, PortStopped).(workers := None)
    case LowerAgain(i) => if StopAt(s, i, PortStopped) then AdvanceStop(s, i, LoweredAgain).(started := false) else s
    case FenceAgain(i) =>
      if StopAt(s, i, LoweredAgain) then AdvanceStop(s, i, FencedAgain).(epoch := s.epoch + 1) else s
    case FinishStop(i) =>
      if StopAt(s, i, FencedAgain) then s.(stopComplete := true, gate := Free, stops := s.stops - {i}) else s
    case _ => s
  }

  /** This step is the one at which a stop returns without an error. */
  predicate ReturnsOk(s: State, step: Step) {
    || (step.StopPort? && StopAt(s, step.stop, AtGate) && s.stopComplete)
    || (step.FinishStop? && StopAt(s, step.stop, FencedAgain))
  }

  function Run(s: State, steps: seq<Step>): State {
    if steps == [] then s else Apply(Run(s, steps[..|steps| - 1]), steps[|steps| - 1])
  }

  /** No start is called while a stop is in progress, nor a stop while a start is. */
  predicate Apart(s: State, step: Step) {
    && (step.CallStart? ==> s.stops == map[])
    && (step.CallStop? ==> s.starts == map[])
  }

  ghost predicate NoOverlap(s: State, steps: seq<Step>) {
    forall i | 0 <= i < |steps| :: Apart(Run(s, steps[..i]), steps[i])
  }

  ghost predicate NoCall(steps: seq<Step>, call: Step) {
    forall i | 0 <= i < |steps| :: steps[i] != call
  }

  /* ------------------------------ what every run keeps ------------------------------ */

  ghost predicate Outdated(s: State) {
    forall t <- s.tasks :: s.tasks[t].epoch < s.epoch
  }

  /** No task is ahead of its time; and every task is outdated while a start has no epoch yet, once a stop has
    * advanced it, and after that for as long as the flag is down. */
  ghost predicate Dated(s: State) {
    && (forall t <- s.tasks :: s.tasks[t].epoch <= s.epoch)
    && (s.starts != map[] ==> Outdated(s))
    && ((exists i <- s.stops :: !s.stops[i].Lowered?) ==> Outdated(s))
    && (!s.started && s.stops == map[] ==> Outdated(s))
  }

  /** Whoever is past the gate has it. */
  ghost predicate GateKept(s: State) {
    && (forall t | TaskAt(s, t, Gated) || TaskAt(s, t, Checked) :: s.gate == TaskHas(t))
    && (forall i | Holds(s, i) :: s.gate == StopHas(i))
    && (forall t <- s.tasks :: t < s.nextId)
    && (forall i | i in s.starts || i in s.stops :: i < s.nextId)
  }

  ghost predicate OneStart(s: State) {
    && (forall i, j | i in s.starts && j in s.starts :: i == j)
    && (s.starts != map[] ==> s.started && s.stops == map[])
    && (s.stops != map[] ==> !s.started)
  }

  /** A complete stop stands until a start takes it back: no workers, and no task about to launch any. */
  ghost predicate StopStands(s: State) {
    && (s.stopComplete ==>
         && s.workers.None?
         && (forall t :: !TaskAt(s, t, Checked))
         && (s.started ==> exists i :: i in s.starts && s.starts[i] == Swapped))
    && (forall i | Past(s, i) :: s.workers.None?)
  }

  ghost predicate Inv(s: State) {
    Dated(s) && GateKept(s) && OneStart(s) && StopStands(s)
  }

  lemma StopStandsIsKept(s: State, step: Step)
    requires Inv(s) && Apart(s, step)
    ensures StopStands(Apply(s, step))
  {
    var v := Apply(s, step);
    assert step.CallStart? && !s.started ==> v.starts[s.nextId] == Swapped;
    PastIsKept(s, step);
    if v.stopComplete && !s.stopComplete {
      assert Past(s, step.stop) && Holds(s, step.stop) && s.stops != map[];
    }
    forall t | v.stopComplete ensures !TaskAt(v, t, Checked) {
      assert TaskAt(v, t, Checked) ==> TaskAt(s, t, Checked) || TaskAt(s, t, Gated);
    }
  }

  /** No workers come up while a stop that has stopped the port still holds the gate. */
  lemma PastIsKept(s: State, step: Step)
    requires GateKept(s) && forall i | Past(s, i) :: s.workers.None?
    ensures forall i | Past(Apply(s, step), i) :: Apply(s, step).workers.None?
  {
    var v := Apply(s, step);
    forall i | Past(v, i) ensures v.workers.None? {
      assert Past(s, i) || StopAt(s, i, AtGate);
    }
  }

  lemma ApplyKeepsInv(s: State, step: Step)
    requires Inv(s) && Apart(s, step)
    ensures Inv(Apply(s, step))
  {
    DatesAreKept(s, step);
    GateIsKept(s, step);
    StopStandsIsKept(s, step);
  }

  lemma DatesAreKept(s: State, step: Step)
    requires Dated(s) && OneStart(s) && GateKept(s) && Apart(s, step)
    ensures Dated(Apply(s, step)) && OneStart(Apply(s, step))
  {
    if OfTask(step) {
      DatesOnTask(s, step);
    } else if OfStart(step) {
      DatesOnStart(s, step);
    } else {
      DatesOnStop(s, step);
    }
  }

  lemma DatesOnTask(s: State, step: Step)
    requires Dated(s) && OneStart(s)
    ensures Dated(ApplyToTask(s, step)) && OneStart(ApplyToTask(s, step))
  {
  }

  lemma DatesOnStart(s: State, step: Step)
    requires Dated(s) && OneStart(s) && GateKept(s) && Apart(s, step)
    ensures Dated(ApplyToStart(s, step)) && OneStart(ApplyToStart(s, step))
  {
  }

  lemma DatesOnStop(s: State, step: Step)
    requires Dated(s) && OneStart(s) && Apart(s, step)
    ensures Dated(ApplyToStop(s, step)) && OneStart(ApplyToStop(s, step))
  {
    var v := ApplyToStop(s, step);
    if step.CallStop? {
      assert s.nextId in v.stops;
      assert forall i | i in v.stops && !v.stops[i].Lowered? :: i in s.stops && !s.stops[i].Lowered?;
    } else if v != s {
      assert step.stop in s.stops && s.stops != map[];
      if s.stops[step.stop].Lowered? {
        assert Outdated(v);
      } else {
        assert Outdated(s) && Outdated(v);
      }
    }
  }

  lemma GateIsKept(s: State, step: Step)
    requires GateKept(s)
    ensures GateKept(Apply(s, step))
  {
    GateOnTask(s, step);
    GateOnStart(s, step);
    GateOnStop(s, step);
  }

  lemma GateOnTask(s: State, step: Step)
    requires GateKept(s)
    ensures GateKept(ApplyToTask(s, step))
  {
  }

  lemma GateOnStart(s: State, step: Step)
    requires GateKept(s)
    ensures GateKept(ApplyToStart(s, step))
  {
  }

  lemma GateOnStop(s: State, step: Step)
    requires GateKept(s)
    ensures GateKept(ApplyToStop(s, step))
  {
    var v := ApplyToStop(s, step);
    if !OfTask(step) && !OfStart(step) && !step.CallStop? {
      assert Holds(s, step.stop) ==> s.gate == StopHas(step.stop);
    }
    forall i | Holds(v, i) ensures v.gate == StopHas(i) {
      assert Holds(s, i) || StopAt(s, i, Fenced);
    }
    forall t | TaskAt(v, t, Gated) || TaskAt(v, t, Checked) ensures v.gate == TaskHas(t) {
      assert TaskAt(s, t, Gated) || TaskAt(s, t, Checked);
    }
  }

  lemma {:induction false} RunKeepsInv(s: State, steps: seq<Step>)
    requires Inv(s) && NoOverlap(s, steps)
    ensures Inv(Run(s, steps))
  {
    if steps == [] {
    } else {
      var before := steps[..|steps| - 1];
      assert forall i | 0 <= i < |before| :: before[..i] == steps[..i];
      RunKeepsInv(s, before);
      ApplyKeepsInv(Run(s, before), steps[|steps| - 1]);
    }
  }

  /* ------------------------------ after a stop ------------------------------ */

  /** Since `epoch`, nothing was launched for an epoch up to it, and nothing is about to be. */
  ghost predicate Since(epoch: nat, s: State) {
    && epoch <= s.epoch
    && (s.epoch == epoch ==> !s.started || s.starts != map[])
    && (s.workers.Some? ==> s.workers.value > epoch)
    && (forall t | TaskAt(s, t, Checked) :: s.tasks[t].epoch > epoch)
  }

  lemma SinceIsKept(epoch: nat, s: State, step: Step)
    requires Inv(s) && Apart(s, step) && Since(epoch, s)
    ensures Since(epoch, Apply(s, step))
  {
    if OfTask(step) {
      SinceOnTask(epoch, s, step);
    } else if OfStart(step) {
      SinceOnStart(epoch, s, step);
    } else {
      SinceOnStop(epoch, s, step);
    }
  }

  lemma SinceOnTask(epoch: nat, s: State, step: Step)
    requires Dated(s) && Since(epoch, s)
    ensures Since(epoch, ApplyToTask(s, step))
  {
  }

  lemma SinceOnStart(epoch: nat, s: State, step: Step)
    requires OneStart(s) && Since(epoch, s)
    ensures Since(epoch, ApplyToStart(s, step))
  {
    var v := ApplyToStart(s, step);
    assert forall i | i in v.starts :: v.starts != map[];
    assert s.starts != map[] ==> exists i :: i in s.starts;
    assert step.CallStart? && !s.started ==> s.nextId in v.starts;
    assert step.Forget? && step.start in s.starts ==> step.start in v.starts;
  }

  lemma SinceOnStop(epoch: nat, s: State, step: Step)
    requires Since(epoch, s)
    ensures Since(epoch, ApplyToStop(s, step))
  {
  }

  lemma {:induction false} SinceForever(epoch: nat, s: State, steps: seq<Step>)
    requires Inv(s) && NoOverlap(s, steps) && Since(epoch, s)
    ensures Since(epoch, Run(s, steps))
  {
    if steps == [] {
    } else {
      var before := steps[..|steps| - 1];
      assert forall i | 0 <= i < |before| :: before[..i] == steps[..i];
      SinceForever(epoch, s, before);
      RunKeepsInv(s, before);
      SinceIsKept(epoch, Run(s, before), steps[|steps| - 1]);
    }
  }

  /** A task that is still of the current epoch. */
  ghost predicate HasCurrent(s: State) {
    exists t :: t in s.tasks && s.tasks[t].epoch == s.epoch
  }

  /** A start is still on its way to launch workers. */
  ghost predicate Pending(s: State) {
    s.started && (s.starts != map[] || HasCurrent(s))
  }

  /** Nothing runs, and only a new start can change that. */
  ghost predicate Idle(s: State) {
    s.workers.None? && !Pending(s) && forall t :: !TaskAt(s, t, Checked)
  }

  /** A stop that returns without an error finds no workers, and from then on, whatever is still under way,
    * workers run only for a start that was called after it. */
  lemma StopIsFinal(history: seq<Step>, step: Step, later: seq<Step>)
    requires NoOverlap(INITIAL, history + [step]) && ReturnsOk(Run(INITIAL, history), step)
    requires NoOverlap(Run(INITIAL, history + [step]), later)
    ensures Idle(Run(INITIAL, history + [step])) && !Run(INITIAL, history + [step]).started
    ensures var end := Run(Run(INITIAL, history + [step]), later);
      end.workers.Some? ==> end.workers.value > Run(INITIAL, history + [step]).epoch
  {
    var steps := history + [step];
    assert steps[..|history|] == history;
    assert forall i | 0 <= i < |history| :: history[..i] == steps[..i];
    var s := Run(INITIAL, history);
    RunKeepsInv(INITIAL, history);
    assert Apart(s, step);
    ApplyKeepsInv(s, step);
    StoppedNow(s, step);
    SinceForever(Apply(s, step).epoch, Apply(s, step), later);
  }

  lemma StoppedNow(s: State, step: Step)
    requires Inv(s) && ReturnsOk(s, step)
    ensures Idle(Apply(s, step)) && !Apply(s, step).started
    ensures Since(Apply(s, step).epoch, Apply(s, step))
  {
    assert Holds(s, step.stop) && Outdated(s) && s.stops != map[];
    assert step.FinishStop? ==> Past(s, step.stop);
    forall t ensures !TaskAt(Apply(s, step), t, Checked) {
      assert TaskAt(Apply(s, step), t, Checked) ==> TaskAt(s, t, Checked);
    }
  }

  /* ------------------------------ starts that overlap stops ------------------------------ */

  /** What holds over all runs, however starts and stops overlap. */
  ghost predicate Sane(s: State) {
    && GateKept(s)
    && (forall t <- s.tasks :: s.tasks[t].epoch <= s.epoch)
    && (forall i | Past(s, i) :: s.workers.None?)
  }

  lemma EpochsAreKept(s: State, step: Step)
    requires forall t <- s.tasks :: s.tasks[t].epoch <= s.epoch
    ensures forall t <- Apply(s, step).tasks :: Apply(s, step).tasks[t].epoch <= Apply(s, step).epoch
  {
  }

  lemma SaneIsKept(s: State, step: Step)
    requires Sane(s)
    ensures Sane(Apply(s, step))
  {
    GateIsKept(s, step);
    PastIsKept(s, step);
    EpochsAreKept(s, step);
  }

  lemma {:induction false} SaneOverRun(s: State, steps: seq<Step>)
    requires Sane(s)
    ensures Sane(Run(s, steps))
  {
    if steps == [] {
    } else {
      SaneOverRun(s, steps[..|steps| - 1]);
      SaneIsKept(Run(s, steps[..|steps| - 1]), steps[|steps| - 1]);
    }
  }

  lemma IdleIsKept(s: State, step: Step)
    requires Sane(s) && Idle(s) && !step.CallStart?
    ensures Idle(Apply(s, step))
  {
    var v := Apply(s, step);
    forall t ensures !TaskAt(v, t, Checked) {
      assert TaskAt(v, t, Checked) ==> TaskAt(s, t, Gated) && t in s.tasks;
    }
  }

  /** As long as start is not called again, nothing runs. */
  lemma {:induction false} IdleUntilStart(s: State, steps: seq<Step>)
    requires Sane(s) && Idle(s) && NoCall(steps, CallStart)
    ensures Idle(Run(s, steps))
  {
    if steps == [] {
    } else {
      IdleUntilStart(s, steps[..|steps| - 1]);
      SaneOverRun(s, steps[..|steps| - 1]);
      IdleIsKept(Run(s, steps[..|steps| - 1]), steps[|steps| - 1]);
    }
  }

  /** Workers can come up with no other call of start; if `standing`, under a stop that is taken to be
    * complete, so that further stops return at once and leave them running. */
  ghost predicate CanLaunch(v: State, standing: bool) {
    exists later | NoCall(later, CallStart) ::
      var u := Run(v, later); u.workers.Some? && (standing ==> u.stopComplete)
  }

  lemma {:induction false} RunInTwo(s: State, first: seq<Step>, rest: seq<Step>)
    ensures Run(s, first + rest) == Run(Run(s, first), rest)
  {
    if rest == [] {
      assert first + rest == first;
    } else {
      assert (first + rest)[..|first + rest| - 1] == first + rest[..|rest| - 1];
      RunInTwo(s, first, rest[..|rest| - 1]);
    }
  }

  lemma OneStep(s: State, step: Step)
    ensures Run(s, [step]) == Apply(s, step)
  {
    assert [step][..0] == [];
  }

  lemma CanLaunchAfter(s: State, step: Step, standing: bool)
    requires !step.CallStart? && CanLaunch(Apply(s, step), standing)
    ensures CanLaunch(s, standing)
  {
    var later :| NoCall(later, CallStart) &&
      var u := Run(Apply(s, step), later); u.workers.Some? && (standing ==> u.stopComplete);
    OneStep(s, step);
    RunInTwo(s, [step], later);
    assert NoCall([step] + later, CallStart);
  }

  /** A current task goes on to launch, if it is let. */
  lemma TaskLaunches(s: State, t: Id, standing: bool)
    requires s.started && s.gate == Free && (standing ==> s.stopComplete) && t in s.tasks
    requires s.tasks[t].epoch == s.epoch && (TaskAt(s, t, Recovering) || TaskAt(s, t, Recovered))
    ensures CanLaunch(s, standing)
    decreases TaskAt(s, t, Recovering)
  {
    if TaskAt(s, t, Recovering) {
      TaskLaunches(Apply(s, Recover(t, true)), t, standing);
      CanLaunchAfter(s, Recover(t, true), standing);
    } else {
      GatedLaunches(Apply(s, TakeGate(t)), t, standing);
      CanLaunchAfter(s, TakeGate(t), standing);
    }
  }

  lemma GatedLaunches(s: State, t: Id, standing: bool)
    requires s.started && (standing ==> s.stopComplete) && TaskAt(s, t, Gated) && s.tasks[t].epoch == s.epoch
    ensures CanLaunch(s, standing)
  {
    var u := Apply(s, Check(t));
    OneStep(u, Launch(t, true));
    assert NoCall([Launch(t, true)], CallStart) && Run(u, [Launch(t, true)]).workers.Some?;
    CanLaunchAfter(s, Check(t), standing);
  }

  /** So does a start that has forgotten the last stop, or is about to. */
  lemma StartLaunches(s: State, i: Id, standing: bool)
    requires s.started && s.gate == Free && i in s.starts
    requires standing ==> s.stopComplete && s.starts[i] == Cleared
    ensures CanLaunch(s, standing)
    decreases s.starts[i] == Swapped
  {
    if s.starts[i] == Swapped {
      StartLaunches(Apply(s, Forget(i)), i, standing);
      CanLaunchAfter(s, Forget(i), standing);
    } else {
      TaskLaunches(Apply(s, Spawn(i)), s.nextId, standing);
      CanLaunchAfter(s, Spawn(i), standing);
    }
  }

  /** What a stop leaves when it returns without an error, however it was overlapped. */
  lemma AtReturn(s: State, step: Step)
    requires Sane(s) && ReturnsOk(s, step)
    ensures var v := Apply(s, step);
      && v.gate == Free && v.stopComplete && (step.FinishStop? ==> v.workers.None?)
      && (forall t :: !TaskAt(v, t, Gated) && !TaskAt(v, t, Checked))
      && forall i :: !Holds(v, i)
  {
    var v := Apply(s, step);
    assert Holds(s, step.stop);
    assert step.FinishStop? ==> Past(s, step.stop);
    forall t ensures !TaskAt(v, t, Gated) && !TaskAt(v, t, Checked) {
      assert TaskAt(v, t, Gated) ==> TaskAt(s, t, Gated);
      assert TaskAt(v, t, Checked) ==> TaskAt(s, t, Checked);
    }
    forall i ensures !Holds(v, i) {
      assert Holds(v, i) ==> Holds(s, i);
    }
  }

  /** When a start that overlaps a stop matters, over all runs.  A stop returns without an error: workers run
    * then, or can come up without another call of start, exactly if an earlier stop has missed them, or if
    * the flag is up and some start has not got its epoch yet or has a task of the current one. */
  lemma OverlapMatters(history: seq<Step>, step: Step)
    requires ReturnsOk(Run(INITIAL, history), step)
    ensures var v := Apply(Run(INITIAL, history), step);
      CanLaunch(v, false) <==> v.workers.Some? || Pending(v)
    ensures step.FinishStop? ==> Apply(Run(INITIAL, history), step).workers.None?
  {
    var s := Run(INITIAL, history);
    SaneOverRun(INITIAL, history);
    SaneIsKept(s, step);
    AtReturn(s, step);
    var v := Apply(s, step);
    if v.workers.Some? {
      assert NoCall([], CallStart) && Run(v, []).workers.Some?;
    } else if Pending(v) {
      PendingLaunches(v);
    } else {
      forall later | NoCall(later, CallStart) ensures Run(v, later).workers.None? {
        IdleUntilStart(v, later);
      }
    }
  }

  lemma PendingLaunches(v: State)
    requires v.gate == Free && Pending(v) && forall t :: !TaskAt(v, t, Gated) && !TaskAt(v, t, Checked)
    ensures CanLaunch(v, false)
  {
    if HasCurrent(v) {
      CurrentLaunches(v, false);
    } else {
      var i :| i in v.starts;
      StartLaunches(v, i, false);
    }
  }

  lemma CurrentLaunches(v: State, standing: bool)
    requires v.gate == Free && v.started && HasCurrent(v) && (standing ==> v.stopComplete)
    requires forall t :: !TaskAt(v, t, Gated) && !TaskAt(v, t, Checked)
    ensures CanLaunch(v, standing)
  {
    var t :| t in v.tasks && v.tasks[t].epoch == v.epoch;
    assert TaskAt(v, t, v.tasks[t].phase);
    TaskLaunches(v, t, standing);
  }

  /** A start that has forgotten the last stop too early: before a later one was complete. */
  ghost predicate Slipped(s: State) {
    s.started && ((exists i :: i in s.starts && s.starts[i] == Cleared) || HasCurrent(s))
  }

  /** A stop that is taken to be complete has no workers under it, and nothing slips through. */
  ghost predicate Tight(s: State) {
    && (s.stopComplete ==> s.workers.None? && !Slipped(s) && forall t :: !TaskAt(s, t, Checked))
    && forall i | StopAt(s, i, LoweredAgain) || StopAt(s, i, FencedAgain) :: !s.started
  }

  lemma NothingSlips(s: State, step: Step)
    requires forall t <- s.tasks :: s.tasks[t].epoch <= s.epoch
    requires s.stopComplete && !Slipped(s) && !step.CallStart? && Apply(s, step).stopComplete
    ensures !Slipped(Apply(s, step))
  {
  }

  lemma StaysLowered(s: State, step: Step)
    requires !step.CallStart?
    requires forall i | StopAt(s, i, LoweredAgain) || StopAt(s, i, FencedAgain) :: !s.started
    ensures var v := Apply(s, step);
      forall i | StopAt(v, i, LoweredAgain) || StopAt(v, i, FencedAgain) :: !v.started
  {
    var v := Apply(s, step);
    forall i | StopAt(v, i, LoweredAgain) || StopAt(v, i, FencedAgain) ensures !v.started {
      assert StopAt(s, i, LoweredAgain) || StopAt(s, i, FencedAgain) || step == LowerAgain(i);
    }
  }

  lemma TightIsKept(s: State, step: Step)
    requires Sane(s) && Tight(s) && !step.CallStart?
    ensures Tight(Apply(s, step))
  {
    var v := Apply(s, step);
    if v.stopComplete && !s.stopComplete {
      assert Past(s, step.stop) && Holds(s, step.stop) && !s.started;
    } else if v.stopComplete {
      NothingSlips(s, step);
    }
    StaysLowered(s, step);
    forall t | v.stopComplete ensures !TaskAt(v, t, Checked) {
      assert TaskAt(v, t, Checked) ==> TaskAt(s, t, Checked) || (TaskAt(s, t, Gated) && t in s.tasks);
    }
  }

  lemma {:induction false} TightOverRun(s: State, steps: seq<Step>)
    requires Sane(s) && Tight(s) && NoCall(steps, CallStart)
    ensures Tight(Run(s, steps))
  {
    if steps == [] {
    } else {
      TightOverRun(s, steps[..|steps| - 1]);
      SaneOverRun(s, steps[..|steps| - 1]);
      TightIsKept(Run(s, steps[..|steps| - 1]), steps[|steps| - 1]);
    }
  }

  /** When workers can come up that further stops do not stop, over all runs: exactly if they run already at
    * the return, or if the flag is up and some start has forgotten the last stop before this one was complete,
    * and has not got its epoch yet or has a task of the current one. */
  lemma MissedExactly(history: seq<Step>, step: Step)
    requires ReturnsOk(Run(INITIAL, history), step)
    ensures var v := Apply(Run(INITIAL, history), step);
      CanLaunch(v, true) <==> v.workers.Some? || Slipped(v)
  {
    var s := Run(INITIAL, history);
    SaneOverRun(INITIAL, history);
    SaneIsKept(s, step);
    AtReturn(s, step);
    var v := Apply(s, step);
    if v.workers.Some? {
      assert NoCall([], CallStart) && Run(v, []).workers.Some?;
    } else if Slipped(v) {
      SlippedLaunches(v);
    } else {
      assert forall i :: StopAt(v, i, LoweredAgain) || StopAt(v, i, FencedAgain) ==> Holds(v, i);
      forall later | NoCall(later, CallStart)
        ensures var u := Run(v, later); !(u.workers.Some? && u.stopComplete)
      {
        TightOverRun(v, later);
      }
    }
  }

  lemma SlippedLaunches(v: State)
    requires v.gate == Free && v.stopComplete && Slipped(v)
    requires forall t :: !TaskAt(v, t, Gated) && !TaskAt(v, t, Checked)
    ensures CanLaunch(v, true)
  {
    if HasCurrent(v) {
      CurrentLaunches(v, true);
    } else {
      var i :| i in v.starts && v.starts[i] == Cleared;
      StartLaunches(v, i, true);
    }
  }

  /* ------------------------------ concrete runs ------------------------------ */

  /** A stop that nothing interferes with. */
  function WholeStop(i: Id): seq<Step> {
    [CallStop, Fence(i), StopTakesGate(i), StopPort(i, true), LowerAgain(i), FenceAgain(i), FinishStop(i)]
  }

  /** The task `t` of a start, from its recovery to its launch. */
  function WholeTask(t: Id): seq<Step> {
    [Recover(t, true), TakeGate(t), Check(t), Launch(t, true)]
  }

  /** A start raises the flag under a stop while the last one still stands: the stop returns at once. */
  const OVERLAP: seq<Step> := WholeStop(0) + [CallStop, CallStart, Fence(1), StopTakesGate(1), StopPort(1, true)]

  lemma OverlapHappens()
    ensures ReturnsOk(Run(INITIAL, OVERLAP[..11]), OVERLAP[11])
    ensures Run(INITIAL, OVERLAP + [Forget(2), Spawn(2)] + WholeTask(3)).workers == Some(4)
  {
    var rest := [CallStop, CallStart, Fence(1), StopTakesGate(1)];
    assert OVERLAP[..11] == WholeStop(0) + rest;
    FirstStop();
    RunInTwo(INITIAL, WholeStop(0), rest);
    Raised(Run(INITIAL, WholeStop(0)), rest);
    ThenLaunches(OVERLAP[..11]);
    assert OVERLAP == OVERLAP[..11] + [StopPort(1, true)];
  }

  lemma ThenLaunches(steps: seq<Step>)
    requires Run(INITIAL, steps) ==
      State(true, 3, true, StopHas(1), None, map[2 := Swapped], map[1 := AtGate], map[], 3)
    ensures ReturnsOk(Run(INITIAL, steps), StopPort(1, true))
    ensures Run(INITIAL, steps + [StopPort(1, true)] + [Forget(2), Spawn(2)] + WholeTask(3)).workers == Some(4)
  {
    var s, last := Run(INITIAL, steps), StopPort(1, true);
    RunInTwo(INITIAL, steps + [last] + [Forget(2), Spawn(2)], WholeTask(3));
    RunInTwo(INITIAL, steps + [last], [Forget(2), Spawn(2)]);
    RunInTwo(INITIAL, steps, [last]);
    OneStep(s, last);
    assert Apply(s, last).stops == map[];
    RaisedLaunches(Apply(s, last));
  }

  lemma FirstStop()
    ensures Run(INITIAL, WholeStop(0)) == State(false, 2, true, Free, None, map[], map[], map[], 1)
  {
    After7(INITIAL, WholeStop(0));
    StopAloneIs(INITIAL, true);
  }

  lemma Raised(s: State, rest: seq<Step>)
    requires s == State(false, 2, true, Free, None, map[], map[], map[], 1)
    requires rest == [CallStop, CallStart, Fence(1), StopTakesGate(1)]
    ensures Run(s, rest) == State(true, 3, true, StopHas(1), None, map[2 := Swapped], map[1 := AtGate], map[], 3)
  {
    After4(s, rest);
    assert Apply(s, rest[0]) == s.(stops := map[1 := Lowered], nextId := 2);
  }

  lemma RaisedLaunches(s: State)
    requires s == State(true, 3, true, Free, None, map[2 := Swapped], map[], map[], 3)
    ensures Run(Run(s, [Forget(2), Spawn(2)]), WholeTask(3)).workers == Some(4)
  {
    After2(s, [Forget(2), Spawn(2)]);
    var u := Run(s, [Forget(2), Spawn(2)]);
    assert Apply(s, Forget(2)) == s.(stopComplete := false, starts := map[2 := Cleared]);
    assert u.tasks == map[3 := Task(4, Recovering)] && u.started && u.epoch == 4 && u.gate == Free;
    After4(u, WholeTask(3));
    TaskAloneIs(u, 3, true, true);
  }

  /** A start comes in the middle of the last stores of a stop, and launches: the next stop returns without an
    * error, and the workers run on. */
  const MISSED: seq<Step> := [CallStop, Fence(0), StopTakesGate(0), StopPort(0, true)]
                             + [LowerAgain(0), CallStart, Forget(1), FenceAgain(0)]
                             + [FinishStop(0), Spawn(1)] + WholeTask(2)
                             + [CallStop, Fence(3)]

  lemma MissedHappens()
    ensures var s := Run(INITIAL, MISSED + [StopTakesGate(3)]);
      ReturnsOk(s, StopPort(3, true)) && Apply(s, StopPort(3, true)).workers == Some(3)
  {
    var a, b, c, d := MISSED[..4], MISSED[4..8], [FinishStop(0), Spawn(1)], [CallStop, Fence(3)];
    assert MISSED == a + b + c + WholeTask(2) + d;
    RunInTwo(INITIAL, a, b);
    RunInTwo(INITIAL, a + b, c);
    RunInTwo(INITIAL, a + b + c, WholeTask(2));
    RunInTwo(INITIAL, a + b + c + WholeTask(2), d);
    RunInTwo(INITIAL, MISSED, [StopTakesGate(3)]);
    Half(a);
    Interrupted(Run(INITIAL, a), b);
    MissedLaunches(Run(INITIAL, a + b), c);
    MissedStays(Run(INITIAL, a + b + c + WholeTask(2)), d);
  }

  lemma Half(steps: seq<Step>)
    requires steps == [CallStop, Fence(0), StopTakesGate(0), StopPort(0, true)]
    ensures Run(INITIAL, steps) == State(false, 1, false, StopHas(0), None, map[], map[0 := PortStopped], map[], 1)
  {
    After4(INITIAL, steps);
    GatedAlone(INITIAL);
  }

  lemma Interrupted(s: State, steps: seq<Step>)
    requires s == State(false, 1, false, StopHas(0), None, map[], map[0 := PortStopped], map[], 1)
    requires steps == [LowerAgain(0), CallStart, Forget(1), FenceAgain(0)]
    ensures Run(s, steps) ==
      State(true, 2, false, StopHas(0), None, map[1 := Cleared], map[0 := FencedAgain], map[], 2)
  {
    After4(s, steps);
    LoweredThenStarted(s);
    ClearedThenFenced(Apply(Apply(s, steps[0]), steps[1]));
  }

  lemma ClearedThenFenced(s: State)
    requires s == State(true, 1, false, StopHas(0), None, map[1 := Swapped], map[0 := LoweredAgain], map[], 2)
    ensures Apply(Apply(s, Forget(1)), FenceAgain(0)) ==
      State(true, 2, false, StopHas(0), None, map[1 := Cleared], map[0 := FencedAgain], map[], 2)
  {
    assert Apply(s, Forget(1)) == s.(starts := map[1 := Cleared]);
  }

  lemma LoweredThenStarted(s: State)
    requires s == State(false, 1, false, StopHas(0), None, map[], map[0 := PortStopped], map[], 1)
    ensures Apply(Apply(s, LowerAgain(0)), CallStart) ==
      State(true, 1, false, StopHas(0), None, map[1 := Swapped], map[0 := LoweredAgain], map[], 2)
  {
    assert Apply(s, LowerAgain(0)) == s.(stops := map[0 := LoweredAgain]);
  }

  lemma MissedLaunches(s: State, steps: seq<Step>)
    requires s == State(true, 2, false, StopHas(0), None, map[1 := Cleared], map[0 := FencedAgain], map[], 2)
    requires steps == [FinishStop(0), Spawn(1)]
    ensures Run(Run(s, steps), WholeTask(2)) == State(true, 3, true, Free, Some(3), map[], map[], map[], 3)
  {
    After2(s, steps);
    var u := Run(s, steps);
    assert Apply(s, FinishStop(0)) == State(true, 2, true, Free, None, map[1 := Cleared], map[], map[], 2);
    assert u == State(true, 3, true, Free, None, map[], map[], map[2 := Task(3, Recovering)], 3);
    After4(u, WholeTask(2));
    TaskAloneIs(u, 2, true, true);
  }

  lemma MissedStays(s: State, steps: seq<Step>)
    requires s == State(true, 3, true, Free, Some(3), map[], map[], map[], 3)
    requires steps == [CallStop, Fence(3)]
    ensures var u := Run(Run(s, steps), [StopTakesGate(3)]);
      ReturnsOk(u, StopPort(3, true)) && Apply(u, StopPort(3, true)).workers == Some(3)
  {
    After2(s, steps);
    OneStep(Run(s, steps), StopTakesGate(3));
    GatedAlone(s);
  }

  lemma After2(s: State, steps: seq<Step>)
    requires |steps| == 2
    ensures Run(s, steps) == Apply(Apply(s, steps[0]), steps[1])
  {
    assert steps[..1] == [steps[0]];
    OneStep(s, steps[0]);
  }

  lemma After4(s: State, steps: seq<Step>)
    requires |steps| == 4
    ensures Run(s, steps) == Apply(Apply(Apply(Apply(s, steps[0]), steps[1]), steps[2]), steps[3])
  {
    After2(s, steps[..2]);
    After2(Run(s, steps[..2]), steps[2..]);
    RunInTwo(s, steps[..2], steps[2..]);
    assert steps == steps[..2] + steps[2..];
  }

  lemma After7(s: State, steps: seq<Step>)
    requires |steps| == 7
    ensures Run(s, steps[..4]) == Apply(Apply(Apply(Apply(s, steps[0]), steps[1]), steps[2]), steps[3])
    ensures Run(s, steps) == Apply(Apply(Apply(Run(s, steps[..4]), steps[4]), steps[5]), steps[6])
  {
    After4(s, steps[..4]);
    After2(Run(s, steps[..4]), steps[4..6]);
    RunInTwo(s, steps[..4], steps[4..6]);
    assert steps[..6] == steps[..4] + steps[4..6];
    OneStep(Run(s, steps[..6]), steps[6]);
    RunInTwo(s, steps[..6], [steps[6]]);
    assert steps == steps[..6] + [steps[6]];
  }

  /** The steps of a recovery task that nothing interferes with. */
  function TaskAlone(s: State, t: Id, recovered: bool, launched: bool): State {
    Apply(Apply(Apply(Apply(s, Recover(t, recovered)), TakeGate(t)), Check(t)), Launch(t, launched))
  }

  lemma TaskAloneIs(s: State, t: Id, recovered: bool, launched: bool)
    requires TaskAt(s, t, Recovering) && s.gate == Free
    ensures TaskAlone(s, t, recovered, launched) ==
      EndTask(s, t).(workers := if recovered && IsCurrent(s, s.tasks[t].epoch) && launched
                                then Some(s.epoch) else s.workers)
  {
    if recovered && IsCurrent(s, s.tasks[t].epoch) {
      TaskPasses(s, t);
      var v := Advance(s, t, Checked).(gate := TaskHas(t));
      assert v.tasks - {t} == s.tasks - {t};
    }
  }

  lemma TaskPasses(s: State, t: Id)
    requires TaskAt(s, t, Recovering) && s.gate == Free && IsCurrent(s, s.tasks[t].epoch)
    ensures Apply(Apply(Apply(s, Recover(t, true)), TakeGate(t)), Check(t)) ==
      Advance(s, t, Checked).(gate := TaskHas(t))
  {
    var u := Apply(s, Recover(t, true));
    assert u == Advance(s, t, Recovered);
    var v := Apply(u, TakeGate(t));
    assert v == Advance(s, t, Gated).(gate := TaskHas(t));
  }

  /* ------------------------------ the calls ------------------------------ */

  /** The application object, with the calls that are in progress. */
  class MediaApplication {
    var started: bool
    var epoch: nat
    var stopComplete: bool
    var gate: Gate
    var workers: Option<nat>
    var starts: map<Id, Starting>
    var stops: map<Id, Stopping>
    var tasks: map<Id, Task>
    var nextId: Id

    ghost function View(): State
      reads this
    {
      State(started, epoch, stopComplete, gate, workers, starts, stops, tasks, nextId)
    }

    /** Starts once; the recovery goes on in a task of its own. */
    method Start()
      requires nextId !in starts
      modifies this
      ensures old(started) ==> View() == old(View())
      ensures !old(started) ==>
        View() == Apply(Apply(Apply(old(View()), CallStart), Forget(old(nextId))), Spawn(old(nextId)))
      ensures !old(started) ==>
        && started && !stopComplete && epoch == old(epoch) + 1 && workers == old(workers) && gate == old(gate)
        && tasks == old(tasks)[old(nextId) + 1 := Task(epoch, Recovering)]
    {
      if started {
        return;
      }
      ghost var others := starts;
      started := true;
      stopComplete := false;
      epoch := epoch + 1;
      tasks := tasks[nextId + 1 := Task(epoch, Recovering)];
      nextId := nextId + 2;
      assert others[old(nextId) := Swapped][old(nextId) := Cleared] - {old(nextId)} == others;
    }

    /** The recovery task: its result counts only while its epoch does, and so does its launch. */
    method RecoveryTask(t: Id, recovered: bool, launched: bool)
      requires TaskAt(View(), t, Recovering) && gate == Free
      modifies this
      ensures View() == TaskAlone(old(View()), t, recovered, launched)
      ensures workers == if recovered && old(IsCurrent(View(), tasks[t].epoch)) && launched then Some(old(epoch))
                         else old(workers)
    {
      TaskAloneIs(View(), t, recovered, launched);
      var task := tasks[t];
      tasks := tasks - {t};
      if !recovered || !(started && epoch == task.epoch) {
        return;
      }
      if !(started && epoch == task.epoch) {
        return;
      }
      if launched {
        workers := Some(task.epoch);
      }
    }

    /** Stops the workers, unless the last stop still stands. */
    method Stop(portStops: bool) returns (ok: bool)
      requires gate == Free && nextId !in stops
      modifies this
      ensures View() == StopAlone(old(View()), portStops)
      ensures ok <==> old(stopComplete) || portStops
      ensures !started && epoch > old(epoch) && tasks == old(tasks)
      ensures workers == if !old(stopComplete) && portStops then None else old(workers)
      ensures stopComplete <==> ok
    {
      StopAloneIs(View(), portStops);
      started := false;
      epoch := epoch + 1;
      nextId := nextId + 1;
      if stopComplete {
        return true;
      }
      if !portStops {
        return false;
      }
      workers := None;
      started := false;
      epoch := epoch + 1;
      stopComplete := true;
      return true;
    }
  }

  /** The steps of a stop that nothing interferes with. */
  function StopAlone(s: State, portStops: bool): State {
    FromGate(ToGate(s), s.nextId, portStops)
  }

  function ToGate(s: State): State {
    Apply(Apply(Apply(s, CallStop), Fence(s.nextId)), StopTakesGate(s.nextId))
  }

  function FromGate(gated: State, i: Id, portStops: bool): State {
    Apply(Apply(Apply(Apply(gated, StopPort(i, portStops)), LowerAgain(i)), FenceAgain(i)), FinishStop(i))
  }

  lemma StopAloneIs(s: State, portStops: bool)
    requires s.gate == Free && s.nextId !in s.stops
    ensures StopAlone(s, portStops) ==
      if s.stopComplete || !portStops then s.(started := false, epoch := s.epoch + 1, nextId := s.nextId + 1)
      else s.(started := false, epoch := s.epoch + 2, nextId := s.nextId + 1, workers := None, stopComplete := true)
  {
    if s.stopComplete || !portStops {
      StopReturns(s, portStops);
    } else {
      StopCompletes(s);
    }
  }

  lemma StopReturns(s: State, portStops: bool)
    requires s.gate == Free && s.nextId !in s.stops && (s.stopComplete || !portStops)
    ensures StopAlone(s, portStops) == s.(started := false, epoch := s.epoch + 1, nextId := s.nextId + 1)
  {
    var i := s.nextId;
    GatedAlone(s);
    var gated := AdvanceStop(s, i, AtGate).
      (started := false, epoch := s.epoch + 1, gate := StopHas(i), nextId := i + 1);
    assert gated.stops - {i} == s.stops;
    assert Apply(gated, StopPort(i, portStops)) == gated.(gate := Free, stops := s.stops);
    ReturnedAlone(gated.(gate := Free, stops := s.stops), i);
  }

  lemma StopCompletes(s: State)
    requires s.gate == Free && s.nextId !in s.stops && !s.stopComplete
    ensures StopAlone(s, true) ==
      s.(started := false, epoch := s.epoch + 2, nextId := s.nextId + 1, workers := None, stopComplete := true)
  {
    GatedAlone(s);
    StopsAgain(s, ToGate(s));
  }

  lemma StopsAgain(s: State, gated: State)
    requires s.nextId !in s.stops && !s.stopComplete && s.gate == Free
    requires gated == AdvanceStop(s, s.nextId, AtGate).
      (started := false, epoch := s.epoch + 1, gate := StopHas(s.nextId), nextId := s.nextId + 1)
    ensures FromGate(gated, s.nextId, true) ==
      s.(started := false, epoch := s.epoch + 2, nextId := s.nextId + 1, workers := None, stopComplete := true)
  {
    StoppedAlone(gated, s.nextId);
    assert gated.stops - {s.nextId} == s.stops;
  }

  lemma ReturnedAlone(s: State, i: Id)
    requires i !in s.stops
    ensures Apply(Apply(Apply(s, LowerAgain(i)), FenceAgain(i)), FinishStop(i)) == s
  {
  }

  lemma GatedAlone(s: State)
    requires s.gate == Free && s.nextId !in s.stops
    ensures ToGate(s) ==
      AdvanceStop(s, s.nextId, AtGate).
        (started := false, epoch := s.epoch + 1, gate := StopHas(s.nextId), nextId := s.nextId + 1)
  {
    var s1 := Apply(s, CallStop);
    assert s1 == AdvanceStop(s, s.nextId, Lowered).(started := false, nextId := s.nextId + 1);
    var s2 := Apply(s1, Fence(s.nextId));
    assert s2 == AdvanceStop(s1, s.nextId, Fenced).(epoch := s.epoch + 1);
  }

  lemma StoppedAlone(gated: State, i: Id)
    requires StopAt(gated, i, AtGate) && !gated.stopComplete && !gated.started
    ensures FromGate(gated, i, true) ==
      gated.(epoch := gated.epoch + 1, workers := None, stopComplete := true, gate := Free, stops := gated.stops - {i})
  {
    var s1 := Apply(gated, StopPort(i, true));
    assert s1 == AdvanceStop(gated, i, PortStopped).(workers := None);
    var s2 := Apply(s1, LowerAgain(i));
    assert s2 == AdvanceStop(s1, i, LoweredAgain);
    var s3 := Apply(s2, FenceAgain(i));
    assert s3 == AdvanceStop(s2, i, FencedAgain).(epoch := s2.epoch + 1);
    assert s3.stops - {i} == gated.stops - {i};
  }
}
