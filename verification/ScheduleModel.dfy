/**
 * The cooperative scheduler of playdate/schedule/schedule.go as a pure machine.
 *
 * A step is user code: it may make any public call before it returns its
 * action.  The environment therefore supplies, for the n-th step run overall,
 * a script of calls and an action; quantifying over environments covers every
 * re-entrant behaviour.  It also supplies the value of every clock reading.
 */
module ScheduleModel {
  import opened Common

  const MAX_DELAY: uint32 := 0x7FFF_FFFF

  /** A step closure; 0 is Go's nil. */
  type Step = nat

  /** A task identifier: the generation above 32 bits of slot number. */
  type Task = nat

  datatype Action = Yield | Complete | Delay(ms: uint32) | Repeat(ms: uint32)

  datatype Error = ErrConfig | ErrTask | ErrFull | ErrDelay | ErrTerminated | ErrUpdating

  datatype Slot = Slot(step: Step, due: uint32, generation: uint32, queued: bool, repeating: bool)

  datatype Config = Config(capacity: int, stepsPerFrame: int, budget: uint32)

  datatype Frame = Frame(steps: nat, completed: nat, pending: int, exhausted: bool)

  /** The public calls a caller or a running step can make. */
  datatype Call =
    | Schedule(step: Step)
    | ScheduleAfter(ms: uint32, step: Step)
    | ScheduleAt(deadline: uint32, step: Step)
    | Cancel(task: Task)
    | Pending(task: Task)
    | Update
    | Terminate

  datatype Behaviour = Behaviour(calls: seq<Call>, action: Action)

  datatype Env = Env(clock: nat -> uint32, behave: (Step, nat) -> Behaviour)

  /**
   * What happened so far: tasks that a call put into the queue, steps that
   * ran, and tasks that were cancelled.  The counts are clock readings made:
   * up to the one a call or a run goes by, and when the run's step returned.
   */
  datatype Event =
    | Scheduled(index: nat, generation: uint32, call: Call, ticks: nat)
    | Ran(index: nat, generation: uint32, due: uint32, action: Action, began: nat, returned: nat)
    | Cancelled(index: nat, generation: uint32)

  /** `ticks` counts clock readings, `runs` counts executed steps. */
  datatype State = State(
    tasks: seq<Slot>, ring: seq<nat>, pending: int, terminated: bool, updating: bool,
    remaining: int, ticks: nat, runs: nat, log: seq<Event>)

  function InitialState(capacity: nat): State
  {
    State(seq(capacity, _ => Slot(0, 0, 0, false, false)), [], 0, false, false, 0, 0, 0, [])
  }

  /** int32(now - deadline) >= 0 */
  predicate Reached(now: uint32, deadline: uint32)
  {
    (now - deadline) % 0x1_0000_0000 < 0x8000_0000
  }

  function Add32(a: int, b: int): uint32
  {
    (a + b) % 0x1_0000_0000
  }

  function Sub32(a: int, b: int): uint32
  {
    (a - b) % 0x1_0000_0000
  }

  /** The generation counter skips zero when it wraps. */
  function Bump(generation: uint32): uint32
  {
    if generation == 0xFFFF_FFFF then 1 else generation + 1
  }

  function MakeTask(index: nat, generation: uint32): Task
  {
    generation * 0x1_0000_0000 + (index + 1) % 0x1_0000_0000
  }

  /** The slot a task identifier names, when it is live. */
  function Identify(tasks: seq<Slot>, task: Task): (r: Option<nat>)
    ensures r.Some? ==> r.value < |tasks| && tasks[r.value].queued
  {
    var index := task % 0x1_0000_0000 - 1;
    if task == 0 || index < 0 || index >= |tasks| then None
    else if tasks[index].queued && tasks[index].generation == task / 0x1_0000_0000 then Some(index)
    else None
  }

  function FirstFree(tasks: seq<Slot>, from: nat): (r: nat)
    requires from <= |tasks|
    ensures from <= r <= |tasks|
    ensures r < |tasks| ==> !tasks[r].queued
    ensures forall i :: from <= i < r ==> tasks[i].queued
    decreases |tasks| - from
  {
    if from == |tasks| || !tasks[from].queued then from else FirstFree(tasks, from + 1)
  }

  function Now(env: Env, s: State): uint32
  {
    env.clock(s.ticks)
  }

  function Tick(s: State): State
  {
    s.(ticks := s.ticks + 1)
  }

  function Enqueue(s: State, step: Step, deadline: uint32, call: Call): (State, Result<Task, Error>)
  {
    if s.terminated then (s, Err(ErrTerminated))
    else if step == 0 then (s, Err(ErrTask))
    else if s.pending == |s.tasks| then (s, Err(ErrFull))
    else
      var index := FirstFree(s.tasks, 0);
      if index == |s.tasks| then (s, Err(ErrFull))
      else
        var generation := Bump(s.tasks[index].generation);
        (s.(tasks := s.tasks[index := Slot(step, deadline, generation, true, false)],
            ring := s.ring + [index],
            pending := s.pending + 1,
            log := s.log + [Scheduled(index, generation, call, s.ticks)]),
         Ok(MakeTask(index, generation)))
  }

  function DoSchedule(env: Env, s: State, step: Step): (State, Result<Task, Error>)
  {
    Enqueue(Tick(s), step, Now(env, s), Schedule(step))
  }

  function DoScheduleAfter(env: Env, s: State, ms: uint32, step: Step): (State, Result<Task, Error>)
  {
    if ms > MAX_DELAY then (s, Err(ErrDelay)) else Enqueue(Tick(s), step, Add32(Now(env, s), ms), ScheduleAfter(ms, step))
  }

  function DoScheduleAt(env: Env, s: State, deadline: uint32, step: Step): (State, Result<Task, Error>)
  {
    if !Reached(Now(env, s), deadline) && Sub32(deadline, Now(env, s)) > MAX_DELAY
    then (Tick(s), Err(ErrDelay))
    else Enqueue(Tick(s), step, deadline, ScheduleAt(deadline, step))
  }

  /** Drops every occurrence of `target`, keeping the order of the rest. */
  function Without(ring: seq<nat>, target: nat): (r: seq<nat>)
    ensures |r| <= |ring|
  {
    if ring == [] then []
    else if ring[0] == target then Without(ring[1..], target)
    else [ring[0]] + Without(ring[1..], target)
  }

  function Release(s: State, index: nat): State
    requires index < |s.tasks|
  {
    var slot := s.tasks[index];
    if slot.queued
    then s.(tasks := s.tasks[index := Slot(0, slot.due, slot.generation, false, false)], pending := s.pending - 1)
    else s
  }

  function DoCancel(s: State, task: Task): (State, bool)
  {
    match Identify(s.tasks, task)
    case None => (s, false)
    case Some(index) => (CancelSlot(s, index), true)
  }

  /** Takes the slot out of the ring, charging `remaining` inside an update, and frees it. */
  function CancelSlot(s: State, index: nat): State
    requires index < |s.tasks|
  {
    var r := s.(
      ring := Without(s.ring, index),
      remaining := if index in s.ring && s.updating then s.remaining - 1 else s.remaining,
      log := s.log + [Cancelled(index, s.tasks[index].generation)]);
    Release(r, index)
  }

  function DoTerminate(s: State): State
  {
    s.(tasks := seq(|s.tasks|, i requires 0 <= i < |s.tasks| => s.tasks[i].(step := 0, queued := false)),
       ring := [], pending := 0, remaining := 0, terminated := true)
  }

  /** A call made from inside a running step; a nested Update is refused and changes nothing. */
  function NestedCall(env: Env, s: State, call: Call): (r: State)
    ensures |r.tasks| == |s.tasks| && r.updating == s.updating && r.runs == s.runs
    ensures r.remaining <= s.remaining || r.remaining == 0
    ensures s.terminated ==> r.terminated
    ensures s.ticks <= r.ticks && s.log <= r.log
  {
    match call
    case Schedule(step) => DoSchedule(env, s, step).0
    case ScheduleAfter(ms, step) => DoScheduleAfter(env, s, ms, step).0
    case ScheduleAt(deadline, step) => DoScheduleAt(env, s, deadline, step).0
    case Cancel(task) => DoCancel(s, task).0
    case Pending(_) => s
    case Update => s
    case Terminate => DoTerminate(s)
  }

  function RunCalls(env: Env, s: State, calls: seq<Call>): (r: State)
    ensures |r.tasks| == |s.tasks| && r.updating == s.updating && r.runs == s.runs
    ensures r.remaining <= s.remaining || r.remaining <= 0
    ensures s.terminated ==> r.terminated
    ensures s.ticks <= r.ticks && s.log <= r.log
    decreases |calls|
  {
    if calls == [] then s else RunCalls(env, NestedCall(env, s, calls[0]), calls[1..])
  }

  /** How often a step's calls read the clock: once for every call that schedules, unless its delay is refused. */
  function Readings(calls: seq<Call>): nat
  {
    if calls == [] then 0
    else
      (match calls[0]
       case Schedule(_) => 1
       case ScheduleAfter(ms, _) => if ms <= MAX_DELAY then 1 else 0
       case ScheduleAt(_, _) => 1
       case _ => 0) + Readings(calls[1..])
  }

  /** How one turn of the update loop ends. */
  datatype Stop = Next | Break | Fail(error: Error)

  datatype Turn = Turn(s: State, frame: Frame, now: uint32, stop: Stop)

  /** The state once `index`'s step has started and made all its calls. */
  function AfterCalls(env: Env, s: State, index: nat): (r: State)
    requires index < |s.tasks|
    ensures |r.tasks| == |s.tasks| && r.updating == s.updating
    ensures r.remaining <= s.remaining || r.remaining <= 0
    ensures s.ticks <= r.ticks && s.log <= r.log
  {
    RunCalls(env, Started(env, s, index), Behave(env, s, index).calls)
  }

  function Behave(env: Env, s: State, index: nat): Behaviour
    requires index < |s.tasks|
  {
    env.behave(s.tasks[index].step, s.runs)
  }

  function Started(env: Env, s: State, index: nat): State
    requires index < |s.tasks|
  {
    var slot := s.tasks[index];
    var behaviour := Behave(env, s, index);
    s.(runs := s.runs + 1,
       log := s.log + [Ran(index, slot.generation, slot.due, behaviour.action, s.ticks, s.ticks + Readings(behaviour.calls))])
  }

  /** The turn once the popped task is known to be due: run its step, apply its action. */
  function RunTask(env: Env, s: State, frame: Frame, now: uint32, index: nat): (r: Turn)
    requires index < |s.tasks|
    ensures |r.s.tasks| == |s.tasks| && r.s.updating == s.updating
    ensures r.s.remaining <= s.remaining || r.s.remaining <= 0
    ensures s.ticks <= r.s.ticks && s.log <= r.s.log
    ensures r.stop != Break
  {
    hide AfterCalls, ApplyAction;
    var slot := s.tasks[index];
    var t := AfterCalls(env, s, index);
    var counted := frame.(steps := frame.steps + 1);
    if t.terminated then
      Turn(t, Frame(counted.steps, 0, 0, false), now, Fail(ErrTerminated))
    else if !t.tasks[index].queued || t.tasks[index].generation != slot.generation then
      Turn(t, counted, now, Next)
    else
      ApplyAction(env, t, counted, now, index, slot.due, Behave(env, s, index).action)
  }

  function ApplyAction(env: Env, t: State, frame: Frame, now: uint32, index: nat, previousDue: uint32, action: Action): (r: Turn)
    requires index < |t.tasks|
    ensures |r.s.tasks| == |t.tasks| && r.s.updating == t.updating && r.s.remaining == t.remaining
    ensures t.ticks <= r.s.ticks && r.s.log == t.log
    ensures r.stop != Break
  {
    var slot := t.tasks[index];
    var finished := frame.(completed := frame.completed + 1);
    match action
    case Complete => Turn(Release(t, index), finished, now, Next)
    case Delay(ms) =>
      if ms > MAX_DELAY then
        var r := Release(t, index);
        Turn(r, finished.(pending := r.pending), now, Fail(ErrDelay))
      else
        Turn(Requeue(Tick(t), index, Add32(Now(env, t), ms), false), frame, now, Next)
    case Repeat(ms) =>
      if ms > MAX_DELAY || ms == 0 then
        var r := Release(t, index);
        Turn(r, finished.(pending := r.pending), now, Fail(ErrDelay))
      else
        Turn(Requeue(t, index, Add32(previousDue, ms), true), frame, now, Next)
    case Yield => Turn(Requeue(t, index, now, false), frame, now, Next)
  }

  function Requeue(s: State, index: nat, due: uint32, repeating: bool): State
    requires index < |s.tasks|
  {
    s.(tasks := s.tasks[index := s.tasks[index].(due := due, repeating := repeating)], ring := s.ring + [index])
  }

  function Pop(s: State): State
    requires s.ring != []
  {
    s.(ring := s.ring[1..], remaining := s.remaining - 1)
  }

  /** Whether this turn looks at the time budget before it pops. */
  predicate ChecksBudget(config: Config, frame: Frame)
  {
    frame.steps > 0 && config.budget != 0
  }

  /** Pops the ring's head and runs it when due, or puts it back at the end. */
  function Examine(env: Env, config: Config, s: State, frame: Frame, now: uint32): (r: Turn)
    requires s.ring != [] && s.ring[0] < |s.tasks| && s.remaining > 0
    ensures |r.s.tasks| == |s.tasks| && r.s.updating == s.updating
    ensures r.s.remaining < s.remaining && r.stop != Break
    ensures s.ticks <= r.s.ticks && s.log <= r.s.log
  {
    hide RunTask;
    var index := s.ring[0];
    var popped := Pop(s);
    if !popped.tasks[index].queued then Turn(popped, frame, now, Next)
    else if ChecksBudget(config, frame) then RunOrDefer(env, popped, frame, now, index)
    else RunOrDefer(env, Tick(popped), frame, Now(env, popped), index)
  }

  function RunOrDefer(env: Env, s: State, frame: Frame, now: uint32, index: nat): (r: Turn)
    requires index < |s.tasks|
    ensures |r.s.tasks| == |s.tasks| && r.s.updating == s.updating
    ensures r.s.remaining <= s.remaining || r.s.remaining <= 0
    ensures s.ticks <= r.s.ticks && s.log <= r.s.log
    ensures r.stop != Break
  {
    hide RunTask;
    if !Reached(now, s.tasks[index].due) then Turn(s.(ring := s.ring + [index]), frame, now, Next)
    else RunTask(env, s, frame, now, index)
  }

  /** One pass of the loop body of Update; the ring's head is a slot index by the invariant. */
  function TakeTurn(env: Env, config: Config, s: State, frame: Frame, start: uint32, now: uint32): (r: Turn)
    requires s.ring != [] && s.ring[0] < |s.tasks| && s.remaining > 0
    ensures |r.s.tasks| == |s.tasks| && r.s.updating == s.updating
    ensures r.s.remaining < s.remaining || r.stop == Break
    ensures s.ticks <= r.s.ticks && s.log <= r.s.log
  {
    hide Examine;
    if !ChecksBudget(config, frame) then Examine(env, config, s, frame, now)
    else if Sub32(Now(env, s), start) >= config.budget then
      Turn(Tick(s), frame.(exhausted := true), Now(env, s), Break)
    else Examine(env, config, Tick(s), frame, Now(env, s))
  }

  /** The loop of Update; an empty ring or a bad head is excluded by the invariant. */
  function Loop(env: Env, config: Config, s: State, frame: Frame, start: uint32, now: uint32): (r: Turn)
    ensures |r.s.tasks| == |s.tasks| && r.s.updating == s.updating
    ensures s.ticks <= r.s.ticks && s.log <= r.s.log
    ensures r.stop != Next
    decreases if s.remaining > 0 then s.remaining else 0
  {
    if s.remaining <= 0 || frame.steps >= config.stepsPerFrame || s.ring == [] || s.ring[0] >= |s.tasks| then
      Turn(s, frame, now, Break)
    else
      var t := TakeTurn(env, config, s, frame, start, now);
      if t.stop == Next then Loop(env, config, t.s, t.frame, start, t.now) else t
  }

  datatype UpdateResult = UpdateResult(s: State, frame: Frame, error: Option<Error>)

  function DoUpdate(env: Env, config: Config, s: State): UpdateResult
  {
    if s.terminated then UpdateResult(s, Frame(0, 0, 0, false), Some(ErrTerminated))
    else if s.updating then UpdateResult(s, Frame(0, 0, s.pending, false), Some(ErrUpdating))
    else EndFrame(Loop(env, config, Begin(s), Frame(0, 0, 0, false), Now(env, s), Now(env, s)))
  }

  function EndFrame(t: Turn): UpdateResult
  {
    var ended := t.s.(updating := false);
    if t.stop.Fail? then UpdateResult(ended, t.frame, Some(t.stop.error))
    else UpdateResult(ended, t.frame.(pending := ended.pending), None)
  }

  function Begin(s: State): State
  {
    s.(updating := true, ticks := s.ticks + 1, remaining := |s.ring|)
  }

  /** A call made by the application between frames. */
  function TopCall(env: Env, config: Config, s: State, call: Call): State
  {
    if call == Update then DoUpdate(env, config, s).s else NestedCall(env, s, call)
  }

  /** A whole run: any sequence of public calls, updates included. */
  function Drive(env: Env, config: Config, s: State, calls: seq<Call>): State
    decreases |calls|
  {
    if calls == [] then s else Drive(env, config, TopCall(env, config, s, calls[0]), calls[1..])
  }
}
