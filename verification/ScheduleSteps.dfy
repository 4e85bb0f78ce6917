/**
 * Which step runs.  A run executes the step that the call brought which put
 * the task into its slot, as the next of all runs so far; it returns what that
 * step returns, and a slot without a task holds no step.
 */
module ScheduleSteps {
  import opened Common
  import opened ScheduleModel
  import opened ScheduleInvariant
  import opened ScheduleDue

  /** The step of the last call that put a task into slot `x`. */
  function StepOn(log: seq<Event>, x: nat): Step
  {
    if log == [] then 0
    else
      match log[|log| - 1]
      case Scheduled(index, _, Schedule(step), _) => if index == x then step else StepOn(log[..|log| - 1], x)
      case Scheduled(index, _, ScheduleAfter(_, step), _) => if index == x then step else StepOn(log[..|log| - 1], x)
      case Scheduled(index, _, ScheduleAt(_, step), _) => if index == x then step else StepOn(log[..|log| - 1], x)
      case _ => StepOn(log[..|log| - 1], x)
  }

  function RunCount(log: seq<Event>): nat
  {
    if log == [] then 0 else (if log[|log| - 1].Ran? then 1 else 0) + RunCount(log[..|log| - 1])
  }

  /** A run returns what the slot's step returns at this turn, after as many clock readings as its calls make. */
  ghost predicate ByItsStep(env: Env, before: seq<Event>, event: Event)
  {
    match event
    case Ran(index, _, _, action, began, returned) =>
      env.behave(StepOn(before, index), RunCount(before)).action == action
      && returned == began + Readings(env.behave(StepOn(before, index), RunCount(before)).calls)
    case _ => true
  }

  ghost predicate HoldsStep(s: State, x: nat)
    requires x < |s.tasks|
  {
    s.tasks[x].step == if s.tasks[x].queued then StepOn(s.log, x) else 0
  }

  ghost predicate Stepped(env: Env, s: State)
  {
    && s.runs == RunCount(s.log)
    && (forall k :: 0 <= k < |s.log| ==> ByItsStep(env, s.log[..k], s.log[k]))
    && (forall x: nat :: x < |s.tasks| ==> HoldsStep(s, x))
  }

  lemma SnocSteps(log: seq<Event>, event: Event, x: nat)
    requires !event.Scheduled? || event.index != x
    ensures StepOn(log + [event], x) == StepOn(log, x)
  {
    assert (log + [event])[..|log|] == log;
  }

  lemma SteppedSame(env: Env, s: State, r: State)
    requires Stepped(env, s) && r.tasks == s.tasks && r.log == s.log && r.runs == s.runs
    ensures Stepped(env, r)
  {
    hide ByItsStep;
    forall x: nat | x < |r.tasks| ensures HoldsStep(r, x) {
      assert HoldsStep(s, x);
    }
  }

  /** One event about one slot: the others hold what they held. */
  lemma OneEventStepped(env: Env, s: State, r: State, event: Event)
    requires Stepped(env, s) && |r.tasks| == |s.tasks| && r.log == s.log + [event]
    requires r.runs == (if event.Ran? then s.runs + 1 else s.runs) && ByItsStep(env, s.log, event)
    requires forall x: nat :: x < |s.tasks| && x != event.index ==> r.tasks[x] == s.tasks[x]
    requires event.index < |r.tasks| ==> HoldsStep(r, event.index)
    ensures Stepped(env, r)
  {
    hide ByItsStep, StepOn;
    assert r.log[..|s.log|] == s.log;
    forall k | 0 <= k < |r.log| ensures ByItsStep(env, r.log[..k], r.log[k]) {
      assert k < |s.log| ==> r.log[..k] == s.log[..k] && r.log[k] == s.log[k];
    }
    forall x: nat | x < |r.tasks| ensures HoldsStep(r, x) {
      if x != event.index {
        SnocSteps(s.log, event, x);
        assert HoldsStep(s, x);
      }
    }
  }

  lemma EnqueueStepped(env: Env, s: State, step: Step, deadline: uint32, call: Call)
    requires Stepped(env, s) && (call.Schedule? || call.ScheduleAfter? || call.ScheduleAt?) && call.step == step
    ensures Stepped(env, Enqueue(s, step, deadline, call).0)
  {
    var r := Enqueue(s, step, deadline, call).0;
    if r != s {
      hide Stepped, FirstFree;
      OneEventStepped(env, s, r, r.log[|s.log|]);
    }
  }

  lemma CancelStepped(env: Env, s: State, index: nat)
    requires Stepped(env, s) && index < |s.tasks|
    ensures Stepped(env, CancelSlot(s, index))
  {
    assert HoldsStep(s, index);
    hide Stepped, Without, StepOn;
    OneEventStepped(env, s, CancelSlot(s, index), Cancelled(index, s.tasks[index].generation));
  }

  lemma NestedCallStepped(env: Env, s: State, call: Call)
    requires Stepped(env, s)
    ensures Stepped(env, NestedCall(env, s, call))
  {
    SteppedSame(env, s, Tick(s));
    if call == Terminate {
    } else {
      hide Stepped, Enqueue, CancelSlot;
      match call
      case Schedule(step) => EnqueueStepped(env, Tick(s), step, Now(env, s), call);
      case ScheduleAfter(ms, step) => EnqueueStepped(env, Tick(s), step, Add32(Now(env, s), ms), call);
      case ScheduleAt(deadline, step) => EnqueueStepped(env, Tick(s), step, deadline, call);
      case Cancel(task) =>
        if Identify(s.tasks, task).Some? {
          CancelStepped(env, s, Identify(s.tasks, task).value);
        }
      case _ =>
    }
  }

  lemma {:induction false} RunCallsStepped(env: Env, s: State, calls: seq<Call>)
    requires Stepped(env, s)
    ensures Stepped(env, RunCalls(env, s, calls))
    decreases |calls|
  {
    hide Stepped, NestedCall;
    if calls != [] {
      NestedCallStepped(env, s, calls[0]);
      RunCallsStepped(env, NestedCall(env, s, calls[0]), calls[1..]);
    }
  }

  lemma AfterCallsStepped(env: Env, s: State, index: nat)
    requires Stepped(env, s) && index < |s.tasks| && s.tasks[index].queued
    ensures Stepped(env, AfterCalls(env, s, index))
  {
    var ran := RunOf(env, s, index);
    var started := Started(env, s, index);
    assert HoldsStep(s, index);
    assert ByItsStep(env, s.log, ran);
    SnocSteps(s.log, ran, index);
    StartedLog(env, s, index);
    assert HoldsStep(started, index) && started.runs == s.runs + 1;
    hide Stepped, Behave, StepOn, Started, HoldsStep;
    OneEventStepped(env, s, started, ran);
    RunCallsStepped(env, started, Behave(env, s, index).calls);
  }

  /** A release or a requeue of a queued slot keeps its step, or clears it with the task. */
  lemma ApplyActionStepped(env: Env, t: State, frame: Frame, now: uint32, index: nat, due: uint32, action: Action)
    requires Stepped(env, t) && index < |t.tasks| && t.tasks[index].queued
    ensures Stepped(env, ApplyAction(env, t, frame, now, index, due, action).s)
  {
    hide ByItsStep, StepOn, RunCount;
    var r := ApplyAction(env, t, frame, now, index, due, action).s;
    assert r.runs == t.runs && r.log == t.log;
    forall x: nat | x < |r.tasks| ensures HoldsStep(r, x) {
      assert HoldsStep(t, x);
    }
  }

  lemma RunTaskStepped(env: Env, s: State, frame: Frame, now: uint32, index: nat)
    requires Stepped(env, s) && index < |s.tasks| && s.tasks[index].queued
    ensures Stepped(env, RunTask(env, s, frame, now, index).s)
  {
    hide Stepped, AfterCalls, ApplyAction;
    AfterCallsStepped(env, s, index);
    var t := AfterCalls(env, s, index);
    if t.tasks[index].queued {
      ApplyActionStepped(env, t, frame.(steps := frame.steps + 1), now, index, s.tasks[index].due, Behave(env, s, index).action);
    }
  }

  lemma TakeTurnStepped(env: Env, config: Config, s: State, frame: Frame, start: uint32, now: uint32)
    requires Stepped(env, s) && s.ring != [] && s.ring[0] < |s.tasks| && s.remaining > 0
    ensures Stepped(env, TakeTurn(env, config, s, frame, start, now).s)
  {
    hide Stepped, ChecksBudget, Examine;
    SteppedSame(env, s, Tick(s));
    if ChecksBudget(config, frame) {
      ExamineStepped(env, config, Tick(s), frame, Now(env, s));
    } else {
      ExamineStepped(env, config, s, frame, now);
    }
  }

  lemma ExamineStepped(env: Env, config: Config, s: State, frame: Frame, now: uint32)
    requires Stepped(env, s) && s.ring != [] && s.ring[0] < |s.tasks| && s.remaining > 0
    ensures Stepped(env, Examine(env, config, s, frame, now).s)
  {
    var popped := Pop(s);
    SteppedSame(env, s, popped);
    SteppedSame(env, s, Tick(popped));
    hide Stepped, RunOrDefer, ChecksBudget;
    if popped.tasks[s.ring[0]].queued {
      if ChecksBudget(config, frame) {
        RunOrDeferStepped(env, popped, frame, now, s.ring[0]);
      } else {
        RunOrDeferStepped(env, Tick(popped), frame, Now(env, popped), s.ring[0]);
      }
    }
  }

  lemma RunOrDeferStepped(env: Env, s: State, frame: Frame, now: uint32, index: nat)
    requires Stepped(env, s) && index < |s.tasks| && s.tasks[index].queued
    ensures Stepped(env, RunOrDefer(env, s, frame, now, index).s)
  {
    hide Stepped, RunTask;
    if Reached(now, s.tasks[index].due) {
      RunTaskStepped(env, s, frame, now, index);
    } else {
      SteppedSame(env, s, s.(ring := s.ring + [index]));
    }
  }

  lemma {:induction false} LoopStepped(env: Env, config: Config, s: State, frame: Frame, start: uint32, now: uint32)
    requires Stepped(env, s)
    ensures Stepped(env, Loop(env, config, s, frame, start, now).s)
    decreases if s.remaining > 0 then s.remaining else 0
  {
    hide Stepped, TakeTurn;
    if s.remaining > 0 && frame.steps < config.stepsPerFrame && s.ring != [] && s.ring[0] < |s.tasks| {
      TakeTurnStepped(env, config, s, frame, start, now);
      var t := TakeTurn(env, config, s, frame, start, now);
      if t.stop == Next {
        LoopStepped(env, config, t.s, t.frame, start, t.now);
      }
    }
  }

  lemma TopCallStepped(env: Env, config: Config, s: State, call: Call)
    requires Stepped(env, s)
    ensures Stepped(env, TopCall(env, config, s, call))
  {
    hide Stepped, NestedCall, Loop;
    if call != Update {
      NestedCallStepped(env, s, call);
    } else if !s.terminated && !s.updating {
      var begun := Begin(s);
      SteppedSame(env, s, begun);
      LoopStepped(env, config, begun, Frame(0, 0, 0, false), Now(env, s), Now(env, s));
      var t := Loop(env, config, begun, Frame(0, 0, 0, false), Now(env, s), Now(env, s));
      SteppedSame(env, t.s, t.s.(updating := false));
    }
  }

  lemma {:induction false} DriveStepped(env: Env, config: Config, s: State, calls: seq<Call>)
    requires Stepped(env, s)
    ensures Stepped(env, Drive(env, config, s, calls))
    decreases |calls|
  {
    hide Stepped, TopCall;
    if calls != [] {
      TopCallStepped(env, config, s, calls[0]);
      DriveStepped(env, config, TopCall(env, config, s, calls[0]), calls[1..]);
    }
  }

  /** Every run from a new scheduler, whatever calls are made between frames and from inside steps. */
  lemma RunsTheirSteps(env: Env, config: Config, calls: seq<Call>)
    requires ValidConfig(config)
    ensures Stepped(env, Drive(env, config, InitialState(config.capacity), calls))
  {
    DriveStepped(env, config, InitialState(config.capacity), calls);
  }
}
