/**
 * How long a ready task waits, counted in top-level Update calls, and the
 * cadence of repeating tasks.
 */
module ScheduleWait {
  import opened Common
  import opened ScheduleModel
  import opened ScheduleInvariant

  /** The task in `slot` waits at ring position `p`. */
  ghost predicate Waits(s: State, x: nat, slot: Slot, p: int)
  {
    0 <= p < |s.ring| && s.ring[p] == x && x < |s.tasks| && s.tasks[x] == slot
  }

  ghost predicate Serves(event: Event, x: nat, generation: uint32)
  {
    match event
    case Scheduled(_, _, _, _) => false
    case Ran(index, g, _, _, _, _) => index == x && g == generation
    case Cancelled(index, g) => index == x && g == generation
  }

  /** Since log position `from` the task was run or cancelled. */
  ghost predicate Served(log: seq<Event>, from: nat, x: nat, generation: uint32)
  {
    exists k :: from <= k < |log| && Serves(log[k], x, generation)
  }

  lemma ServedExtends(log: seq<Event>, from: nat, log': seq<Event>, from': nat, x: nat, generation: uint32)
    requires Served(log, from, x, generation) && log <= log' && from' <= from
    ensures Served(log', from', x, generation)
  {
    var k :| from <= k < |log| && Serves(log[k], x, generation);
    assert log'[k] == log[k];
  }

  /** From `s` to `r` the task was served, or everything ended, or it still waits, no further back than `q`. */
  ghost predicate Advances(s: State, r: State, x: nat, slot: Slot, q: int)
  {
    && s.log <= r.log
    && (Served(r.log, |s.log|, x, slot.generation) || r.terminated || Waits(r, x, slot, q))
  }

  // ------------------------------------------------------------ calls

  lemma EnqueueWaits(s: State, hole: Option<nat>, step: Step, deadline: uint32, call: Call, x: nat, slot: Slot, p: int)
    requires Inv(s, hole) && Waits(s, x, slot, p)
    ensures Waits(Enqueue(s, step, deadline, call).0, x, slot, p)
  {
    assert s.ring[p] in s.ring;
  }

  lemma CancelWaits(s: State, hole: Option<nat>, task: Task, x: nat, slot: Slot, p: int) returns (q: int)
    requires Inv(s, hole) && Waits(s, x, slot, p)
    ensures q <= p && Advances(s, DoCancel(s, task).0, x, slot, q)
  {
    q := p;
    var r := DoCancel(s, task).0;
    match Identify(s.tasks, task)
    case None =>
    case Some(index) =>
      if index == x {
        assert Serves(r.log[|s.log|], x, slot.generation);
      } else if index in s.ring {
        var k :| 0 <= k < |s.ring| && s.ring[k] == index;
        WithoutAt(s.ring, k);
        q := if p < k then p else p - 1;
        assert Waits(r, x, slot, q);
      } else {
        WithoutAbsent(s.ring, index);
        assert Waits(r, x, slot, q);
      }
  }

  lemma NestedCallWaits(env: Env, s: State, hole: Option<nat>, call: Call, x: nat, slot: Slot, p: int) returns (q: int)
    requires Inv(s, hole) && Waits(s, x, slot, p)
    ensures q <= p && Advances(s, NestedCall(env, s, call), x, slot, q)
  {
    q := p;
    match call
    case Schedule(step) => EnqueueWaits(Tick(s), hole, step, Now(env, s), call, x, slot, p);
    case ScheduleAfter(ms, step) => EnqueueWaits(Tick(s), hole, step, Add32(Now(env, s), ms), call, x, slot, p);
    case ScheduleAt(deadline, step) => EnqueueWaits(Tick(s), hole, step, deadline, call, x, slot, p);
    case Cancel(task) => q := CancelWaits(s, hole, task, x, slot, p);
    case Pending(_) =>
    case Update =>
    case Terminate =>
  }

  lemma {:induction false} RunCallsWaits(env: Env, s: State, hole: Option<nat>, calls: seq<Call>, x: nat, slot: Slot, p: int)
    returns (q: int)
    requires Inv(s, hole) && Waits(s, x, slot, p)
    ensures q <= p && Advances(s, RunCalls(env, s, calls), x, slot, q)
    decreases |calls|
  {
    hide Inv, NestedCall, Served, Waits;
    q := p;
    if calls != [] {
      var r := NestedCall(env, s, calls[0]);
      q := NestedCallWaits(env, s, hole, calls[0], x, slot, p);
      var after := NestedCallInv(env, s, hole, calls[0]);
      var first := q;
      if Waits(r, x, slot, first) {
        q := RunCallsWaits(env, r, after, calls[1..], x, slot, first);
      }
      AdvancesChain(s, r, RunCalls(env, s, calls), x, slot, first, q);
    }
  }

  /** Two stretches of a run, the second starting from where the first left the task. */
  lemma AdvancesChain(s: State, r: State, t: State, x: nat, slot: Slot, p: int, q: int)
    requires Advances(s, r, x, slot, p) && r.log <= t.log && (r.terminated ==> t.terminated)
    requires Waits(r, x, slot, p) ==> Advances(r, t, x, slot, q)
    ensures Advances(s, t, x, slot, q)
  {
    if Served(r.log, |s.log|, x, slot.generation) {
      ServedExtends(r.log, |s.log|, t.log, |s.log|, x, slot.generation);
    } else if !r.terminated && Served(t.log, |r.log|, x, slot.generation) {
      ServedExtends(t.log, |r.log|, t.log, |s.log|, x, slot.generation);
    }
  }

  // ------------------------------------------------------------ one update

  lemma AfterCallsWaits(env: Env, s: State, index: nat, x: nat, slot: Slot, p: int) returns (q: int)
    requires Inv(s, Some(index)) && Waits(s, x, slot, p)
    ensures index < |s.tasks| && q <= p && Advances(s, AfterCalls(env, s, index), x, slot, q)
  {
    var started := Started(env, s, index);
    InvFrame(s, started, Some(index));
    hide Inv, RunCalls, Served;
    q := RunCallsWaits(env, started, Some(index), Behave(env, s, index).calls, x, slot, p);
    var t := AfterCalls(env, s, index);
    if Served(t.log, |started.log|, x, slot.generation) {
      ServedExtends(t.log, |started.log|, t.log, |s.log|, x, slot.generation);
    }
  }

  lemma ApplyActionWaits(env: Env, t: State, frame: Frame, now: uint32, index: nat, due: uint32, action: Action, x: nat, slot: Slot, q: int)
    requires Inv(t, Some(index))
    ensures index < |t.tasks|
    ensures Waits(t, x, slot, q) ==> Waits(ApplyAction(env, t, frame, now, index, due, action).s, x, slot, q)
  {
    if Waits(t, x, slot, q) {
      assert t.ring[q] in t.ring;
    }
  }

  lemma RunTaskWaits(env: Env, s: State, frame: Frame, now: uint32, index: nat, x: nat, slot: Slot, p: int) returns (q: int)
    requires Inv(s, Some(index)) && NoWrap(env) && Waits(s, x, slot, p)
    ensures index < |s.tasks| && q <= p && Advances(s, RunTask(env, s, frame, now, index).s, x, slot, q)
  {
    q := AfterCallsWaits(env, s, index, x, slot, p);
    AfterCallsInv(env, s, index);
    var t := AfterCalls(env, s, index);
    hide Inv, AfterCalls, ApplyAction, Served, Waits;
    if t.tasks[index].queued && t.tasks[index].generation == s.tasks[index].generation {
      TerminatedHasNoHole(t, index);
      ApplyActionWaits(env, t, frame.(steps := frame.steps + 1), now, index, s.tasks[index].due,
                       Behave(env, s, index).action, x, slot, q);
    }
  }

  lemma RunTaskServes(env: Env, s: State, frame: Frame, now: uint32, index: nat)
    requires index < |s.tasks|
    ensures Served(RunTask(env, s, frame, now, index).s.log, |s.log|, index, s.tasks[index].generation)
  {
    hide ApplyAction, RunCalls;
    var r := RunTask(env, s, frame, now, index).s;
    var started := Started(env, s, index);
    assert started.log <= AfterCalls(env, s, index).log == r.log;
    assert r.log[|s.log|] == started.log[|s.log|];
    assert Serves(r.log[|s.log|], index, s.tasks[index].generation);
  }

  /** Every clock reading from `from` up to `to` is at or past `due`. */
  ghost predicate Ready(env: Env, due: uint32, from: nat, to: nat)
  {
    forall t :: from <= t < to ==> Reached(env.clock(t), due)
  }

  lemma RunOrDeferWaits(env: Env, s: State, frame: Frame, now: uint32, index: nat, x: nat, slot: Slot, p: int) returns (q: int)
    requires Inv(s, Some(index)) && NoWrap(env) && Waits(s, x, slot, p)
    ensures index < |s.tasks| && q <= p && Advances(s, RunOrDefer(env, s, frame, now, index).s, x, slot, q)
  {
    hide RunTask, Inv;
    q := RunTaskWaits(env, s, frame, now, index, x, slot, p);
    if !Reached(now, s.tasks[index].due) {
      q := p;
    }
  }

  /** A turn moves the task at least one place forward, or runs it when it was first and ready. */
  lemma ExamineWaits(env: Env, config: Config, s: State, frame: Frame, now: uint32, x: nat, slot: Slot, p: int) returns (q: int)
    requires Inv(s, None) && NoWrap(env) && Waits(s, x, slot, p) && s.remaining > 0
    requires ChecksBudget(config, frame) ==> Reached(now, slot.due)
    requires !ChecksBudget(config, frame) ==> Reached(Now(env, s), slot.due)
    ensures s.ring[0] < |s.tasks|
    ensures q < p && Advances(s, Examine(env, config, s, frame, now).s, x, slot, q)
  {
    var index := s.ring[0];
    PopInv(s);
    var popped := Pop(s);
    HoleQueued(popped, index);
    InvFrame(popped, Tick(popped), Some(index));
    q := p - 1;
    if p == 0 {
      hide RunTask, Inv, Served;
      if ChecksBudget(config, frame) {
        RunTaskServes(env, popped, frame, now, index);
      } else {
        RunTaskServes(env, Tick(popped), frame, Now(env, popped), index);
      }
    } else {
      hide RunOrDefer, Inv, Served;
      if ChecksBudget(config, frame) {
        q := RunOrDeferWaits(env, popped, frame, now, index, x, slot, p - 1);
      } else {
        q := RunOrDeferWaits(env, Tick(popped), frame, Now(env, popped), index, x, slot, p - 1);
      }
    }
  }

  lemma HoleQueued(s: State, index: nat)
    requires Inv(s, Some(index))
    ensures index < |s.tasks| && s.tasks[index].queued
  {
  }

  lemma TakeTurnWaits(env: Env, config: Config, s: State, frame: Frame, start: uint32, now: uint32, x: nat, slot: Slot, p: int)
    returns (q: int)
    requires Inv(s, None) && NoWrap(env) && Waits(s, x, slot, p) && s.remaining > 0
    requires s.ring[0] < |s.tasks|
    requires Ready(env, slot.due, s.ticks, s.ticks + 1)
    ensures var t := TakeTurn(env, config, s, frame, start, now);
            && Advances(s, t.s, x, slot, q) && q <= p
            && (t.stop != Break ==> q < p)
            && (!ChecksBudget(config, frame) ==> t.stop != Break)
  {
    InvFrame(s, Tick(s), None);
    assert Reached(Now(env, s), slot.due);
    hide Examine, Inv, Served;
    if !ChecksBudget(config, frame) {
      q := ExamineWaits(env, config, s, frame, now, x, slot, p);
    } else if Sub32(Now(env, s), start) >= config.budget {
      q := p;
    } else {
      q := ExamineWaits(env, config, Tick(s), frame, Now(env, s), x, slot, p);
    }
  }

  /** Every turn reads the clock at least once. */
  lemma TakeTurnTicks(env: Env, config: Config, s: State, frame: Frame, start: uint32, now: uint32)
    requires s.ring != [] && s.ring[0] < |s.tasks| && s.tasks[s.ring[0]].queued && s.remaining > 0
    ensures s.ticks < TakeTurn(env, config, s, frame, start, now).s.ticks
  {
    hide RunOrDefer;
  }

  lemma TakeTurnTerminated(env: Env, config: Config, s: State, frame: Frame, start: uint32, now: uint32)
    requires Inv(s, None) && NoWrap(env) && s.ring != [] && s.ring[0] < |s.tasks| && s.remaining > 0
    ensures var t := TakeTurn(env, config, s, frame, start, now);
            t.s.terminated ==> t.stop != Next
  {
    PopInv(s);
    PopInv(Tick(s));
    var popped := Pop(s);
    TerminatedHasNoHole(popped, s.ring[0]);
    InvFrame(popped, Tick(popped), Some(s.ring[0]));
    InvFrame(popped, Tick(Tick(popped)), Some(s.ring[0]));
    hide AfterCalls, Inv;
  }

  lemma {:induction false} LoopWaits(env: Env, config: Config, s: State, frame: Frame, start: uint32, now: uint32, x: nat, slot: Slot, p: int)
    returns (q: int)
    requires Inv(s, None) && NoWrap(env) && Waits(s, x, slot, p)
    requires Ready(env, slot.due, s.ticks, Loop(env, config, s, frame, start, now).s.ticks)
    ensures var t := Loop(env, config, s, frame, start, now);
            && Advances(s, t.s, x, slot, q) && q <= p
            && (s.remaining > 0 && frame.steps < config.stepsPerFrame && !ChecksBudget(config, frame) ==> q < p)
    decreases if s.remaining > 0 then s.remaining else 0
  {
    q := p;
    if s.remaining > 0 && frame.steps < config.stepsPerFrame {
      TakeTurnInv(env, config, s, frame, start, now);
      TakeTurnTicks(env, config, s, frame, start, now);
      TakeTurnTerminated(env, config, s, frame, start, now);
      hide TakeTurn, Inv, Served;
      var t := TakeTurn(env, config, s, frame, start, now);
      q := TakeTurnWaits(env, config, s, frame, start, now, x, slot, p);
      if t.stop == Next {
        var r := Loop(env, config, t.s, t.frame, start, t.now);
        var first := q;
        if Waits(t.s, x, slot, first) {
          q := LoopWaits(env, config, t.s, t.frame, start, t.now, x, slot, first);
        }
        AdvancesChain(s, t.s, r.s, x, slot, first, q);
      }
    }
  }

  /** One Update call brings a ready task at least one position forward, or serves it. */
  lemma UpdateWaits(env: Env, config: Config, s: State, x: nat, slot: Slot, p: int) returns (q: int)
    requires Idle(s) && NoWrap(env) && ValidConfig(config) && Waits(s, x, slot, p)
    requires Ready(env, slot.due, s.ticks, DoUpdate(env, config, s).s.ticks)
    ensures q < p && Advances(s, DoUpdate(env, config, s).s, x, slot, q)
  {
    NotTerminated(s, x, slot, p);
    var begun := Begin(s);
    InvFrame(s, begun, None);
    hide Inv, Loop, Served;
    q := LoopWaits(env, config, begun, Frame(0, 0, 0, false), Now(env, s), Now(env, s), x, slot, p);
  }

  lemma NotTerminated(s: State, x: nat, slot: Slot, p: int)
    requires Idle(s) && Waits(s, x, slot, p)
    ensures !s.terminated
  {
  }

  // ------------------------------------------------------------ whole runs

  function Updates(calls: seq<Call>): (n: nat)
    ensures n <= |calls|
  {
    if calls == [] then 0 else (if calls[0] == Update then 1 else 0) + Updates(calls[1..])
  }

  lemma {:induction false} DriveMonotone(env: Env, config: Config, s: State, calls: seq<Call>)
    ensures var r := Drive(env, config, s, calls);
            s.log <= r.log && s.ticks <= r.ticks && (s.terminated ==> r.terminated)
    decreases |calls|
  {
    if calls != [] {
      hide NestedCall, Loop;
      DriveMonotone(env, config, TopCall(env, config, s, calls[0]), calls[1..]);
    }
  }

  lemma TopCallWaits(env: Env, config: Config, s: State, call: Call, x: nat, slot: Slot, p: int) returns (q: int)
    requires Idle(s) && NoWrap(env) && ValidConfig(config) && Waits(s, x, slot, p)
    requires Ready(env, slot.due, s.ticks, TopCall(env, config, s, call).ticks)
    ensures q <= p && (call == Update ==> q < p) && Advances(s, TopCall(env, config, s, call), x, slot, q)
  {
    hide DoUpdate, NestedCall, Served, Waits;
    if call == Update {
      q := UpdateWaits(env, config, s, x, slot, p);
    } else {
      q := NestedCallWaits(env, s, None, call, x, slot, p);
    }
  }

  /**
   * Bounded wait.  A task at ring position `p` whose due time every clock
   * reading has reached is run or cancelled within p + 1 Update calls, whatever
   * the other steps and the application schedule or cancel meanwhile.
   */
  lemma {:induction false} BoundedWait(env: Env, config: Config, s: State, calls: seq<Call>, x: nat, slot: Slot, p: int)
    requires Idle(s) && NoWrap(env) && ValidConfig(config) && Waits(s, x, slot, p)
    requires Ready(env, slot.due, s.ticks, Drive(env, config, s, calls).ticks)
    requires Updates(calls) > p
    ensures var r := Drive(env, config, s, calls);
            s.log <= r.log && (Served(r.log, |s.log|, x, slot.generation) || r.terminated)
    decreases |calls|
  {
    hide Served, TopCall, Idle;
    var r := TopCall(env, config, s, calls[0]);
    var t := Drive(env, config, s, calls);
    DriveMonotone(env, config, s, [calls[0]]);
    assert Drive(env, config, s, [calls[0]]) == Drive(env, config, r, []);
    DriveMonotone(env, config, r, calls[1..]);
    var q := TopCallWaits(env, config, s, calls[0], x, slot, p);
    TopCallInv(env, config, s, calls[0]);
    if Waits(r, x, slot, q) {
      BoundedWait(env, config, r, calls[1..], x, slot, q);
      if Served(t.log, |r.log|, x, slot.generation) {
        ServedExtends(t.log, |r.log|, t.log, |s.log|, x, slot.generation);
      }
    } else if Served(r.log, |s.log|, x, slot.generation) {
      ServedExtends(r.log, |s.log|, t.log, |s.log|, x, slot.generation);
    }
  }
}
