/**
 * When a task is due.  The log tells of every slot what happened to it last:
 * a call queued it, its step ran and returned an action, or it was cancelled.
 * That event and the clock readings fix the time at which the slot's task is
 * due next, or that it has none.
 */
module ScheduleDue {
  import opened Common
  import opened ScheduleModel
  import opened ScheduleInvariant

  /** The latest of the first `ticks` clock readings. */
  function Reading(env: Env, ticks: nat): uint32
  {
    if ticks == 0 then 0 else env.clock(ticks - 1)
  }

  /** When the task is due after this event; none when the event ends the task. */
  function DueAfter(env: Env, event: Event): Option<uint32>
  {
    match event
    case Scheduled(_, _, Schedule(_), ticks) => Some(Reading(env, ticks))
    case Scheduled(_, _, ScheduleAfter(ms, _), ticks) => Some((Reading(env, ticks) + ms) % 0x1_0000_0000)
    case Scheduled(_, _, ScheduleAt(deadline, _), _) => Some(deadline)
    case Scheduled(_, _, _, _) => None
    case Ran(_, _, _, Yield, began, _) => Some(Reading(env, began))
    case Ran(_, _, _, Delay(ms), _, returned) =>
      if ms <= MAX_DELAY then Some((env.clock(returned) + ms) % 0x1_0000_0000) else None
    case Ran(_, _, due, Repeat(ms), _, _) =>
      if 0 < ms <= MAX_DELAY then Some((due + ms) % 0x1_0000_0000) else None
    case Ran(_, _, _, Complete, _, _) => None
    case Cancelled(_, _) => None
  }

  /** The last event about slot `x`. */
  function LastOn(log: seq<Event>, x: nat): Option<Event>
  {
    if log == [] then None
    else if log[|log| - 1].index == x then Some(log[|log| - 1])
    else LastOn(log[..|log| - 1], x)
  }

  /** On the wrapping clock `now` is at `due` or less than 2^31 milliseconds past it. */
  ghost predicate Past(now: uint32, due: uint32)
  {
    exists elapsed: nat :: elapsed < 0x8000_0000 && Elapses(due, elapsed, now)
  }

  predicate Elapses(due: uint32, elapsed: nat, now: uint32)
  {
    (due + elapsed) % 0x1_0000_0000 == now
  }

  lemma ReachedExactly(now: uint32, due: uint32)
    ensures Reached(now, due) <==> Past(now, due)
  {
    var elapsed := (now - due) % 0x1_0000_0000;
    assert Elapses(due, elapsed, now);
    if Past(now, due) {
      var d: nat :| d < 0x8000_0000 && Elapses(due, d, now);
      ElapsedUnique(due, d, elapsed, now);
    }
  }

  lemma ElapsedUnique(due: uint32, a: nat, b: nat, now: uint32)
    requires a < U32 && b < U32 && Elapses(due, a, now) && Elapses(due, b, now)
    ensures a == b
  {
  }

  /** A run comes when its task is due, at the time that the event before it fixed. */
  ghost predicate OnTime(env: Env, before: seq<Event>, event: Event)
  {
    match event
    case Scheduled(_, _, _, ticks) => ticks > 0
    case Cancelled(_, _) => true
    case Ran(index, generation, due, _, began, _) =>
      var last := LastOn(before, index);
      && last.Some? && last.value.generation == generation && DueAfter(env, last.value) == Some(due)
      && began > 0 && Past(Reading(env, began), due)
  }

  ghost predicate Explained(env: Env, log: seq<Event>)
  {
    forall k :: 0 <= k < |log| ==> OnTime(env, log[..k], log[k])
  }

  /**
   * A slot is queued exactly when its last event fixes a due time, and then
   * for that time; it is marked repeating exactly when that event is a Repeat.
   */
  ghost predicate Tracks(env: Env, s: State, x: nat)
    requires x < |s.tasks|
  {
    var last := LastOn(s.log, x);
    if s.tasks[x].queued
    then
      && last.Some? && last.value.generation == s.tasks[x].generation && DueAfter(env, last.value) == Some(s.tasks[x].due)
      && (s.tasks[x].repeating <==> last.value.Ran? && last.value.action.Repeat?)
    else s.terminated || last.None? || DueAfter(env, last.value).None?
  }

  ghost predicate Tracked(env: Env, s: State, hole: Option<nat>)
  {
    && Explained(env, s.log)
    && (forall event :: event in s.log ==> event.index < |s.tasks|)
    && (forall x: nat :: x < |s.tasks| && hole != Some(x) ==> Tracks(env, s, x))
  }

  // -------------------------------------------------------------------- logs

  lemma LastSnoc(log: seq<Event>, event: Event, x: nat)
    ensures LastOn(log + [event], x) == if event.index == x then Some(event) else LastOn(log, x)
  {
    assert (log + [event])[..|log|] == log;
  }

  lemma ExplainedSnoc(env: Env, log: seq<Event>, event: Event)
    requires Explained(env, log) && OnTime(env, log, event)
    ensures Explained(env, log + [event])
  {
    var longer := log + [event];
    assert longer[..|log|] == log;
    hide OnTime;
    forall k | 0 <= k < |longer| ensures OnTime(env, longer[..k], longer[k]) {
      assert k < |log| ==> longer[..k] == log[..k] && longer[k] == log[k];
    }
  }

  // ------------------------------------------------------------------- calls

  /** Only what happens to a slot itself matters to it. */
  lemma TracksSame(env: Env, s: State, r: State, x: nat)
    requires x < |s.tasks| && x < |r.tasks| && Tracks(env, s, x) && r.tasks[x] == s.tasks[x]
    requires LastOn(r.log, x) == LastOn(s.log, x) && (s.terminated ==> r.terminated)
    ensures Tracks(env, r, x)
  {
  }

  /** One event about one slot: the others stay on track. */
  lemma OneEventTracked(env: Env, s: State, r: State, hole: Option<nat>, after: Option<nat>, event: Event)
    requires Tracked(env, s, hole) && |r.tasks| == |s.tasks| && (s.terminated ==> r.terminated)
    requires r.log == s.log + [event] && OnTime(env, s.log, event)
    requires after == hole || after == None || after == Some(event.index)
    requires hole.Some? && after != hole ==> event.index == hole.value
    requires forall x: nat :: x < |s.tasks| && x != event.index ==> r.tasks[x] == s.tasks[x]
    requires event.index < |r.tasks| && (after != Some(event.index) ==> Tracks(env, r, event.index))
    ensures Tracked(env, r, after)
  {
    ExplainedSnoc(env, s.log, event);
    hide Explained, Tracks, OnTime, LastOn, DueAfter;
    forall x: nat | x < |r.tasks| && after != Some(x) ensures Tracks(env, r, x) {
      if x != event.index {
        LastSnoc(s.log, event, x);
        TracksSame(env, s, r, x);
      }
    }
  }

  lemma TrackedSame(env: Env, s: State, r: State, hole: Option<nat>)
    requires Tracked(env, s, hole) && r.tasks == s.tasks && r.log == s.log && (s.terminated ==> r.terminated)
    ensures Tracked(env, r, hole)
  {
    hide Explained, DueAfter;
  }

  lemma EnqueueTracked(env: Env, s: State, hole: Option<nat>, step: Step, deadline: uint32, call: Call)
    requires Inv(s, hole) && Tracked(env, s, hole)
    requires s.ticks > 0 && DueAfter(env, Scheduled(0, 0, call, s.ticks)) == Some(deadline)
    ensures Tracked(env, Enqueue(s, step, deadline, call).0, hole)
  {
    var r := Enqueue(s, step, deadline, call).0;
    if r != s {
      var index := FirstFree(s.tasks, 0);
      var event := r.log[|s.log|];
      assert event.index == index && r.log == s.log + [event];
      assert DueAfter(env, event) == Some(deadline);
      LastSnoc(s.log, event, index);
      hide DueAfter, LastOn, Explained, FirstFree;
      OneEventTracked(env, s, r, hole, hole, event);
    }
  }

  lemma CancelTracked(env: Env, s: State, hole: Option<nat>, index: nat)
    requires Tracked(env, s, hole) && index < |s.tasks| && s.tasks[index].queued
    ensures Tracked(env, CancelSlot(s, index), if hole == Some(index) then None else hole)
  {
    var r := CancelSlot(s, index);
    var event := Cancelled(index, s.tasks[index].generation);
    LastSnoc(s.log, event, index);
    hide Without, LastOn, Explained;
    OneEventTracked(env, s, r, hole, if hole == Some(index) then None else hole, event);
  }

  lemma TerminateTracked(env: Env, s: State, hole: Option<nat>)
    requires Tracked(env, s, hole)
    ensures Tracked(env, DoTerminate(s), None)
  {
    hide Explained, DueAfter;
  }

  /** While a step runs its slot's last event is that run. */
  ghost predicate Running(s: State, hole: Option<nat>, ran: Event)
  {
    hole.Some? ==> hole.value < |s.tasks| && LastOn(s.log, hole.value) == Some(ran)
  }

  lemma NestedCallTracked(env: Env, s: State, hole: Option<nat>, call: Call, ran: Event) returns (after: Option<nat>)
    requires Inv(s, hole) && Tracked(env, s, hole) && Running(s, hole, ran)
    ensures var r := NestedCall(env, s, call);
            && Inv(r, after) && Tracked(env, r, after) && Running(r, after, ran)
            && (after == hole || after == None)
            && (after.Some? ==> r.tasks[after.value] == s.tasks[after.value])
  {
    hide Inv, Tracked, Running, Enqueue, DoCancel, DoTerminate, LastOn, Reading;
    after := NestedCallInv(env, s, hole, call);
    TickTracked(env, s, hole, after, ran);
    match call
    case Schedule(step) => TickedEnqueueTracked(env, s, hole, after, step, Now(env, s), call, ran);
    case ScheduleAfter(ms, step) =>
      if ms <= MAX_DELAY {
        TickedEnqueueTracked(env, s, hole, after, step, Add32(Now(env, s), ms), call, ran);
      }
    case ScheduleAt(deadline, step) =>
      if Reached(Now(env, s), deadline) || Sub32(deadline, Now(env, s)) <= MAX_DELAY {
        TickedEnqueueTracked(env, s, hole, after, step, deadline, call, ran);
      }
    case Cancel(task) => NestedCancelTracked(env, s, hole, after, task, ran);
    case Pending(_) => OnlyHole(s, hole, after);
    case Update => OnlyHole(s, hole, after);
    case Terminate =>
      TerminateTracked(env, s, hole);
      NoHoleLeft(s, after, ran);
  }

  /** A clock reading alone changes nothing. */
  lemma TickTracked(env: Env, s: State, hole: Option<nat>, after: Option<nat>, ran: Event)
    requires Inv(s, hole) && Tracked(env, s, hole) && Running(s, hole, ran)
    ensures Inv(Tick(s), hole) && Tracked(env, Tick(s), hole)
    ensures after == hole ==> Running(Tick(s), after, ran) && Running(s, after, ran)
    ensures Inv(s, after) || Inv(Tick(s), after) ==> after == hole
    ensures Reading(env, s.ticks + 1) == Now(env, s)
  {
    InvFrame(s, Tick(s), hole);
    TrackedSame(env, s, Tick(s), hole);
    if Inv(Tick(s), after) {
      InvFrame(Tick(s), s, after);
    }
    if Inv(s, after) {
      OnlyHole(s, hole, after);
    }
    hide *;
  }

  lemma NoHoleLeft(s: State, hole: Option<nat>, ran: Event)
    requires Inv(DoTerminate(s), hole)
    ensures hole == None && Running(DoTerminate(s), hole, ran)
  {
  }

  /** A state has one hole at most. */
  lemma OnlyHole(s: State, a: Option<nat>, b: Option<nat>)
    requires Inv(s, a) && Inv(s, b)
    ensures a == b
  {
    if a.Some? {
      assert s.tasks[a.value].queued;
    }
    if b.Some? {
      assert s.tasks[b.value].queued;
    }
  }

  lemma TickedEnqueueTracked(env: Env, s: State, hole: Option<nat>, after: Option<nat>, step: Step, deadline: uint32, call: Call, ran: Event)
    requires Inv(Tick(s), hole) && Tracked(env, Tick(s), hole) && Running(s, hole, ran)
    requires DueAfter(env, Scheduled(0, 0, call, s.ticks + 1)) == Some(deadline)
    requires Inv(Enqueue(Tick(s), step, deadline, call).0, after)
    ensures var r := Enqueue(Tick(s), step, deadline, call).0;
            Tracked(env, r, hole) && Running(r, hole, ran) && after == hole && Inv(s, hole)
  {
    EnqueueTracked(env, Tick(s), hole, step, deadline, call);
    EnqueueInv(Tick(s), hole, step, deadline, call);
    var r := Enqueue(Tick(s), step, deadline, call).0;
    OnlyHole(r, hole, after);
    InvFrame(Tick(s), s, hole);
    if hole.Some? && r.log != s.log {
      LastSnoc(s.log, r.log[|s.log|], hole.value);
    }
  }

  lemma NestedCancelTracked(env: Env, s: State, hole: Option<nat>, after: Option<nat>, task: Task, ran: Event)
    requires Inv(s, hole) && Tracked(env, s, hole) && Running(s, hole, ran)
    requires Inv(DoCancel(s, task).0, after) && (after == hole || after == None)
    ensures var r := DoCancel(s, task).0;
            Tracked(env, r, after) && Running(r, after, ran)
  {
    match Identify(s.tasks, task)
    case None => OnlyHole(s, hole, after);
    case Some(index) =>
      CancelTracked(env, s, hole, index);
      var r := CancelSlot(s, index);
      assert !r.tasks[index].queued;
      if hole.Some? {
        LastSnoc(s.log, Cancelled(index, s.tasks[index].generation), hole.value);
        CancelKeepsHole(s, hole.value, index, after);
      }
  }

  lemma CancelKeepsHole(s: State, x: nat, index: nat, after: Option<nat>)
    requires Inv(s, Some(x)) && index < |s.tasks| && s.tasks[index].queued && Inv(CancelSlot(s, index), after)
    requires after == Some(x) || after == None
    ensures after == if x == index then None else Some(x)
  {
    var r := CancelSlot(s, index);
    WithoutMembers(s.ring, index);
    if x != index {
      assert r.tasks[x] == s.tasks[x];
    }
  }

  lemma {:induction false} RunCallsTracked(env: Env, s: State, hole: Option<nat>, calls: seq<Call>, ran: Event) returns (after: Option<nat>)
    requires Inv(s, hole) && Tracked(env, s, hole) && Running(s, hole, ran)
    ensures var r := RunCalls(env, s, calls);
            && Inv(r, after) && Tracked(env, r, after) && Running(r, after, ran)
            && (after == hole || after == None)
            && (after.Some? ==> r.tasks[after.value] == s.tasks[after.value])
    decreases |calls|
  {
    hide Inv, Tracked, Running, NestedCall;
    after := hole;
    if calls != [] {
      var middle := NestedCallTracked(env, s, hole, calls[0], ran);
      after := RunCallsTracked(env, NestedCall(env, s, calls[0]), middle, calls[1..], ran);
    }
  }

  /** The calls of a step read the clock as often as their list says. */
  lemma {:induction false} RunCallsTicks(env: Env, s: State, calls: seq<Call>)
    ensures RunCalls(env, s, calls).ticks == s.ticks + Readings(calls)
    decreases |calls|
  {
    if calls != [] {
      RunCallsTicks(env, NestedCall(env, s, calls[0]), calls[1..]);
    }
  }

  // ------------------------------------------------------------------- a turn

  /** `now` is the latest clock reading. */
  predicate JustRead(env: Env, s: State, now: uint32)
  {
    s.ticks > 0 && now == env.clock(s.ticks - 1)
  }

  /** The run that a step's start logs. */
  function RunOf(env: Env, s: State, index: nat): Event
    requires index < |s.tasks|
  {
    var behaviour := Behave(env, s, index);
    Ran(index, s.tasks[index].generation, s.tasks[index].due, behaviour.action, s.ticks, s.ticks + Readings(behaviour.calls))
  }

  lemma StartedTracked(env: Env, s: State, index: nat, now: uint32)
    requires Inv(s, Some(index)) && Tracked(env, s, None)
    requires JustRead(env, s, now) && Reached(now, s.tasks[index].due)
    ensures var started := Started(env, s, index);
            Inv(started, Some(index)) && Tracked(env, started, Some(index)) && Running(started, Some(index), RunOf(env, s, index))
  {
    var ran := RunOf(env, s, index);
    var started := Started(env, s, index);
    InvFrame(s, started, Some(index));
    assert Tracks(env, s, index);
    ReachedExactly(now, ran.due);
    assert OnTime(env, s.log, ran);
    LastSnoc(s.log, ran, index);
    hide Inv, Reached, Reading, Behave, Readings, Tracked;
    StartedLog(env, s, index);
    OneEventTracked(env, s, started, None, Some(index), ran);
  }

  lemma StartedLog(env: Env, s: State, index: nat)
    requires index < |s.tasks|
    ensures var started := Started(env, s, index);
            started.log == s.log + [RunOf(env, s, index)] && started.tasks == s.tasks && started.terminated == s.terminated
  {
  }

  lemma AfterCallsTracked(env: Env, s: State, index: nat, now: uint32)
    requires Inv(s, Some(index)) && NoWrap(env) && Tracked(env, s, None)
    requires JustRead(env, s, now) && Reached(now, s.tasks[index].due)
    ensures var t := AfterCalls(env, s, index);
            && t.ticks == RunOf(env, s, index).returned
            && if t.tasks[index].queued && t.tasks[index].generation == s.tasks[index].generation
               then t.tasks[index] == s.tasks[index] && Tracked(env, t, Some(index)) && LastOn(t.log, index) == Some(RunOf(env, s, index))
               else Tracked(env, t, None)
  {
    StartedTracked(env, s, index, now);
    AfterCallsInv(env, s, index);
    var started := Started(env, s, index);
    RunCallsTicks(env, started, Behave(env, s, index).calls);
    var after := RunCallsTracked(env, started, Some(index), Behave(env, s, index).calls, RunOf(env, s, index));
    var t := AfterCalls(env, s, index);
    StillCurrent(s, t, index, after);
    hide Inv, Tracked, RunCalls;
  }

  lemma StillCurrent(s: State, t: State, index: nat, after: Option<nat>)
    requires Inv(s, Some(index)) && |t.tasks| == |s.tasks| && Inv(t, after) && (after == Some(index) || after == None)
    requires after.Some? ==> t.tasks[index] == s.tasks[index]
    requires if t.tasks[index].queued && t.tasks[index].generation == s.tasks[index].generation then Inv(t, Some(index)) else Inv(t, None)
    ensures after == if t.tasks[index].queued && t.tasks[index].generation == s.tasks[index].generation then Some(index) else None
  {
  }

  /** The action decides when the task is due next, or that it is done. */
  lemma ApplyActionTracked(env: Env, t: State, frame: Frame, now: uint32, index: nat, due: uint32, ran: Event)
    requires index < |t.tasks| && t.tasks[index].queued && Tracked(env, t, Some(index)) && LastOn(t.log, index) == Some(ran)
    requires ran.Ran? && ran.generation == t.tasks[index].generation && ran.due == due
    requires now == Reading(env, ran.began) && t.ticks == ran.returned
    ensures Tracked(env, ApplyAction(env, t, frame, now, index, due, ran.action).s, None)
  {
    hide Explained, LastOn, Reading;
    var r := ApplyAction(env, t, frame, now, index, due, ran.action).s;
    assert Tracks(env, r, index);
    assert forall x: nat :: x < |t.tasks| && x != index ==> r.tasks[x] == t.tasks[x];
    hide DueAfter, ApplyAction;
    forall x: nat | x < |r.tasks| ensures Tracks(env, r, x) {
      if x != index {
        TracksSame(env, t, r, x);
      }
    }
  }

  lemma RunTaskTracked(env: Env, s: State, frame: Frame, now: uint32, index: nat)
    requires Inv(s, Some(index)) && NoWrap(env) && Tracked(env, s, None)
    requires JustRead(env, s, now) && Reached(now, s.tasks[index].due)
    ensures Tracked(env, RunTask(env, s, frame, now, index).s, None)
  {
    hide AfterCalls, Inv, Tracked, LastOn, ApplyAction, JustRead, Reached, Behave, NoWrap;
    AfterCallsTracked(env, s, index, now);
    AfterCallsInv(env, s, index);
    var t := AfterCalls(env, s, index);
    var counted := frame.(steps := frame.steps + 1);
    if t.tasks[index].queued && t.tasks[index].generation == s.tasks[index].generation {
      TerminatedHasNoHole(t, index);
      JustReadIs(env, s, now);
      ApplyActionTracked(env, t, counted, now, index, s.tasks[index].due, RunOf(env, s, index));
    }
  }

  lemma JustReadIs(env: Env, s: State, now: uint32)
    requires JustRead(env, s, now)
    ensures now == Reading(env, s.ticks)
  {
  }

  lemma RunOrDeferTracked(env: Env, s: State, frame: Frame, now: uint32, index: nat)
    requires Inv(s, Some(index)) && NoWrap(env) && Tracked(env, s, None) && JustRead(env, s, now)
    ensures Tracked(env, RunOrDefer(env, s, frame, now, index).s, None)
  {
    hide JustRead, RunTask;
    if Reached(now, s.tasks[index].due) {
      RunTaskTracked(env, s, frame, now, index);
    } else {
      TrackedSame(env, s, RunOrDefer(env, s, frame, now, index).s, None);
    }
  }

  lemma ExamineTracked(env: Env, config: Config, s: State, frame: Frame, now: uint32)
    requires Inv(s, None) && NoWrap(env) && Tracked(env, s, None) && s.ring != [] && s.remaining > 0
    requires ChecksBudget(config, frame) ==> JustRead(env, s, now)
    ensures s.ring[0] < |s.tasks| && Tracked(env, Examine(env, config, s, frame, now).s, None)
  {
    var index, popped := s.ring[0], Pop(s);
    assert index in s.ring;
    PopInv(s);
    InvFrame(popped, Tick(popped), Some(index));
    TrackedSame(env, s, popped, None);
    TrackedSame(env, s, Tick(popped), None);
    hide Inv, Tracked, RunOrDefer, ChecksBudget;
    if ChecksBudget(config, frame) {
      RunOrDeferTracked(env, popped, frame, now, index);
    } else {
      RunOrDeferTracked(env, Tick(popped), frame, Now(env, popped), index);
    }
  }

  lemma TakeTurnTracked(env: Env, config: Config, s: State, frame: Frame, start: uint32, now: uint32)
    requires Inv(s, None) && NoWrap(env) && Tracked(env, s, None) && s.ring != [] && s.remaining > 0
    ensures s.ring[0] < |s.tasks| && Tracked(env, TakeTurn(env, config, s, frame, start, now).s, None)
  {
    InvFrame(s, Tick(s), None);
    TrackedSame(env, s, Tick(s), None);
    hide Inv, Tracked, Examine, ChecksBudget;
    if ChecksBudget(config, frame) {
      ExamineTracked(env, config, Tick(s), frame, Now(env, s));
    } else {
      ExamineTracked(env, config, s, frame, now);
    }
  }

  lemma {:induction false} LoopTracked(env: Env, config: Config, s: State, frame: Frame, start: uint32, now: uint32)
    requires Inv(s, None) && NoWrap(env) && Tracked(env, s, None)
    ensures Tracked(env, Loop(env, config, s, frame, start, now).s, None)
    decreases if s.remaining > 0 then s.remaining else 0
  {
    hide Inv, Tracked, TakeTurn;
    if s.remaining > 0 && frame.steps < config.stepsPerFrame && s.ring != [] {
      TakeTurnTracked(env, config, s, frame, start, now);
      TakeTurnInv(env, config, s, frame, start, now);
      var t := TakeTurn(env, config, s, frame, start, now);
      if t.stop == Next {
        LoopTracked(env, config, t.s, t.frame, start, t.now);
      }
    }
  }

  lemma TopCallTracked(env: Env, config: Config, s: State, call: Call)
    requires Idle(s) && NoWrap(env) && Tracked(env, s, None)
    ensures Tracked(env, TopCall(env, config, s, call), None)
  {
    var r := TopCall(env, config, s, call);
    if call == Update {
      if !s.terminated {
        var begun := Begin(s);
        InvFrame(s, begun, None);
        TrackedSame(env, s, begun, None);
        hide Inv, Tracked, Loop;
        LoopTracked(env, config, begun, Frame(0, 0, 0, false), Now(env, s), Now(env, s));
        TrackedSame(env, Loop(env, config, begun, Frame(0, 0, 0, false), Now(env, s), Now(env, s)).s, r, None);
      }
    } else {
      hide Inv, Tracked, NestedCall;
      var after := NestedCallTracked(env, s, None, call, Cancelled(0, 0));
    }
  }

  lemma {:induction false} DriveTracked(env: Env, config: Config, s: State, calls: seq<Call>)
    requires Idle(s) && NoWrap(env) && Tracked(env, s, None)
    ensures Tracked(env, Drive(env, config, s, calls), None)
    decreases |calls|
  {
    hide Idle, Tracked, TopCall;
    if calls != [] {
      TopCallTracked(env, config, s, calls[0]);
      TopCallInv(env, config, s, calls[0]);
      DriveTracked(env, config, TopCall(env, config, s, calls[0]), calls[1..]);
    }
  }

  // -------------------------------------------------------------- main results

  /** Every run from a new scheduler: each step runs when its task is due, for the time its slot's last event fixed. */
  lemma RunsAreOnTime(env: Env, config: Config, calls: seq<Call>)
    requires NoWrap(env) && ValidConfig(config)
    ensures Tracked(env, Drive(env, config, InitialState(config.capacity), calls), None)
  {
    DriveTracked(env, config, InitialState(config.capacity), calls);
  }

  /** The log of a run from a new scheduler. */
  ghost function RunLog(env: Env, config: Config, calls: seq<Call>): seq<Event>
    requires ValidConfig(config)
  {
    Drive(env, config, InitialState(config.capacity), calls).log
  }

  /** Entry `k` is the next one about the slot of entry `i`. */
  ghost predicate NextOn(log: seq<Event>, i: nat, k: nat)
  {
    i < k < |log| && log[k].index == log[i].index && forall j :: i < j < k ==> log[j].index != log[i].index
  }

  lemma {:induction false} LastIs(log: seq<Event>, i: nat)
    requires i < |log| && forall j :: i < j < |log| ==> log[j].index != log[i].index
    ensures LastOn(log, log[i].index) == Some(log[i])
    decreases |log|
  {
    if i < |log| - 1 {
      LastIs(log[..|log| - 1], i);
    }
  }

  /**
   * A task that ran and then runs again, with nothing about its slot between:
   * after Delay it is due its delay after the reading that follows the calls
   * of its step, after Repeat its interval after its former due time, after
   * Yield at the reading that found it due.  It is still the same task.
   */
  lemma NextRun(env: Env, config: Config, calls: seq<Call>, i: nat, k: nat)
    requires NoWrap(env) && ValidConfig(config)
    requires var log := RunLog(env, config, calls);
             NextOn(log, i, k) && log[k].Ran?
    ensures var log := RunLog(env, config, calls);
            && log[k].generation == log[i].generation
            && log[k].began > 0 && Past(env.clock(log[k].began - 1), log[k].due)
            && NextDue(env, log[i], log[k].due)
  {
    RunsAreOnTime(env, config, calls);
    hide Drive, Tracks, Past, NextDue, OnTime;
    NextRunIn(env, RunLog(env, config, calls), i, k);
    DueMeans(env, RunLog(env, config, calls)[i], RunLog(env, config, calls)[k].due);
  }

  /** A run that comes next after this event is due at `due`. */
  ghost predicate NextDue(env: Env, event: Event, due: uint32)
  {
    match event
    case Ran(_, _, _, Delay(ms), _, returned) => ms <= MAX_DELAY && due == (env.clock(returned) + ms) % 0x1_0000_0000
    case Ran(_, _, previous, Repeat(ms), _, _) => 0 < ms <= MAX_DELAY && due == (previous + ms) % 0x1_0000_0000
    case Ran(_, _, _, Yield, began, _) => began > 0 && due == env.clock(began - 1)
    case Scheduled(_, _, Schedule(_), ticks) => ticks > 0 && due == env.clock(ticks - 1)
    case Scheduled(_, _, ScheduleAfter(ms, _), ticks) => ticks > 0 && due == (env.clock(ticks - 1) + ms) % 0x1_0000_0000
    case Scheduled(_, _, ScheduleAt(deadline, _), _) => due == deadline
    case _ => false
  }

  lemma DueMeans(env: Env, event: Event, due: uint32)
    requires DueAfter(env, event) == Some(due)
    requires match event
             case Scheduled(_, _, _, ticks) => ticks > 0
             case Ran(_, _, _, _, began, _) => began > 0
             case Cancelled(_, _) => false
    ensures NextDue(env, event, due)
  {
  }

  lemma NextRunIn(env: Env, log: seq<Event>, i: nat, k: nat)
    requires Explained(env, log) && NextOn(log, i, k) && log[k].Ran?
    ensures log[k].generation == log[i].generation && DueAfter(env, log[i]) == Some(log[k].due)
    ensures log[k].began > 0 && Past(env.clock(log[k].began - 1), log[k].due)
    ensures match log[i]
            case Scheduled(_, _, _, ticks) => ticks > 0
            case Ran(_, _, _, _, began, _) => began > 0
            case Cancelled(_, _) => false
  {
    assert OnTime(env, log[..i], log[i]) && OnTime(env, log[..k], log[k]);
    LastIs(log[..k], i);
    hide LastOn, Past;
  }

  /** The task ends with entry `i`, and no later call gives its identifier out again. */
  ghost predicate EndsAt(env: Env, log: seq<Event>, i: nat)
  {
    && i < |log| && DueAfter(env, log[i]).None?
    && forall j :: i < j < |log| && log[j].Scheduled? ==> log[j].index != log[i].index || log[j].generation != log[i].generation
  }

  /** Position of the last event about slot `x`. */
  lemma {:induction false} LastAt(log: seq<Event>, x: nat) returns (j: nat)
    requires LastOn(log, x).Some?
    ensures j < |log| && log[j].index == x && LastOn(log, x) == Some(log[j])
    ensures forall k :: j < k < |log| ==> log[k].index != x
    decreases |log|
  {
    j := |log| - 1;
    if log[j].index != x {
      j := LastAt(log[..j], x);
    }
  }

  lemma {:induction false} NoRunAfterEnd(env: Env, log: seq<Event>, i: nat, k: nat)
    requires Explained(env, log) && EndsAt(env, log, i) && i < k < |log| && log[k].Ran? && log[k].index == log[i].index
    ensures log[k].generation != log[i].generation
    decreases k
  {
    if log[k].generation == log[i].generation {
      assert OnTime(env, log[..k], log[k]);
      hide OnTime, Explained;
      var j := LastAt(log[..k], log[k].index);
      assert log[..k][i] == log[i] && log[..k][j] == log[j];
      assert j > i;
      if log[j].Ran? {
        NoRunAfterEnd(env, log, i, j);
      }
    }
  }

  /**
   * A task whose step returned Complete or an invalid delay, or that was
   * cancelled, is over: its identifier names nothing and it never runs again,
   * unless the generations of its slot come round and a call gives it out anew.
   */
  lemma EndedIsDead(env: Env, config: Config, calls: seq<Call>, i: nat)
    requires NoWrap(env) && ValidConfig(config) && EndsAt(env, RunLog(env, config, calls), i)
    requires config.capacity < U32
    ensures var r := Drive(env, config, InitialState(config.capacity), calls);
            && Identify(r.tasks, MakeTask(r.log[i].index, r.log[i].generation)) == None
            && forall k :: i < k < |r.log| && r.log[k].Ran? ==> r.log[k].index != r.log[i].index || r.log[k].generation != r.log[i].generation
  {
    RunsAreOnTime(env, config, calls);
    var r := Drive(env, config, InitialState(config.capacity), calls);
    hide Drive;
    EndedNotQueued(env, r, i);
    DriveSize(env, config, InitialState(config.capacity), calls);
    assert r.log[i] in r.log;
    IdentifyExact(r.tasks, r.log[i].index, r.log[i].generation);
    forall k | i < k < |r.log| && r.log[k].Ran? && r.log[k].index == r.log[i].index ensures r.log[k].generation != r.log[i].generation {
      NoRunAfterEnd(env, r.log, i, k);
    }
  }

  lemma {:induction false} DriveSize(env: Env, config: Config, s: State, calls: seq<Call>)
    ensures |Drive(env, config, s, calls).tasks| == |s.tasks|
    decreases |calls|
  {
    hide NestedCall, Loop;
    if calls != [] {
      DriveSize(env, config, TopCall(env, config, s, calls[0]), calls[1..]);
    }
  }

  lemma EndedNotQueued(env: Env, r: State, i: nat)
    requires Tracked(env, r, None) && EndsAt(env, r.log, i)
    ensures var x := r.log[i].index;
            x < |r.tasks| && r.tasks[x].queued ==> r.tasks[x].generation != r.log[i].generation
  {
    var x := r.log[i].index;
    if x < |r.tasks| && r.tasks[x].queued && r.tasks[x].generation == r.log[i].generation {
      assert Tracks(env, r, x);
      var j := LastAt(r.log, x);
      assert j > i;
      if r.log[j].Ran? {
        NoRunAfterEnd(env, r.log, i, j);
      }
    }
  }
}
