/** What the public calls other than Update accept, return and change. */
module ScheduleCalls {
  import opened Common
  import opened ScheduleModel
  import opened ScheduleInvariant
  import opened ScheduleDue

  /** `task` is the identifier of the task in slot `x`. */
  predicate Names(tasks: seq<Slot>, task: Task, x: nat)
  {
    x < |tasks| && tasks[x].queued && task == tasks[x].generation * 0x1_0000_0000 + x + 1
  }

  lemma IdentifiesNamed(tasks: seq<Slot>, task: Task, x: nat)
    requires |tasks| < U32
    ensures Identify(tasks, task) == Some(x) <==> Names(tasks, task, x)
  {
    if x < |tasks| {
      IdentifyExact(tasks, x, tasks[x].generation);
      Decompose(task);
    }
  }

  lemma Decompose(task: Task)
    ensures task == task / 0x1_0000_0000 * 0x1_0000_0000 + task % 0x1_0000_0000
  {
  }

  function Requested(env: Env, s: State, call: Call): (State, Result<Task, Error>)
    requires call.Schedule? || call.ScheduleAfter? || call.ScheduleAt?
  {
    match call
    case Schedule(step) => DoSchedule(env, s, step)
    case ScheduleAfter(ms, step) => DoScheduleAfter(env, s, ms, step)
    case ScheduleAt(deadline, step) => DoScheduleAt(env, s, deadline, step)
  }

  /** The delay is at most 2^31 - 1, or the deadline is not exactly 2^31 ahead of the clock. */
  predicate InHorizon(env: Env, s: State, call: Call)
  {
    match call
    case ScheduleAfter(ms, _) => ms < 0x8000_0000
    case ScheduleAt(deadline, _) => !Elapses(env.clock(s.ticks), 0x8000_0000, deadline)
    case _ => true
  }

  ghost predicate HasFreeSlot(s: State)
  {
    exists i :: 0 <= i < |s.tasks| && !s.tasks[i].queued
  }

  /** The call put a new task into slot `x`, the first free one, at the ring's end, and `task` is its identifier. */
  ghost predicate NewTask(s: State, r: State, call: Call, task: Task, x: nat)
    requires call.Schedule? || call.ScheduleAfter? || call.ScheduleAt?
  {
    && x < |s.tasks| == |r.tasks| && !s.tasks[x].queued && (forall i :: 0 <= i < x ==> s.tasks[i].queued)
    && Names(r.tasks, task, x) && r.tasks[x].step == call.step
    && r.tasks[x].generation != 0 && r.tasks[x].generation == (if s.tasks[x].generation == 0xFFFF_FFFF then 1 else s.tasks[x].generation + 1)
    && (forall i :: 0 <= i < |s.tasks| && i != x ==> r.tasks[i] == s.tasks[i])
    && r.ring == s.ring + [x] && r.pending == s.pending + 1
    && r.log == s.log + [Scheduled(x, r.tasks[x].generation, call, s.ticks + 1)]
  }

  /**
   * A scheduling call succeeds exactly when its time is in the horizon, the
   * scheduler is not terminated, the step is not nil and a slot is free; the
   * first reason that fails is reported, and nothing but the clock is touched.
   */
  lemma ScheduleExactly(env: Env, s: State, hole: Option<nat>, call: Call)
    requires Inv(s, hole) && |s.tasks| < U32
    requires call.Schedule? || call.ScheduleAfter? || call.ScheduleAt?
    ensures var (r, result) := Requested(env, s, call);
            && r == NestedCall(env, s, call)
            && match result
               case Ok(task) =>
                 && InHorizon(env, s, call) && !s.terminated && call.step != 0 && HasFreeSlot(s)
                 && r.ticks == s.ticks + 1 && exists x :: NewTask(s, r, call, task, x)
               case Err(error) =>
                 && r.(ticks := s.ticks) == s
                 && error == (if !InHorizon(env, s, call) then ErrDelay
                              else if s.terminated then ErrTerminated
                              else if call.step == 0 then ErrTask
                              else ErrFull)
                 && (error == ErrFull ==> !HasFreeSlot(s))
  {
    IsNestedCall(env, s, call);
    var deadline := RequestDeadline(env, s, call);
    InvFrame(s, Tick(s), hole);
    EnqueueExactly(Tick(s), hole, call.step, deadline, call);
    FreeTicked(s);
    hide Inv, Enqueue, InHorizon, HasFreeSlot, NewTask, NestedCall, Requested;
    var (r, result) := Requested(env, s, call);
    if InHorizon(env, s, call) && result.Ok? {
      var x :| EnqueuedAt(Tick(s), r, call, result.value, x);
      TickedNewTask(s, r, call, result.value, x);
    }
  }

  lemma IsNestedCall(env: Env, s: State, call: Call)
    requires call.Schedule? || call.ScheduleAfter? || call.ScheduleAt?
    ensures Requested(env, s, call).0 == NestedCall(env, s, call)
  {
    hide Enqueue;
  }

  /** Within the horizon the request is one to enqueue, after one reading; beyond it nothing happens. */
  lemma RequestDeadline(env: Env, s: State, call: Call) returns (deadline: uint32)
    requires call.Schedule? || call.ScheduleAfter? || call.ScheduleAt?
    ensures InHorizon(env, s, call) ==> Requested(env, s, call) == Enqueue(Tick(s), call.step, deadline, call)
    ensures !InHorizon(env, s, call) ==>
              Requested(env, s, call).0.(ticks := s.ticks) == s && Requested(env, s, call).1 == Err(ErrDelay)
  {
    hide Enqueue, Elapses;
    deadline := Now(env, s);
    match call
    case Schedule(_) =>
    case ScheduleAfter(ms, _) => deadline := Add32(Now(env, s), ms);
    case ScheduleAt(at, _) =>
      HorizonExactly(Now(env, s), at);
      deadline := at;
  }

  lemma FreeTicked(s: State)
    ensures HasFreeSlot(Tick(s)) <==> HasFreeSlot(s)
  {
  }

  /** NewTask after the clock reading of the call. */
  ghost predicate EnqueuedAt(s: State, r: State, call: Call, task: Task, x: nat)
    requires call.Schedule? || call.ScheduleAfter? || call.ScheduleAt?
  {
    s.ticks > 0 && NewTask(s.(ticks := s.ticks - 1), r, call, task, x)
  }

  lemma TickedNewTask(s: State, r: State, call: Call, task: Task, x: nat)
    requires call.Schedule? || call.ScheduleAfter? || call.ScheduleAt?
    requires EnqueuedAt(Tick(s), r, call, task, x)
    ensures NewTask(s, r, call, task, x)
  {
  }

  lemma HorizonExactly(now: uint32, deadline: uint32)
    ensures !Reached(now, deadline) && Sub32(deadline, now) > MAX_DELAY <==> Elapses(now, 0x8000_0000, deadline)
  {
  }

  lemma EnqueueExactly(s: State, hole: Option<nat>, step: Step, deadline: uint32, call: Call)
    requires Inv(s, hole) && |s.tasks| < U32 && s.ticks > 0
    requires (call.Schedule? || call.ScheduleAfter? || call.ScheduleAt?) && call.step == step
    ensures var (r, result) := Enqueue(s, step, deadline, call);
            match result
            case Ok(task) => !s.terminated && step != 0 && HasFreeSlot(s) && r.ticks == s.ticks && exists x :: EnqueuedAt(s, r, call, task, x)
            case Err(error) =>
              && r == s && error == (if s.terminated then ErrTerminated else if step == 0 then ErrTask else ErrFull)
              && (error == ErrFull ==> !HasFreeSlot(s))
  {
    var (r, result) := Enqueue(s, step, deadline, call);
    if s.pending == |s.tasks| {
      FullHasNone(s, hole);
    } else {
      FreeSlotExists(s, hole);
      if result.Ok? {
        assert EnqueuedAt(s, r, call, result.value, FirstFree(s.tasks, 0));
      }
    }
  }

  lemma FullHasNone(s: State, hole: Option<nat>)
    requires Inv(s, hole) && s.pending == |s.tasks|
    ensures !HasFreeSlot(s)
  {
    PendingCountsQueued(s, hole);
    SubsetSize(QueuedSlots(s), Range(|s.tasks|));
    forall i | 0 <= i < |s.tasks| ensures s.tasks[i].queued {
      assert i in Range(|s.tasks|);
      assert i in QueuedSlots(s);
    }
  }

  /**
   * Cancel answers whether the identifier named a task; then the task alone
   * is gone, from its slot and from the ring, and the identifier names nothing.
   */
  lemma CancelExactly(s: State, hole: Option<nat>, task: Task)
    requires Inv(s, hole) && |s.tasks| < U32
    ensures var (r, cancelled) := DoCancel(s, task);
            if cancelled
            then exists x :: Names(s.tasks, task, x) && CancelledAt(s, r, x)
            else r == s && forall x: nat :: !Names(s.tasks, task, x)
    ensures forall x: nat :: !Names(DoCancel(s, task).0.tasks, task, x)
  {
    var (r, cancelled) := DoCancel(s, task);
    forall x: nat ensures Identify(s.tasks, task) == Some(x) <==> Names(s.tasks, task, x) {
      IdentifiesNamed(s.tasks, task, x);
    }
    hide Identify, Names;
    if cancelled {
      var x := Identify(s.tasks, task).value;
      WithoutExactly(s.ring, x);
      assert CancelledAt(s, r, x);
      forall y: nat ensures !Names(r.tasks, task, y) {
        NamesOne(s.tasks, r.tasks, task, x, y);
      }
    }
  }

  ghost predicate CancelledAt(s: State, r: State, x: nat)
  {
    && x < |s.tasks| == |r.tasks| && !r.tasks[x].queued && r.tasks[x].generation == s.tasks[x].generation
    && (forall i :: 0 <= i < |s.tasks| && i != x ==> r.tasks[i] == s.tasks[i])
    && (if x in s.ring then exists k :: 0 <= k < |s.ring| && s.ring[k] == x && r.ring == s.ring[..k] + s.ring[k + 1..] else r.ring == s.ring)
    && r.pending == s.pending - 1 && r.terminated == s.terminated && r.ticks == s.ticks && r.updating == s.updating
    && r.log == s.log + [Cancelled(x, s.tasks[x].generation)]
  }

  lemma WithoutExactly(ring: seq<nat>, x: nat)
    requires Distinct(ring)
    ensures if x in ring then exists k :: 0 <= k < |ring| && ring[k] == x && Without(ring, x) == ring[..k] + ring[k + 1..] else Without(ring, x) == ring
  {
    if x in ring {
      var k :| 0 <= k < |ring| && ring[k] == x;
      WithoutAt(ring, k);
    } else {
      WithoutAbsent(ring, x);
    }
  }

  lemma NamesOne(before: seq<Slot>, after: seq<Slot>, task: Task, x: nat, y: nat)
    requires Names(before, task, x) && |after| == |before| < U32 && !after[x].queued
    requires forall i :: 0 <= i < |before| && i != x ==> after[i] == before[i]
    ensures !Names(after, task, y)
  {
    if y != x && Names(after, task, y) {
      assert Names(before, task, y);
      IdentifiesNamed(before, task, x);
      IdentifiesNamed(before, task, y);
      assert false;
    }
  }
}
