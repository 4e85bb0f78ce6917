/**
 * The scheduler as the object it is in playdate/schedule/schedule.go: a slot
 * table and a circular queue updated in place, whose Update runs user steps
 * that call back into the same object.  Every method is proved to do what the
 * pure machine of ScheduleModel does.
 */
module Schedulers {
  import opened Common
  import opened ScheduleModel
  import opened ScheduleInvariant

  /** The place of the i-th entry in a circular buffer; different entries have different places. */
  function Place(head: nat, i: nat, size: nat): (r: nat)
    requires head < size && i <= size
    ensures r < size
    ensures r == if head + i < size then head + i else head + i - size
  {
    WrapOnce(head + i, size);
    (head + i) % size
  }

  lemma WrapOnce(x: nat, size: nat)
    requires 0 < size && x < 2 * size
    ensures x % size == if x < size then x else x - size
  {
    var q := x / size;
    assert x == q * size + x % size;
    if q >= 2 {
      MulMonotone(2, q, size);
    }
  }

  lemma MulMonotone(a: int, b: int, c: nat)
    requires a <= b
    ensures a * c <= b * c
  {
  }

  class Scheduler {
    const env: Env
    const config: Config
    const tasks: array<Slot>
    const queue: array<nat>
    var head: nat
    var length: nat
    var pending: int
    var terminated: bool
    var updating: bool
    var remaining: int
    /** Clock readings taken and steps run so far: the environment's position. */
    var ticks: nat
    var runs: nat
    ghost var ring: seq<nat>
    ghost var running: Option<nat>
    ghost var log: seq<Event>

    /** The circular buffer holds `ring`. */
    ghost predicate Shape()
      reads this, queue
    {
      && tasks.Length == queue.Length == config.capacity > 0
      && head < queue.Length && length == |ring| <= queue.Length
      && forall i :: 0 <= i < length ==> queue[Place(head, i, queue.Length)] == ring[i]
    }

    ghost function Model(): State
      reads this, tasks
    {
      State(tasks[..], ring, pending, terminated, updating, remaining, ticks, runs, log)
    }

    ghost predicate Valid()
      reads this, tasks, queue
    {
      && Shape()
      && Inv(Model(), running)
      && (running.Some? ==> updating)
      && ValidConfig(config) && NoWrap(env)
    }

    /** New rejects bad bounds; the clock and the step behaviours are the environment. */
    static method New(env: Env, config: Config) returns (r: Result<Scheduler, Error>)
      requires NoWrap(env)
      ensures r.Ok? <==> ValidConfig(config)
      ensures r.Err? ==> r.error == ErrConfig
      ensures r.Ok? ==> fresh(r.value) && fresh(r.value.tasks) && fresh(r.value.queue)
      ensures r.Ok? ==> r.value.Valid() && r.value.config == config && r.value.env == env
      ensures r.Ok? ==> r.value.Model() == InitialState(config.capacity)
    {
      if config.capacity <= 0 || config.stepsPerFrame <= 0 || config.budget > MAX_DELAY {
        return Err(ErrConfig);
      }
      var scheduler := new Scheduler(env, config);
      return Ok(scheduler);
    }

    constructor (env: Env, config: Config)
      requires ValidConfig(config) && NoWrap(env)
      ensures Valid() && this.config == config && this.env == env && fresh(tasks) && fresh(queue)
      ensures Model() == InitialState(config.capacity)
    {
      this.env := env;
      this.config := config;
      tasks := new Slot[config.capacity](_ => Slot(0, 0, 0, false, false));
      queue := new nat[config.capacity](_ => 0);
      head, length, pending, terminated, updating, remaining := 0, 0, 0, false, false, 0;
      ticks, runs := 0, 0;
      ring, running, log := [], None, [];
      new;
      assert tasks[..] == InitialState(config.capacity).tasks;
    }

    method ReadClock() returns (now: uint32)
      requires Valid()
      modifies this`ticks
      ensures Valid()
      ensures Model() == Tick(old(Model())) && now == Now(env, old(Model()))
    {
      InvFrame(Model(), Tick(Model()), running);
      now := env.clock(ticks);
      ticks := ticks + 1;
    }

    method Push(index: nat)
      requires Shape() && length < queue.Length
      modifies this`length, this`ring, queue
      ensures Shape() && ring == old(ring) + [index]
    {
      hide Place;
      var position := Place(head, length, queue.Length);
      queue[position] := index;
      length := length + 1;
      ring := ring + [index];
    }

    method Pop() returns (index: nat)
      requires Shape() && length > 0
      modifies this`head, this`length, this`ring
      ensures Shape() && index == old(ring)[0] && ring == old(ring)[1..]
    {
      hide Place;
      assert queue[Place(head, 0, queue.Length)] == ring[0];
      index := queue[head];
      ghost var before := head;
      head := Place(head, 1, queue.Length);
      assert forall i :: 0 <= i < length - 1 ==> Place(head, i, queue.Length) == Place(before, i + 1, queue.Length);
      length := length - 1;
      ring := ring[1..];
    }

    /** In place, entries other than `target` are moved down and keep their order. */
    method RemoveQueued(target: nat) returns (removed: bool)
      requires Shape()
      modifies this`length, this`ring, queue
      ensures Shape() && ring == Without(old(ring), target)
      ensures removed <==> target in old(ring)
    {
      hide Place, Without;
      var kept := 0;
      var count := length;
      removed := false;
      ghost var goal := Without(ring, target);
      assert ring[0..] == ring;
      for offset := 0 to count
        invariant ring == old(ring)
        invariant kept <= offset <= count == |ring| == length && kept <= |goal|
        invariant goal[kept..] == Without(ring[offset..], target)
        invariant removed <==> kept < offset
        invariant forall i :: 0 <= i < kept ==> queue[Place(head, i, queue.Length)] == goal[i]
        invariant forall i :: offset <= i < count ==> queue[Place(head, i, queue.Length)] == ring[i]
      {
        var index := queue[Place(head, offset, queue.Length)];
        WithoutStep(ring, offset, target);
        if index == target {
          removed := true;
        } else {
          assert goal[kept..][0] == index && goal[kept..][1..] == goal[kept + 1..];
          queue[Place(head, kept, queue.Length)] := index;
          kept := kept + 1;
        }
      }
      WithoutStep(ring, count, target);
      WithoutShorter(ring, target);
      assert |goal[kept..]| == 0;
      length := kept;
      ring := goal;
    }

    static lemma {:induction false} WithoutShorter(ring: seq<nat>, target: nat)
      ensures |Without(ring, target)| < |ring| <==> target in ring
    {
      if ring != [] {
        WithoutShorter(ring[1..], target);
        assert ring == [ring[0]] + ring[1..];
      }
    }

    /** One step of the filter, read from the front. */
    static lemma WithoutStep(ring: seq<nat>, offset: nat, target: nat)
      requires offset <= |ring|
      ensures offset == |ring| ==> Without(ring[offset..], target) == []
      ensures offset < |ring| && ring[offset] == target ==>
                Without(ring[offset..], target) == Without(ring[offset + 1..], target)
      ensures offset < |ring| && ring[offset] != target ==>
                var kept := Without(ring[offset..], target);
                |kept| > 0 && kept[0] == ring[offset] && kept[1..] == Without(ring[offset + 1..], target)
    {
      if offset < |ring| {
        assert ring[offset..][1..] == ring[offset + 1..];
      }
    }

    method Release(index: nat)
      requires Shape() && index < tasks.Length
      modifies this`pending, tasks
      ensures Shape()
      ensures Model() == ScheduleModel.Release(old(Model()), index)
    {
      var slot := tasks[index];
      if slot.queued {
        tasks[index] := Slot(0, slot.due, slot.generation, false, false);
        pending := pending - 1;
      }
    }

    function Find(task: Task): (r: Option<nat>)
      reads this, tasks
      ensures r == Identify(tasks[..], task)
    {
      var index := task % 0x1_0000_0000 - 1;
      if task == 0 || index < 0 || index >= tasks.Length then None
      else if tasks[index].queued && tasks[index].generation == task / 0x1_0000_0000 then Some(index)
      else None
    }

    method Pending(task: Task) returns (live: bool)
      requires Valid()
      ensures live <==> Identify(Model().tasks, task).Some?
    {
      live := Find(task).Some?;
    }

    /** The scan always finds a free slot below capacity, so the final ErrFull is never returned. */
    /** With a free slot, a step and no termination the first free slot takes the task. */
    static lemma EnqueueAt(s: State, step: Step, deadline: uint32, call: Call)
      requires !s.terminated && step != 0 && s.pending != |s.tasks| && FirstFree(s.tasks, 0) < |s.tasks|
      ensures var index := FirstFree(s.tasks, 0);
              Enqueue(s, step, deadline, call) ==
                (Filled(s, index, step, deadline, call), Ok(MakeTask(index, Bump(s.tasks[index].generation))))
    {
    }

    /** The state with the new task in this slot and at the ring's end. */
    static ghost function Filled(s: State, index: nat, step: Step, deadline: uint32, call: Call): State
      requires index < |s.tasks|
    {
      var generation := Bump(s.tasks[index].generation);
      s.(tasks := s.tasks[index := Slot(step, deadline, generation, true, false)], ring := s.ring + [index],
         pending := s.pending + 1, log := s.log + [Scheduled(index, generation, call, s.ticks)])
    }

    /** The free slot that the scan has found takes the task: lines 149 to 159. */
    method Fill(index: nat, step: Step, deadline: uint32, ghost call: Call) returns (task: Task)
      requires Shape() && index < tasks.Length && length < queue.Length
      modifies this`length, this`ring, this`pending, this`log, queue, tasks
      ensures Shape() && Model() == Filled(old(Model()), index, step, deadline, call)
      ensures task == MakeTask(index, Bump(old(tasks[index].generation)))
    {
      hide Bump, Place;
      var generation := Bump(tasks[index].generation);
      tasks[index] := Slot(step, deadline, generation, true, false);
      Push(index);
      pending := pending + 1;
      log := log + [Scheduled(index, generation, call, ticks)];
      task := MakeTask(index, generation);
    }

    method ScheduleAtDeadline(step: Step, deadline: uint32, ghost call: Call) returns (r: Result<Task, Error>)
      requires Valid()
      modifies this`length, this`ring, this`pending, this`log, queue, tasks
      ensures Valid()
      ensures Model() == Enqueue(old(Model()), step, deadline, call).0
      ensures r == Enqueue(old(Model()), step, deadline, call).1
    {
      EnqueueInv(Model(), running, step, deadline, call);
      if terminated { return Err(ErrTerminated); }
      if step == 0 { return Err(ErrTask); }
      if pending == tasks.Length { return Err(ErrFull); }
      FreeSlotExists(Model(), running);
      var index := 0;
      while index < tasks.Length && tasks[index].queued
        invariant index <= FirstFree(tasks[..], 0) < tasks.Length
        invariant FirstFree(tasks[..], index) == FirstFree(tasks[..], 0)
        decreases tasks.Length - index
      {
        index := index + 1;
      }
      assert index == FirstFree(tasks[..], 0);
      EnqueueAt(Model(), step, deadline, call);
      hide FirstFree, Shape, Bump, Inv, Enqueue;
      var task := Fill(index, step, deadline, call);
      return Ok(task);
    }

    method Schedule(step: Step) returns (r: Result<Task, Error>)
      requires Valid()
      modifies this`length, this`ring, this`pending, this`ticks, this`log, queue, tasks
      ensures Valid()
      ensures Model() == DoSchedule(env, old(Model()), step).0
      ensures r == DoSchedule(env, old(Model()), step).1
    {
      hide Valid, Enqueue;
      var now := ReadClock();
      r := ScheduleAtDeadline(step, now, Call.Schedule(step));
    }

    method ScheduleAfter(ms: uint32, step: Step) returns (r: Result<Task, Error>)
      requires Valid()
      modifies this`length, this`ring, this`pending, this`ticks, this`log, queue, tasks
      ensures Valid()
      ensures Model() == DoScheduleAfter(env, old(Model()), ms, step).0
      ensures r == DoScheduleAfter(env, old(Model()), ms, step).1
    {
      if ms > MAX_DELAY { return Err(ErrDelay); }
      hide Valid, Enqueue;
      var now := ReadClock();
      r := ScheduleAtDeadline(step, Add32(now, ms), Call.ScheduleAfter(ms, step));
    }

    method ScheduleAt(deadline: uint32, step: Step) returns (r: Result<Task, Error>)
      requires Valid()
      modifies this`length, this`ring, this`pending, this`ticks, this`log, queue, tasks
      ensures Valid()
      ensures Model() == DoScheduleAt(env, old(Model()), deadline, step).0
      ensures r == DoScheduleAt(env, old(Model()), deadline, step).1
    {
      hide Valid, Enqueue;
      var now := ReadClock();
      if !Reached(now, deadline) && Sub32(deadline, now) > MAX_DELAY { return Err(ErrDelay); }
      r := ScheduleAtDeadline(step, deadline, Call.ScheduleAt(deadline, step));
    }

    method CancelSlot(index: nat)
      requires Shape() && index < tasks.Length
      modifies this`length, this`ring, this`pending, this`remaining, this`log, queue, tasks
      ensures Shape() && Model() == ScheduleModel.CancelSlot(old(Model()), index)
    {
      hide Without, ScheduleModel.Release;
      ghost var before := Model();
      log := log + [Cancelled(index, tasks[index].generation)];
      var removed := RemoveQueued(index);
      if removed && updating {
        remaining := remaining - 1;
      }
      Release(index);
    }

    method Cancel(task: Task) returns (cancelled: bool)
      requires Valid()
      modifies this`length, this`ring, this`pending, this`remaining, this`running, this`log, queue, tasks
      ensures Valid()
      ensures Model() == DoCancel(old(Model()), task).0
      ensures cancelled == DoCancel(old(Model()), task).1
    {
      ghost var after := CancelInv(Model(), running, task);
      hide Inv, NoWrap, ValidConfig, Identify, ScheduleModel.CancelSlot;
      match Find(task)
      case None => return false;
      case Some(index) =>
        CancelSlot(index);
        running := after;
        return true;
    }

    /** Lines 295 to 298: every slot is released. */
    method ReleaseAll()
      modifies tasks
      ensures tasks[..] == seq(tasks.Length, i requires 0 <= i < tasks.Length => old(tasks[i]).(step := 0, queued := false))
    {
      for index := 0 to tasks.Length
        invariant forall i :: 0 <= i < index ==> tasks[i] == old(tasks[i]).(step := 0, queued := false)
        invariant forall i :: index <= i < tasks.Length ==> tasks[i] == old(tasks[i])
      {
        tasks[index] := tasks[index].(step := 0, queued := false);
      }
    }

    static lemma TerminateInv(env: Env, s: State, hole: Option<nat>) returns (after: Option<nat>)
      requires Inv(s, hole)
      ensures Inv(DoTerminate(s), after) && (after.Some? ==> hole.Some?)
    {
      after := NestedCallInv(env, s, hole, Call.Terminate);
      hide Inv;
    }

    method Terminate()
      requires Valid()
      modifies this, tasks
      ensures Valid()
      ensures Model() == DoTerminate(old(Model()))
    {
      ghost var before := Model();
      ghost var after := TerminateInv(env, before, running);
      hide Inv, NoWrap, ValidConfig, Place;
      ReleaseAll();
      head, length, pending, remaining, terminated := 0, 0, 0, 0, true;
      ring, running := [], after;
      assert Model() == DoTerminate(before);
    }

    // ---------------------------------------------------------------- update

    /** Between pop and requeue: `index` is queued but in no ring position. */
    ghost predicate Holding(index: nat)
      reads this, tasks, queue
    {
      Valid() && updating && running == Some(index)
    }

    lemma HoldingFacts(index: nat)
      requires Holding(index)
      ensures index < tasks.Length && tasks[index].queued
      ensures Inv(Model(), Some(index)) && length < queue.Length
    {
      RoomToRequeue(Model(), index);
    }

    /** A call from a running step. */
    method MakeCall(call: Call)
      requires Valid() && updating
      modifies this, tasks, queue
      ensures Valid() && updating
      ensures Model() == NestedCall(env, old(Model()), call)
      decreases 1, 0
    {
      hide Valid, DoSchedule, DoScheduleAfter, DoScheduleAt, DoCancel;
      match call
      case Schedule(step) => var _ := Schedule(step);
      case ScheduleAfter(ms, step) => var _ := ScheduleAfter(ms, step);
      case ScheduleAt(deadline, step) => var _ := ScheduleAt(deadline, step);
      case Cancel(task) => var _ := Cancel(task);
      case Pending(task) => var _ := Pending(task);
      case Update => var _, _ := Update();
      case Terminate => Terminate();
    }

    /** All the calls a step makes before it returns. */
    method MakeCalls(calls: seq<Call>)
      requires Valid() && updating
      modifies this, tasks, queue
      ensures Valid() && updating
      ensures Model() == RunCalls(env, old(Model()), calls)
      decreases 1, 1
    {
      hide Valid, NestedCall;
      ghost var before := Model();
      assert calls[0..] == calls;
      for i := 0 to |calls|
        invariant Valid() && updating
        invariant RunCalls(env, Model(), calls[i..]) == RunCalls(env, before, calls)
      {
        ghost var rest := calls[i..];
        assert rest[0] == calls[i] && rest[1..] == calls[i + 1..];
        MakeCall(calls[i]);
      }
      assert calls[|calls|..] == [];
    }

    method Requeue(index: nat, due: uint32, repeating: bool)
      requires Holding(index)
      modifies this`length, this`ring, this`running, queue, tasks
      ensures Valid() && updating && running == None
      ensures index < |old(tasks[..])|
      ensures Model() == ScheduleModel.Requeue(old(Model()), index, due, repeating)
    {
      RoomToRequeue(Model(), index);
      RequeueInv(Model(), index, due, repeating);
      hide Inv, NoWrap, ValidConfig;
      tasks[index] := tasks[index].(due := due, repeating := repeating);
      Push(index);
      running := None;
    }

    method Finish(index: nat)
      requires Holding(index)
      modifies this`pending, this`running, tasks
      ensures Valid() && updating && running == None
      ensures index < |old(tasks[..])|
      ensures Model() == ScheduleModel.Release(old(Model()), index)
    {
      RoomToRequeue(Model(), index);
      ReleaseInv(Model(), index);
      hide Inv, NoWrap, ValidConfig;
      Release(index);
      running := None;
    }

    /** What Update does with the action a step returned. */
    method Apply(frame: Frame, now: uint32, index: nat, previousDue: uint32, action: Action) returns (frame': Frame, stop: Stop)
      requires Holding(index)
      modifies this`length, this`ring, this`running, this`ticks, this`pending, queue, tasks
      ensures Valid() && updating && running == None
      ensures index < |old(tasks[..])|
      ensures var t := ApplyAction(env, old(Model()), frame, now, index, previousDue, action);
              Model() == t.s && frame' == t.frame && stop == t.stop
    {
      HoldingFacts(index);
      hide Valid;
      frame', stop := frame, Next;
      match action
      case Complete =>
        Finish(index);
        frame' := frame.(completed := frame.completed + 1);
      case Delay(ms) =>
        if ms > MAX_DELAY {
          Finish(index);
          return frame.(completed := frame.completed + 1, pending := pending), Fail(ErrDelay);
        }
        var read := ReadClock();
        Requeue(index, Add32(read, ms), false);
      case Repeat(ms) =>
        if ms > MAX_DELAY || ms == 0 {
          Finish(index);
          return frame.(completed := frame.completed + 1, pending := pending), Fail(ErrDelay);
        }
        Requeue(index, Add32(previousDue, ms), true);
      case Yield =>
        Requeue(index, now, false);
    }

    /** slot.step(): user code, which may call back into this scheduler before it returns its action. */
    method CallStep(index: nat) returns (action: Action)
      requires Holding(index)
      modifies this, tasks, queue
      ensures Valid() && updating
      ensures index < |old(tasks[..])|
      ensures Model() == AfterCalls(env, old(Model()), index)
      ensures action == Behave(env, old(Model()), index).action
      decreases 1, 2
    {
      RoomToRequeue(Model(), index);
      InvFrame(Model(), Started(env, Model(), index), Some(index));
      hide Inv, NoWrap, ValidConfig, RunCalls;
      ghost var before := Model();
      var slot := tasks[index];
      var behaviour := env.behave(slot.step, runs);
      runs := runs + 1;
      log := log + [Ran(index, slot.generation, slot.due, behaviour.action, ticks, ticks + Readings(behaviour.calls))];
      assert Model() == Started(env, before, index);
      MakeCalls(behaviour.calls);
      action := behaviour.action;
    }

    /** Runs a due task and applies its action, unless the step gave the task up. */
    method RunStep(frame: Frame, now: uint32, index: nat) returns (frame': Frame, stop: Stop)
      requires Holding(index)
      modifies this, tasks, queue
      ensures Valid() && updating && running == None
      ensures index < |old(tasks[..])|
      ensures var t := RunTask(env, old(Model()), frame, now, index);
              Model() == t.s && frame' == t.frame && stop == t.stop
      decreases 1, 3
    {
      HoldingFacts(index);
      AfterCallsInv(env, Model(), index);
      ghost var before := Model();
      var previousDue := tasks[index].due;
      var generation := tasks[index].generation;
      var action := CallStep(index);
      RunTaskAfter(env, before, frame, now, index);
      hide Inv, NoWrap, ValidConfig, ApplyAction, AfterCalls, RunTask, Behave, Place;
      frame', stop := frame.(steps := frame.steps + 1), Next;
      if terminated {
        NoHoleWhenTerminated(Model(), index);
        running := None;
        return Frame(frame'.steps, 0, 0, false), Fail(ErrTerminated);
      }
      if !tasks[index].queued || tasks[index].generation != generation {
        running := None;
        return;
      }
      running := Some(index);
      frame', stop := Apply(frame', now, index, previousDue, action);
    }

    /** How running a task goes on once its step has returned. */
    static lemma RunTaskAfter(env: Env, s: State, frame: Frame, now: uint32, index: nat)
      requires index < |s.tasks|
      ensures var r, one := AfterCalls(env, s, index), frame.(steps := frame.steps + 1);
              RunTask(env, s, frame, now, index) ==
                if r.terminated then Turn(r, Frame(one.steps, 0, 0, false), now, Fail(ErrTerminated))
                else if !r.tasks[index].queued || r.tasks[index].generation != s.tasks[index].generation
                then Turn(r, one, now, Next)
                else ApplyAction(env, r, one, now, index, s.tasks[index].due, Behave(env, s, index).action)
    {
    }

    static lemma NoHoleWhenTerminated(s: State, index: nat)
      requires s.terminated && (Inv(s, Some(index)) || Inv(s, None))
      ensures Inv(s, None)
    {
    }

    /** Runs the popped task when it is due, or puts it back at the end. */
    method RunOrPutBack(frame: Frame, now: uint32, index: nat) returns (frame': Frame, stop: Stop)
      requires Holding(index)
      modifies this, tasks, queue
      ensures Valid() && updating && running == None
      ensures index < |old(tasks[..])|
      ensures var t := RunOrDefer(env, old(Model()), frame, now, index);
              Model() == t.s && frame' == t.frame && now == t.now && stop == t.stop
      decreases 1, 4
    {
      ghost var held := Model();
      HoldingFacts(index);
      RunTaskNow(env, held, frame, now, index);
      hide Valid, RunTask;
      if !Reached(now, tasks[index].due) {
        Requeue(index, tasks[index].due, tasks[index].repeating);
        assert Model().tasks == held.tasks;
        frame', stop := frame, Next;
      } else {
        frame', stop := RunStep(frame, now, index);
      }
    }

    static lemma RunTaskNow(env: Env, s: State, frame: Frame, now: uint32, index: nat)
      requires index < |s.tasks|
      ensures RunTask(env, s, frame, now, index).now == now
    {
      hide AfterCalls;
    }

    /** The rest of a turn after the budget check. */
    method ExamineNext(frame: Frame, now: uint32) returns (frame': Frame, now': uint32, stop: Stop)
      requires Valid() && updating && running == None && remaining > 0 && ring != []
      modifies this, tasks, queue
      ensures Valid() && updating && running == None
      ensures old(ring)[0] < |old(tasks[..])|
      ensures var t := Examine(env, config, old(Model()), frame, now);
              Model() == t.s && frame' == t.frame && now' == t.now && stop == t.stop
      decreases 1, 5
    {
      hide Valid, RunOrDefer;
      var index := PopNext();
      now' := now;
      if !ChecksBudget(config, frame) {
        now' := ReadClock();
      }
      frame', stop := RunOrPutBack(frame, now', index);
    }

    /** The invariant makes the popped entry a queued slot, which no ring position holds any more. */
    method PopNext() returns (index: nat)
      requires Valid() && updating && running == None && ring != []
      modifies this`head, this`length, this`ring, this`remaining, this`running
      ensures Holding(index)
      ensures index == old(ring)[0] < tasks.Length && tasks[index].queued
      ensures Model() == ScheduleModel.Pop(old(Model()))
    {
      PopInv(Model());
      index := Pop();
      remaining := remaining - 1;
      running := Some(index);
      RoomToRequeue(Model(), index);
    }

    /** One pass of the loop in Update. */
    method TurnOnce(frame: Frame, start: uint32, now: uint32) returns (frame': Frame, now': uint32, stop: Stop)
      requires Valid() && updating && running == None && 0 < remaining && ring != []
      modifies this, tasks, queue
      ensures Valid() && updating && running == None
      ensures old(ring)[0] < |old(tasks[..])|
      ensures var t := TakeTurn(env, config, old(Model()), frame, start, now);
              Model() == t.s && frame' == t.frame && now' == t.now && stop == t.stop
      decreases 1, 6
    {
      TakeTurnInv(env, config, Model(), frame, start, now);
      hide Valid, Examine;
      now' := now;
      if ChecksBudget(config, frame) {
        now' := ReadClock();
        if Sub32(now', start) >= config.budget {
          return frame.(exhausted := true), now', Break;
        }
      }
      frame', now', stop := ExamineNext(frame, now');
    }

    static lemma LoopStep(env: Env, config: Config, s: State, frame: Frame, start: uint32, now: uint32)
      ensures s.remaining <= 0 || frame.steps >= config.stepsPerFrame ==>
                Loop(env, config, s, frame, start, now) == Turn(s, frame, now, Break)
      ensures s.remaining > 0 && frame.steps < config.stepsPerFrame && s.ring != [] && s.ring[0] < |s.tasks| ==>
                var t := TakeTurn(env, config, s, frame, start, now);
                Loop(env, config, s, frame, start, now)
                == if t.stop == Next then Loop(env, config, t.s, t.frame, start, t.now) else t
    {
      hide TakeTurn;
    }

    /**
     * Runs at most stepsPerFrame due tasks.  Called from inside a step it only
     * reports that an update is already running.
     */
    method Update() returns (frame: Frame, error: Option<Error>)
      requires Valid()
      modifies this, tasks, queue
      ensures Valid() && updating == old(updating)
      ensures var u := DoUpdate(env, config, old(Model()));
              Model() == u.s && frame == u.frame && error == u.error
      decreases if updating || terminated then 0 else 2
    {
      if terminated { return Frame(0, 0, 0, false), Some(ErrTerminated); }
      if updating { return Frame(0, 0, pending, false), Some(ErrUpdating); }
      var start := BeginFrame();
      hide Valid, Loop;
      var stop;
      frame, stop := TakeTurns(start);
      EndFrame();
      if stop.Fail? {
        return frame, Some(stop.error);
      }
      return frame.(pending := pending), None;
    }

    method BeginFrame() returns (start: uint32)
      requires Valid() && !updating
      modifies this`updating, this`remaining, this`ticks
      ensures Valid() && updating && running == None
      ensures Model() == Begin(old(Model())) && start == Now(env, old(Model()))
    {
      InvFrame(Model(), Begin(Model()), running);
      updating := true;
      start := env.clock(ticks);
      ticks := ticks + 1;
      remaining := length;
    }

    method EndFrame()
      requires Valid() && updating && running == None
      modifies this`updating
      ensures Valid()
      ensures Model() == old(Model()).(updating := false)
    {
      InvFrame(Model(), Model().(updating := false), None);
      updating := false;
    }

    lemma RingWhileRemaining()
      requires Valid() && updating && remaining > 0
      ensures ring != []
    {
    }

    method TakeTurns(start: uint32) returns (frame: Frame, stop: Stop)
      requires Valid() && updating && running == None
      modifies this, tasks, queue
      ensures Valid() && updating && running == None
      ensures var t := Loop(env, config, old(Model()), Frame(0, 0, 0, false), start, start);
              Model() == t.s && frame == t.frame && stop == t.stop
      decreases 1, 7
    {
      hide Valid, Loop, TakeTurn;
      frame, stop := Frame(0, 0, 0, false), Next;
      var now := start;
      ghost var before := Model();
      while stop == Next && remaining > 0 && frame.steps < config.stepsPerFrame
        invariant Valid() && updating && running == None
        invariant stop == Next ==>
            Loop(env, config, before, Frame(0, 0, 0, false), start, start) == Loop(env, config, Model(), frame, start, now)
        invariant stop != Next ==>
            Loop(env, config, before, Frame(0, 0, 0, false), start, start) == Turn(Model(), frame, now, stop)
        decreases stop == Next, remaining
      {
        RingWhileRemaining();
        LoopStep(env, config, Model(), frame, start, now);
        frame, now, stop := TurnOnce(frame, start, now);
      }
      if stop == Next {
        LoopStep(env, config, Model(), frame, start, now);
        stop := Break;
      }
    }
  }
}
