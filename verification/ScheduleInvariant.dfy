/**
 * The scheduler's representation invariant, kept by every public call, also
 * while a step runs: then the running slot is the one hole between the ring
 * and the queued slots, for as long as its task is still current.
 */
module ScheduleInvariant {
  import opened Common
  import opened ScheduleModel

  ghost predicate Inv(s: State, hole: Option<nat>)
  {
    && Distinct(s.ring)
    && (forall x :: x in s.ring ==> x < |s.tasks| && s.tasks[x].queued)
    && (forall i :: 0 <= i < |s.tasks| && s.tasks[i].queued ==> i in s.ring || hole == Some(i))
    && (forall i :: 0 <= i < |s.tasks| && s.tasks[i].queued ==> s.tasks[i].generation >= 1 && s.tasks[i].step != 0)
    && (hole.Some? ==> hole.value < |s.tasks| && s.tasks[hole.value].queued && hole.value !in s.ring)
    && s.pending == |s.ring| + (if hole.Some? then 1 else 0)
    && (s.terminated ==> s.ring == [] && hole == None)
    && (s.updating ==> s.remaining <= |s.ring|)
  }

  /** Between frames: the ring holds exactly the queued slots. */
  ghost predicate Idle(s: State)
  {
    Inv(s, None) && !s.updating
  }

  /** No step makes 2^32 - 1 calls, so no slot's generation can come round while its step runs. */
  ghost predicate NoWrap(env: Env)
  {
    forall step, n :: |env.behave(step, n).calls| < 0xFFFF_FFFF
  }

  ghost predicate ValidConfig(config: Config)
  {
    config.capacity > 0 && config.stepsPerFrame > 0 && config.budget <= MAX_DELAY
  }

  /** Clock readings, runs and the log do not matter to the invariant. */
  lemma InvFrame(s: State, r: State, hole: Option<nat>)
    requires Inv(s, hole)
    requires r.tasks == s.tasks && r.ring == s.ring && r.pending == s.pending && r.terminated == s.terminated
    requires (r.updating == s.updating && r.remaining == s.remaining) || (r.updating ==> r.remaining <= |r.ring|)
    ensures Inv(r, hole)
  {
  }

  /** An identifier names its slot exactly while that slot is queued under that generation. */
  lemma IdentifyExact(tasks: seq<Slot>, index: nat, generation: uint32)
    requires index < |tasks| && index + 1 < U32
    ensures Identify(tasks, MakeTask(index, generation))
         == if tasks[index].queued && tasks[index].generation == generation then Some(index) else None
  {
    var task := MakeTask(index, generation);
    assert task == generation * 0x1_0000_0000 + (index + 1);
    assert task % 0x1_0000_0000 == index + 1 && task / 0x1_0000_0000 == generation;
  }

  // ---------------------------------------------------------------- the ring

  lemma {:induction false} WithoutAbsent(ring: seq<nat>, target: nat)
    requires target !in ring
    ensures Without(ring, target) == ring
  {
    if ring != [] {
      WithoutAbsent(ring[1..], target);
    }
  }

  /** On a ring without duplicates the filter deletes one position and moves nothing else. */
  lemma {:induction false} WithoutAt(ring: seq<nat>, k: nat)
    requires k < |ring| && Distinct(ring)
    ensures Without(ring, ring[k]) == ring[..k] + ring[k + 1..]
  {
    if k == 0 {
      assert ring[0] !in ring[1..];
      WithoutAbsent(ring[1..], ring[0]);
    } else {
      assert Distinct(ring[1..]);
      assert ring[1..][k - 1] == ring[k];
      WithoutAt(ring[1..], k - 1);
      assert ring[..k] + ring[k + 1..] == [ring[0]] + (ring[1..][..k - 1] + ring[1..][k..]);
    }
  }

  lemma {:induction false} WithoutMembers(ring: seq<nat>, target: nat)
    requires Distinct(ring)
    ensures Distinct(Without(ring, target))
    ensures forall x :: x in Without(ring, target) <==> x in ring && x != target
    ensures |Without(ring, target)| == |ring| - (if target in ring then 1 else 0)
  {
    if ring != [] {
      assert ring == [ring[0]] + ring[1..];
      assert Distinct(ring[1..]);
      WithoutMembers(ring[1..], target);
      var rest := Without(ring[1..], target);
      assert ring[0] !in ring[1..];
      assert ring[0] !in rest;
      assert Distinct([ring[0]] + rest);
    }
  }

  ghost function Range(n: nat): (r: set<nat>)
    ensures |r| == n
    ensures forall i: nat :: i in r <==> i < n
  {
    if n == 0 then {} else Range(n - 1) + {n - 1}
  }

  ghost function QueuedSlots(s: State): set<nat>
  {
    set i: nat | i < |s.tasks| && s.tasks[i].queued
  }

  /** `pending` is the number of queued slots, running one included. */
  lemma PendingCountsQueued(s: State, hole: Option<nat>)
    requires Inv(s, hole)
    ensures s.pending == |QueuedSlots(s)|
    ensures s.pending <= |s.tasks|
  {
    ListsSize(s.ring, Members(s.ring));
    if hole.Some? {
      assert QueuedSlots(s) == Members(s.ring) + {hole.value};
    } else {
      assert QueuedSlots(s) == Members(s.ring);
    }
    SubsetSize(QueuedSlots(s), Range(|s.tasks|));
  }

  lemma AllQueuedFills(s: State)
    requires forall i :: 0 <= i < |s.tasks| ==> s.tasks[i].queued
    ensures |QueuedSlots(s)| == |s.tasks|
  {
    assert QueuedSlots(s) == Range(|s.tasks|);
  }

  /** The capacity check is exact: below capacity a free slot exists, so the search cannot fail. */
  lemma FreeSlotExists(s: State, hole: Option<nat>)
    requires Inv(s, hole) && s.pending != |s.tasks|
    ensures FirstFree(s.tasks, 0) < |s.tasks|
    ensures |s.ring| < |s.tasks|
  {
    PendingCountsQueued(s, hole);
    if FirstFree(s.tasks, 0) == |s.tasks| {
      AllQueuedFills(s);
    }
  }

  /** While a task runs the ring has room, so putting it back overwrites nothing. */
  lemma RoomToRequeue(s: State, index: nat)
    requires Inv(s, Some(index))
    ensures |s.ring| < |s.tasks| && index < |s.tasks| && s.tasks[index].queued
  {
    PendingCountsQueued(s, Some(index));
  }

  // ------------------------------------------------------------- generations

  function BumpN(generation: uint32, n: nat): uint32
    requires generation >= 1
    ensures BumpN(generation, n) >= 1
  {
    if n == 0 then generation else Bump(BumpN(generation, n - 1))
  }

  lemma {:induction false} BumpNClosed(generation: uint32, n: nat)
    requires generation >= 1
    ensures BumpN(generation, n) == 1 + (generation - 1 + n) % 0xFFFF_FFFF
  {
    if n > 0 {
      BumpNClosed(generation, n - 1);
      ModSuccessor(generation - 1 + n - 1);
    }
  }

  lemma ModSuccessor(x: nat)
    ensures (x + 1) % 0xFFFF_FFFF == if x % 0xFFFF_FFFF == 0xFFFF_FFFE then 0 else x % 0xFFFF_FFFF + 1
  {
  }

  /** A generation comes back only after 2^32 - 1 reuses of its slot. */
  lemma BumpNDiffers(generation: uint32, n: nat)
    requires generation >= 1 && 0 < n < 0xFFFF_FFFF
    ensures BumpN(generation, n) != generation
  {
    BumpNClosed(generation, n);
  }

  /** The task that held `index` under `generation` is gone; the slot was reused at most `calls` times since. */
  ghost predicate Gone(s: State, index: nat, generation: uint32, calls: nat)
    requires generation >= 1 && index < |s.tasks|
  {
    exists m: nat :: m <= calls && s.tasks[index].generation == BumpN(generation, m) && (s.tasks[index].queued ==> m > 0)
  }

  // ------------------------------------------------------ calls keep the invariant

  lemma EnqueueInv(s: State, hole: Option<nat>, step: Step, deadline: uint32, call: Call)
    requires Inv(s, hole)
    ensures Inv(Enqueue(s, step, deadline, call).0, hole)
    ensures hole.Some? ==> Enqueue(s, step, deadline, call).0.tasks[hole.value] == s.tasks[hole.value]
    ensures |s.ring| <= |Enqueue(s, step, deadline, call).0.ring|
  {
    if !s.terminated && step != 0 && s.pending != |s.tasks| {
      FreeSlotExists(s, hole);
      var index := FirstFree(s.tasks, 0);
      var r := Enqueue(s, step, deadline, call).0;
      assert index !in s.ring;
      assert forall x :: x in r.ring ==> x in s.ring || x == index;
      assert index in r.ring by { assert r.ring[|s.ring|] == index; }
      assert forall x :: x in s.ring ==> x in r.ring by {
        assert forall k :: 0 <= k < |s.ring| ==> r.ring[k] == s.ring[k];
      }
    }
  }

  /** The reused slot's generation moved by at most one bump. */
  lemma EnqueueGone(s: State, hole: Option<nat>, step: Step, deadline: uint32, call: Call, index: nat, generation: uint32, calls: nat)
    requires Inv(s, hole) && index < |s.tasks| && generation >= 1
    requires Gone(s, index, generation, calls)
    ensures Gone(Enqueue(s, step, deadline, call).0, index, generation, calls + 1)
  {
    var m: nat :| m <= calls && s.tasks[index].generation == BumpN(generation, m) && (s.tasks[index].queued ==> m > 0);
    var r := Enqueue(s, step, deadline, call).0;
    if r.tasks[index] != s.tasks[index] {
      assert r.tasks[index].generation == BumpN(generation, m + 1);
    }
  }

  lemma CancelInv(s: State, hole: Option<nat>, task: Task) returns (after: Option<nat>)
    requires Inv(s, hole)
    ensures Inv(DoCancel(s, task).0, after)
    ensures after == hole || after == None
    ensures hole.Some? && after.Some? ==> DoCancel(s, task).0.tasks[hole.value] == s.tasks[hole.value]
    ensures hole.Some? && after.None? ==>
              DoCancel(s, task).0.tasks[hole.value].generation == s.tasks[hole.value].generation
              && !DoCancel(s, task).0.tasks[hole.value].queued
  {
    after := hole;
    match Identify(s.tasks, task)
    case None =>
    case Some(index) =>
      WithoutMembers(s.ring, index);
      if index !in s.ring {
        after := None;
      }
  }

  lemma NestedCallInv(env: Env, s: State, hole: Option<nat>, call: Call) returns (after: Option<nat>)
    requires Inv(s, hole)
    ensures Inv(NestedCall(env, s, call), after)
    ensures after == hole || after == None
    ensures hole.Some? && after.Some? ==> NestedCall(env, s, call).tasks[hole.value] == s.tasks[hole.value]
    ensures hole.Some? && after.None? ==> Gone(NestedCall(env, s, call), hole.value, s.tasks[hole.value].generation, 0)
  {
    after := hole;
    match call
    case Schedule(step) => EnqueueInv(Tick(s), hole, step, Now(env, s), call);
    case ScheduleAfter(ms, step) => EnqueueInv(Tick(s), hole, step, Add32(Now(env, s), ms), call);
    case ScheduleAt(deadline, step) => EnqueueInv(Tick(s), hole, step, deadline, call);
    case Cancel(task) =>
      after := CancelInv(s, hole, task);
      if hole.Some? && after.None? {
        assert BumpN(s.tasks[hole.value].generation, 0) == s.tasks[hole.value].generation;
      }
    case Pending(_) =>
    case Update =>
    case Terminate =>
      after := None;
      if hole.Some? {
        assert BumpN(s.tasks[hole.value].generation, 0) == s.tasks[hole.value].generation;
      }
  }

  lemma NestedCallGone(env: Env, s: State, call: Call, index: nat, generation: uint32, calls: nat)
    requires Inv(s, None) && index < |s.tasks| && generation >= 1
    requires Gone(s, index, generation, calls)
    ensures Gone(NestedCall(env, s, call), index, generation, calls + 1)
  {
    if call.Schedule? {
      EnqueueGone(Tick(s), None, call.step, Now(env, s), call, index, generation, calls);
    } else if call.ScheduleAfter? && call.ms <= MAX_DELAY {
      EnqueueGone(Tick(s), None, call.step, Add32(Now(env, s), call.ms), call, index, generation, calls);
    } else if call.ScheduleAt? && (Reached(Now(env, s), call.deadline) || Sub32(call.deadline, Now(env, s)) <= MAX_DELAY) {
      EnqueueGone(Tick(s), None, call.step, call.deadline, call, index, generation, calls);
    } else {
      QuietCall(env, s, call, index);
      var m: nat :| m <= calls && s.tasks[index].generation == BumpN(generation, m) && (s.tasks[index].queued ==> m > 0);
    }
  }

  /** A call that schedules nothing changes no generation and queues no slot. */
  lemma QuietCall(env: Env, s: State, call: Call, index: nat)
    requires index < |s.tasks|
    requires !call.Schedule?
    requires call.ScheduleAfter? ==> call.ms > MAX_DELAY
    requires call.ScheduleAt? ==> !Reached(Now(env, s), call.deadline) && Sub32(call.deadline, Now(env, s)) > MAX_DELAY
    ensures NestedCall(env, s, call).tasks[index].generation == s.tasks[index].generation
    ensures NestedCall(env, s, call).tasks[index].queued ==> s.tasks[index].queued
  {
  }

  lemma {:induction false} RunCallsGone(env: Env, s: State, calls: seq<Call>, index: nat, generation: uint32, before: nat)
    requires Inv(s, None) && index < |s.tasks| && generation >= 1
    requires Gone(s, index, generation, before)
    ensures Inv(RunCalls(env, s, calls), None)
    ensures Gone(RunCalls(env, s, calls), index, generation, before + |calls|)
    decreases |calls|
  {
    if calls != [] {
      var after := NestedCallInv(env, s, None, calls[0]);
      NestedCallGone(env, s, calls[0], index, generation, before);
      RunCallsGone(env, NestedCall(env, s, calls[0]), calls[1..], index, generation, before + 1);
    }
  }

  /**
   * A running step may do anything: afterwards either its task is still
   * current and untouched, or the slot no longer carries its generation.
   */
  lemma {:induction false} RunCallsInv(env: Env, s: State, running: nat, calls: seq<Call>)
    requires Inv(s, Some(running)) && |calls| < 0xFFFF_FFFF
    ensures running < |s.tasks|
    ensures var r := RunCalls(env, s, calls);
            if r.tasks[running].queued && r.tasks[running].generation == s.tasks[running].generation
            then Inv(r, Some(running)) && r.tasks[running] == s.tasks[running]
            else Inv(r, None)
    decreases |calls|
  {
    if calls != [] {
      var r := NestedCall(env, s, calls[0]);
      var after := NestedCallInv(env, s, Some(running), calls[0]);
      if after.Some? {
        RunCallsInv(env, r, running, calls[1..]);
      } else {
        var generation := s.tasks[running].generation;
        RunCallsGone(env, r, calls[1..], running, generation, 0);
        var t := RunCalls(env, s, calls);
        var m: nat :| m <= |calls| && t.tasks[running].generation == BumpN(generation, m) && (t.tasks[running].queued ==> m > 0);
        if t.tasks[running].queued {
          BumpNDiffers(generation, m);
        }
      }
    }
  }

  lemma ReleaseInv(s: State, index: nat)
    requires Inv(s, Some(index))
    ensures Inv(Release(s, index), None)
  {
  }

  lemma RequeueInv(s: State, index: nat, due: uint32, repeating: bool)
    requires Inv(s, Some(index))
    ensures Inv(Requeue(s, index, due, repeating), None)
  {
    var r := Requeue(s, index, due, repeating);
    assert forall x :: x in r.ring ==> x in s.ring || x == index;
    assert r.ring[|s.ring|] == index;
    assert forall k :: 0 <= k < |s.ring| ==> r.ring[k] == s.ring[k];
  }

  lemma PopInv(s: State)
    requires Inv(s, None) && s.ring != []
    ensures Inv(Pop(s), Some(s.ring[0]))
  {
    var r := Pop(s);
    var head := s.ring[0];
    assert s.ring == [head] + r.ring;
    assert Distinct(r.ring);
    assert head !in r.ring;
    assert head in s.ring;
    assert forall x :: x in s.ring <==> x == head || x in r.ring;
  }

  /** One turn of the update loop; in particular the popped slot is always queued. */
  lemma ExamineInv(env: Env, config: Config, s: State, frame: Frame, now: uint32)
    requires Inv(s, None) && s.ring != [] && s.remaining > 0 && NoWrap(env)
    ensures s.ring[0] < |s.tasks| && s.tasks[s.ring[0]].queued
    ensures Inv(Examine(env, config, s, frame, now).s, None)
  {
    hide RunOrDefer;
    var popped := Pop(s);
    PopInv(s);
    InvFrame(popped, Tick(popped), Some(s.ring[0]));
    if ChecksBudget(config, frame) {
      RunOrDeferInv(env, popped, frame, now, s.ring[0]);
    } else {
      RunOrDeferInv(env, Tick(popped), frame, Now(env, popped), s.ring[0]);
    }
  }

  lemma RunOrDeferInv(env: Env, s: State, frame: Frame, now: uint32, index: nat)
    requires Inv(s, Some(index)) && NoWrap(env)
    ensures index < |s.tasks|
    ensures Inv(RunOrDefer(env, s, frame, now, index).s, None)
  {
    hide RunTask;
    var slot := s.tasks[index];
    RequeueInv(s, index, slot.due, slot.repeating);
    assert Requeue(s, index, slot.due, slot.repeating).tasks == s.tasks;
    RunTaskInv(env, s, frame, now, index);
  }

  lemma TakeTurnInv(env: Env, config: Config, s: State, frame: Frame, start: uint32, now: uint32)
    requires Inv(s, None) && s.ring != [] && s.remaining > 0 && NoWrap(env)
    ensures s.ring[0] < |s.tasks| && s.tasks[s.ring[0]].queued
    ensures Inv(TakeTurn(env, config, s, frame, start, now).s, None)
  {
    hide Examine;
    ExamineInv(env, config, s, frame, now);
    InvFrame(s, Tick(s), None);
    ExamineInv(env, config, Tick(s), frame, Now(env, s));
  }

  /** A step that has made its calls leaves its own slot untouched, or no longer owns it. */
  lemma AfterCallsInv(env: Env, s: State, index: nat)
    requires Inv(s, Some(index)) && NoWrap(env)
    ensures index < |s.tasks|
    ensures var t := AfterCalls(env, s, index);
            if t.tasks[index].queued && t.tasks[index].generation == s.tasks[index].generation
            then Inv(t, Some(index)) && t.tasks[index] == s.tasks[index]
            else Inv(t, None)
  {
    InvFrame(s, Started(env, s, index), Some(index));
    RunCallsInv(env, Started(env, s, index), index, Behave(env, s, index).calls);
  }

  lemma TerminatedHasNoHole(s: State, index: nat)
    requires Inv(s, Some(index))
    ensures !s.terminated
  {
  }

  lemma RunTaskInv(env: Env, s: State, frame: Frame, now: uint32, index: nat)
    requires Inv(s, Some(index)) && NoWrap(env)
    ensures index < |s.tasks|
    ensures Inv(RunTask(env, s, frame, now, index).s, None)
  {
    hide ApplyAction, AfterCalls, Inv;
    AfterCallsInv(env, s, index);
    var t := AfterCalls(env, s, index);
    if t.tasks[index].queued && t.tasks[index].generation == s.tasks[index].generation {
      TerminatedHasNoHole(t, index);
      ApplyActionInv(env, t, frame.(steps := frame.steps + 1), now, index, s.tasks[index].due, Behave(env, s, index).action);
    }
  }

  lemma ApplyActionInv(env: Env, t: State, frame: Frame, now: uint32, index: nat, due: uint32, action: Action)
    requires Inv(t, Some(index))
    ensures index < |t.tasks|
    ensures Inv(ApplyAction(env, t, frame, now, index, due, action).s, None)
  {
    ReleaseInv(t, index);
    match action
    case Complete =>
    case Delay(ms) => RequeueInv(Tick(t), index, Add32(Now(env, t), ms), false);
    case Repeat(ms) => RequeueInv(t, index, Add32(due, ms), true);
    case Yield => RequeueInv(t, index, now, false);
  }

  lemma {:induction false} LoopInv(env: Env, config: Config, s: State, frame: Frame, start: uint32, now: uint32)
    requires Inv(s, None) && NoWrap(env)
    ensures Inv(Loop(env, config, s, frame, start, now).s, None)
    decreases if s.remaining > 0 then s.remaining else 0
  {
    if s.remaining > 0 && frame.steps < config.stepsPerFrame && s.ring != [] {
      TakeTurnInv(env, config, s, frame, start, now);
      var t := TakeTurn(env, config, s, frame, start, now);
      if t.stop == Next {
        LoopInv(env, config, t.s, t.frame, start, t.now);
      }
    }
  }

  lemma TopCallInv(env: Env, config: Config, s: State, call: Call)
    requires Idle(s) && NoWrap(env)
    ensures Idle(TopCall(env, config, s, call))
  {
    if call == Update {
      if !s.terminated {
        LoopInv(env, config, Begin(s), Frame(0, 0, 0, false), Now(env, s), Now(env, s));
      }
    } else {
      var after := NestedCallInv(env, s, None, call);
    }
  }

  /** Every run of public calls keeps the ring equal to the queued slots. */
  lemma {:induction false} DriveInv(env: Env, config: Config, s: State, calls: seq<Call>)
    requires Idle(s) && NoWrap(env)
    ensures Idle(Drive(env, config, s, calls))
    decreases |calls|
  {
    if calls != [] {
      TopCallInv(env, config, s, calls[0]);
      DriveInv(env, config, TopCall(env, config, s, calls[0]), calls[1..]);
    }
  }
}
