/**
 * When one update, without a time budget, stops with steps to spare before a
 * ready task: exactly when its charges cover all the entries still to be
 * examined.  Cancel charges `remaining` for any ring entry, also for a task
 * this update has already put back and for one a step has just added.
 */
module ScheduleShort {
  import opened Common
  import opened ScheduleModel
  import opened ScheduleInvariant
  import opened ScheduleTally
  import opened ScheduleOrder
  import opened ScheduleWait

  ghost predicate ValidAction(action: Action)
  {
    match action
    case Delay(ms) => ms <= MAX_DELAY
    case Repeat(ms) => 0 < ms <= MAX_DELAY
    case _ => true
  }

  /** No step asks for an invalid delay. */
  ghost predicate ValidActions(env: Env)
  {
    forall step, n :: ValidAction(env.behave(step, n).action)
  }

  // ------------------------------------------------- how the update's loop ends

  /** Every step's action is valid: only Terminate makes an update fail. */
  lemma RunTaskStops(env: Env, s: State, frame: Frame, now: uint32, index: nat)
    requires index < |s.tasks| && ValidActions(env)
    ensures var turn := RunTask(env, s, frame, now, index);
            turn.stop == Next || turn.s.terminated
  {
    hide AfterCalls;
    assert ValidAction(env.behave(s.tasks[index].step, s.runs).action);
  }

  lemma TakeTurnStops(env: Env, config: Config, s: State, frame: Frame, start: uint32, now: uint32)
    requires s.ring != [] && s.ring[0] < |s.tasks| && s.remaining > 0 && config.budget == 0
    ensures var turn := TakeTurn(env, config, s, frame, start, now);
            turn.stop != Break && (ValidActions(env) ==> turn.stop == Next || turn.s.terminated)
  {
    hide RunTask;
    var popped := Tick(Pop(s));
    if ValidActions(env) {
      RunTaskStops(env, popped, frame, Now(env, Pop(s)), s.ring[0]);
    }
  }

  /** Without a budget the loop breaks only with all its steps used or nothing left to count. */
  lemma {:induction false} LoopBreaks(env: Env, config: Config, s: State, frame: Frame, start: uint32, now: uint32)
    requires Inv(s, None) && NoWrap(env) && config.budget == 0 && s.updating
    ensures var end := Loop(env, config, s, frame, start, now);
            && (end.stop == Break ==> end.s.remaining <= 0 || end.frame.steps >= config.stepsPerFrame)
            && (ValidActions(env) ==> end.stop == Break || end.s.terminated)
    decreases if s.remaining > 0 then s.remaining else 0
  {
    if s.remaining > 0 && frame.steps < config.stepsPerFrame {
      RingWhileCounting(s);
      TakeTurnInv(env, config, s, frame, start, now);
      TakeTurnStops(env, config, s, frame, start, now);
      hide Inv, TakeTurn, ValidActions;
      var turn := TakeTurn(env, config, s, frame, start, now);
      if turn.stop == Next {
        LoopBreaks(env, config, turn.s, turn.frame, start, turn.now);
      }
    }
  }

  lemma RingWhileCounting(s: State)
    requires Inv(s, None) && s.updating && s.remaining > 0
    ensures s.ring != [] && s.ring[0] < |s.tasks|
  {
    assert s.ring[0] in s.ring;
  }

  /**
   * The exact condition: an update without a time budget that ends without an
   * error leaves an entry unexamined with steps to spare if and only if it
   * charged `remaining` at least once for each entry it left.
   */
  lemma ShortExactly(env: Env, config: Config, s: State)
    requires Idle(s) && NoWrap(env) && ValidConfig(config) && config.budget == 0
    requires DoUpdate(env, config, s).error.None?
    ensures var u, t := DoUpdate(env, config, s), UpdateTally(env, config, s);
            u.frame.steps < config.stepsPerFrame ==> (t.left > 0 <==> 0 < t.left <= t.charged)
  {
    UpdateOrder(env, config, s);
    InvFrame(s, Begin(s), None);
    hide Loop, LoopTally, Inv, Subseq, Ids, RanIds;
    LoopBreaks(env, config, Begin(s), Frame(0, 0, 0, false), Now(env, s), Now(env, s));
    assert Counted(DoUpdate(env, config, s).s, UpdateTally(env, config, s));
  }

  // --------------------------------------- what is left unexamined is unserved

  function IdOf(event: Event): Id
  {
    Id(event.index, event.generation)
  }

  /** No entry still to be examined was run or cancelled since `s`. */
  ghost predicate Untouched(s: State, r: State, u: Tally)
    requires s.log <= r.log
  {
    u.left <= |r.ring| &&
    forall event :: event in Since(s, r) && !event.Scheduled? ==> IdOf(event) !in Ids(r.tasks, r.ring[..u.left])
  }

  lemma UntouchedSame(s: State, u: Tally)
    requires u.left <= |s.ring|
    ensures Untouched(s, s, u)
  {
    assert Since(s, s) == [];
  }

  /** Entries are only lost from those still to be examined, so what happened before stays away from them. */
  lemma UntouchedChain(s: State, r: State, u: Tally, q: State, v: Tally)
    requires s.log <= r.log <= q.log && Untouched(s, r, u) && Untouched(r, q, v)
    requires u.left <= |r.ring| && v.left <= |q.ring|
    requires Subseq(Ids(q.tasks, q.ring[..v.left]), Ids(r.tasks, r.ring[..u.left]))
    ensures Untouched(s, q, v)
  {
    hide Ids, Subseq;
    SinceSplit(s, r, q);
    SubseqElements(Ids(q.tasks, q.ring[..v.left]), Ids(r.tasks, r.ring[..u.left]));
  }

  lemma NotInIds(tasks: seq<Slot>, ring: seq<nat>, index: nat, generation: uint32)
    requires index !in ring
    ensures Id(index, generation) !in Ids(tasks, ring)
  {
  }

  lemma OneEventUntouched(s: State, r: State, u: Tally, event: Event)
    requires r.log == s.log + [event] && u.left <= |r.ring| && event.index !in r.ring
    ensures s.log <= r.log && Untouched(s, r, u)
  {
    assert Since(s, r) == [event];
    assert event.index !in r.ring[..u.left];
    NotInIds(r.tasks, r.ring[..u.left], event.index, event.generation);
    hide Ids;
  }

  lemma NestedCallUntouched(env: Env, s: State, hole: Option<nat>, call: Call, t: Tally)
    requires Inv(s, hole) && t.left <= |s.ring|
    ensures Untouched(s, NestedCall(env, s, call), CallTally(s, call, t))
  {
    NestedCallKept(env, s, hole, call, t);
    var r, u := NestedCall(env, s, call), CallTally(s, call, t);
    KeptBounds(s, t, r, u);
    hide Kept, CallTally, Ids;
    if call.Cancel? && Identify(s.tasks, call.task).Some? {
      var index := Identify(s.tasks, call.task).value;
      WithoutMembers(s.ring, index);
      OneEventUntouched(s, r, u, Cancelled(index, s.tasks[index].generation));
    } else {
      var since := NestedCallLog(env, s, call);
    }
  }

  lemma KeptMeans(s: State, t: Tally, r: State, u: Tally)
    requires Kept(s, t, r, u)
    ensures u.left <= t.left <= |s.ring| && u.left <= |r.ring|
    ensures Subseq(Ids(r.tasks, r.ring[..u.left]), Ids(s.tasks, s.ring[..t.left]))
  {
  }

  lemma {:induction false} RunCallsUntouched(env: Env, s: State, hole: Option<nat>, calls: seq<Call>, t: Tally)
    requires Inv(s, hole) && t.left <= |s.ring|
    ensures Untouched(s, RunCalls(env, s, calls), CallsTally(env, s, calls, t))
    decreases |calls|
  {
    if calls == [] {
      UntouchedSame(s, t);
    } else {
      hide Inv, Kept, NestedCall, CallTally, Untouched, Ids, Subseq;
      var r, u := NestedCall(env, s, calls[0]), CallTally(s, calls[0], t);
      NestedCallUntouched(env, s, hole, calls[0], t);
      NestedCallKept(env, s, hole, calls[0], t);
      KeptMeans(s, t, r, u);
      var after := NestedCallInv(env, s, hole, calls[0]);
      RunCallsUntouched(env, r, after, calls[1..], u);
      RunCallsKept(env, r, after, calls[1..], u);
      KeptMeans(r, u, RunCalls(env, r, calls[1..]), CallsTally(env, r, calls[1..], u));
      UntouchedChain(s, r, u, RunCalls(env, r, calls[1..]), CallsTally(env, r, calls[1..], u));
    }
  }

  /** The same frame of entries under another ring end. */
  lemma UntouchedPrefix(s: State, r: State, q: State, u: Tally)
    requires s.log <= r.log && q.log == r.log && Untouched(s, r, u) && SamePrefix(r, q, u.left)
    ensures Untouched(s, q, u)
  {
    var n := u.left;
    assert forall k :: 0 <= k < n ==> r.ring[k] in r.ring;
    assert Ids(q.tasks, q.ring[..n]) == Ids(r.tasks, r.ring[..n]);
  }

  lemma AfterCallsUntouched(env: Env, s: State, index: nat, t: Tally)
    requires Inv(s, Some(index)) && t.left <= |s.ring|
    ensures index < |s.tasks| && Untouched(s, AfterCalls(env, s, index), RunTally(env, s, index, t))
  {
    StartedKept(env, s, index, t);
    var started := Started(env, s, index);
    OneEventUntouched(s, started, t, started.log[|s.log|]);
    hide Inv, Untouched, Ids, Subseq, Kept;
    var calls := Behave(env, s, index).calls;
    RunCallsUntouched(env, started, Some(index), calls, t);
    RunCallsKept(env, started, Some(index), calls, t);
    KeptMeans(started, t, RunCalls(env, started, calls), CallsTally(env, started, calls, t));
    UntouchedChain(s, started, t, AfterCalls(env, s, index), RunTally(env, s, index, t));
  }

  lemma ApplyActionPrefix(env: Env, s: State, frame: Frame, now: uint32, index: nat, due: uint32, action: Action, n: nat)
    requires index < |s.tasks| && n <= |s.ring|
    ensures SamePrefix(s, ApplyAction(env, s, frame, now, index, due, action).s, n)
  {
  }

  lemma RunTaskUntouched(env: Env, s: State, frame: Frame, now: uint32, index: nat, t: Tally)
    requires Inv(s, Some(index)) && NoWrap(env) && t.left <= |s.ring|
    ensures index < |s.tasks| && Untouched(s, RunTask(env, s, frame, now, index).s, RunTally(env, s, index, t))
  {
    AfterCallsUntouched(env, s, index, t);
    AfterCallsKept(env, s, index, t);
    var r, u := AfterCalls(env, s, index), RunTally(env, s, index, t);
    KeptBounds(s, t, r, u);
    hide Kept, Inv, RanIds, AfterCalls, RunTally, ApplyAction, Untouched;
    if !r.terminated && r.tasks[index].queued && r.tasks[index].generation == s.tasks[index].generation {
      var counted, action := frame.(steps := frame.steps + 1), Behave(env, s, index).action;
      ApplyActionPrefix(env, r, counted, now, index, s.tasks[index].due, action, u.left);
      UntouchedPrefix(s, r, RunTask(env, s, frame, now, index).s, u);
    }
  }

  lemma RunOrDeferUntouched(env: Env, s: State, frame: Frame, now: uint32, index: nat, t: Tally)
    requires Inv(s, Some(index)) && NoWrap(env) && t.left <= |s.ring|
    ensures index < |s.tasks| && Untouched(s, RunOrDefer(env, s, frame, now, index).s, RunOrDeferTally(env, s, now, index, t))
  {
    QueuedHole(s, index);
    if !Reached(now, s.tasks[index].due) {
      assert Since(s, RunOrDefer(env, s, frame, now, index).s) == [];
    } else {
      hide Inv, RunTask, RunTally;
      RunTaskUntouched(env, s, frame, now, index, t);
    }
  }

  lemma TakeTurnUntouched(env: Env, config: Config, s: State, frame: Frame, start: uint32, now: uint32, t: Tally)
    requires Inv(s, None) && NoWrap(env) && 0 < s.remaining && Counted(s, t) && s.updating && s.ring[0] < |s.tasks|
    requires config.budget == 0
    ensures Untouched(s, TakeTurn(env, config, s, frame, start, now).s, TurnTally(env, config, s, frame, start, now, t))
  {
    var index := s.ring[0];
    PopInv(s);
    var popped := Pop(s);
    QueuedHole(popped, index);
    InvFrame(popped, Tick(popped), Some(index));
    hide RunOrDefer, RunOrDeferTally, Inv;
    RunOrDeferUntouched(env, Tick(popped), frame, Now(env, popped), index, PopTally(t));
    assert Since(Tick(popped), TakeTurn(env, config, s, frame, start, now).s)
        == Since(s, TakeTurn(env, config, s, frame, start, now).s);
  }

  lemma {:induction false} LoopUntouched(env: Env, config: Config, s: State, frame: Frame, start: uint32, now: uint32, t: Tally)
    requires Inv(s, None) && NoWrap(env) && Counted(s, t) && s.updating && config.budget == 0
    requires frame.steps <= config.stepsPerFrame
    ensures Untouched(s, Loop(env, config, s, frame, start, now).s, LoopTally(env, config, s, frame, start, now, t))
    decreases if s.remaining > 0 then s.remaining else 0
  {
    if s.remaining > 0 && frame.steps < config.stepsPerFrame {
      TakeTurnInv(env, config, s, frame, start, now);
      TakeTurnTurned(env, config, s, frame, start, now, t);
      TakeTurnUntouched(env, config, s, frame, start, now, t);
      var turn := TakeTurn(env, config, s, frame, start, now);
      var u := TurnTally(env, config, s, frame, start, now, t);
      TurnedMeans(s, frame, t, turn, u);
      hide TakeTurn, TurnTally, Inv, Turned, Untouched, Ordered;
      if turn.stop == Next {
        var end, v := Loop(env, config, s, frame, start, now), LoopTally(env, config, s, frame, start, now, t);
        LoopUntouched(env, config, turn.s, turn.frame, start, turn.now, u);
        LoopOrder(env, config, turn.s, turn.frame, start, turn.now, u);
        OrderedLeft(turn.s, u, end, v);
        UntouchedChain(s, turn.s, u, end.s, v);
      }
    } else {
      UntouchedSame(s, t);
    }
  }

  lemma OrderedLeft(s: State, t: Tally, end: Turn, v: Tally)
    requires Ordered(s, t, end, v)
    ensures t.left <= |s.ring| && v.left <= |end.s.ring|
    ensures Subseq(Ids(end.s.tasks, end.s.ring[..v.left]), Ids(s.tasks, s.ring[..t.left]))
  {
    var ran, left := RanIds(Since(s, end.s)), Ids(end.s.tasks, end.s.ring[..v.left]);
    hide Ids, RanIds, Subseq;
    SubseqBehind(ran, left);
    SubseqTransitive(left, ran + left, Ids(s.tasks, s.ring[..t.left]));
  }

  lemma {:induction false} SubseqBehind<T>(a: seq<T>, b: seq<T>)
    ensures Subseq(b, a + b)
  {
    if a == [] {
      assert a + b == b;
      SubseqReflexive(b);
    } else {
      SubseqBehind(a[1..], b);
      assert (a + b)[1..] == a[1..] + b;
      SubseqEmpty(a + b);
    }
  }

  // ------------------------------------- what is not left unexamined is served

  /** Since `s` the task was served, or everything ended, or it still waits to be examined, no further back than `q`. */
  ghost predicate Ahead(s: State, r: State, u: Tally, x: nat, slot: Slot, q: int)
  {
    && s.log <= r.log
    && (Served(r.log, |s.log|, x, slot.generation) || r.terminated || (Waits(r, x, slot, q) && q < u.left))
  }

  lemma AheadChain(s: State, r: State, u: Tally, e: State, v: Tally, x: nat, slot: Slot, p: int, q: int)
    requires Ahead(s, r, u, x, slot, p) && r.log <= e.log && (r.terminated ==> e.terminated)
    requires Waits(r, x, slot, p) && p < u.left ==> Ahead(r, e, v, x, slot, q)
    ensures Ahead(s, e, v, x, slot, q)
  {
    if Served(r.log, |s.log|, x, slot.generation) {
      ServedExtends(r.log, |s.log|, e.log, |s.log|, x, slot.generation);
    } else if !r.terminated && Served(e.log, |r.log|, x, slot.generation) {
      ServedExtends(e.log, |r.log|, e.log, |s.log|, x, slot.generation);
    }
  }

  lemma CancelAhead(s: State, hole: Option<nat>, task: Task, t: Tally, x: nat, slot: Slot, p: int) returns (q: int)
    requires Inv(s, hole) && t.left <= |s.ring| && Waits(s, x, slot, p) && p < t.left
    ensures q <= p && Ahead(s, DoCancel(s, task).0, CancelTally(s, task, t), x, slot, q)
  {
    q := p;
    var r := DoCancel(s, task).0;
    match Identify(s.tasks, task)
    case None =>
    case Some(index) =>
      if index == x {
        assert Serves(r.log[|s.log|], x, slot.generation);
      } else if index in s.ring {
        var k :| 0 <= k < |s.ring| && s.ring[k] == index;
        WithoutAt(s.ring, k);
        FrontPosition(s, hole, t.left, k);
        hide Inv, Front, Without;
        q := if p < k then p else p - 1;
        assert Waits(r, x, slot, q);
      } else {
        WithoutAbsent(s.ring, index);
        assert index !in Front(s.ring, t.left);
        assert Waits(r, x, slot, q);
      }
  }

  lemma NestedCallAhead(env: Env, s: State, hole: Option<nat>, call: Call, t: Tally, x: nat, slot: Slot, p: int) returns (q: int)
    requires Inv(s, hole) && t.left <= |s.ring| && Waits(s, x, slot, p) && p < t.left
    ensures q <= p && Ahead(s, NestedCall(env, s, call), CallTally(s, call, t), x, slot, q)
  {
    q := p;
    match call
    case Schedule(step) => EnqueueWaits(Tick(s), hole, step, Now(env, s), call, x, slot, p);
    case ScheduleAfter(ms, step) => EnqueueWaits(Tick(s), hole, step, Add32(Now(env, s), ms), call, x, slot, p);
    case ScheduleAt(deadline, step) => EnqueueWaits(Tick(s), hole, step, deadline, call, x, slot, p);
    case Cancel(task) => q := CancelAhead(s, hole, task, t, x, slot, p);
    case Pending(_) =>
    case Update =>
    case Terminate =>
  }

  lemma {:induction false} RunCallsAhead(env: Env, s: State, hole: Option<nat>, calls: seq<Call>, t: Tally, x: nat, slot: Slot, p: int)
    returns (q: int)
    requires Inv(s, hole) && t.left <= |s.ring| && Waits(s, x, slot, p) && p < t.left
    ensures q <= p && Ahead(s, RunCalls(env, s, calls), CallsTally(env, s, calls, t), x, slot, q)
    decreases |calls|
  {
    hide Inv, NestedCall, CallTally, Served, Waits, Kept;
    q := p;
    if calls != [] {
      var r, u := NestedCall(env, s, calls[0]), CallTally(s, calls[0], t);
      q := NestedCallAhead(env, s, hole, calls[0], t, x, slot, p);
      NestedCallKept(env, s, hole, calls[0], t);
      KeptBounds(s, t, r, u);
      var after := NestedCallInv(env, s, hole, calls[0]);
      var first := q;
      if Waits(r, x, slot, first) && first < u.left {
        q := RunCallsAhead(env, r, after, calls[1..], u, x, slot, first);
      }
      AheadChain(s, r, u, RunCalls(env, s, calls), CallsTally(env, s, calls, t), x, slot, first, q);
    }
  }

  lemma AfterCallsAhead(env: Env, s: State, index: nat, t: Tally, x: nat, slot: Slot, p: int) returns (q: int)
    requires Inv(s, Some(index)) && t.left <= |s.ring| && Waits(s, x, slot, p) && p < t.left
    ensures index < |s.tasks| && q <= p && Ahead(s, AfterCalls(env, s, index), RunTally(env, s, index, t), x, slot, q)
  {
    var started := Started(env, s, index);
    InvFrame(s, started, Some(index));
    assert Waits(started, x, slot, p);
    hide Inv, RunCalls, CallsTally, Served, Waits;
    q := RunCallsAhead(env, started, Some(index), Behave(env, s, index).calls, t, x, slot, p);
    var r := AfterCalls(env, s, index);
    if Served(r.log, |started.log|, x, slot.generation) {
      ServedExtends(r.log, |started.log|, r.log, |s.log|, x, slot.generation);
    }
  }

  lemma RunTaskAhead(env: Env, s: State, frame: Frame, now: uint32, index: nat, t: Tally, x: nat, slot: Slot, p: int) returns (q: int)
    requires Inv(s, Some(index)) && NoWrap(env) && t.left <= |s.ring| && Waits(s, x, slot, p) && p < t.left
    ensures index < |s.tasks| && q <= p && Ahead(s, RunTask(env, s, frame, now, index).s, RunTally(env, s, index, t), x, slot, q)
  {
    q := AfterCallsAhead(env, s, index, t, x, slot, p);
    AfterCallsInv(env, s, index);
    var r := AfterCalls(env, s, index);
    hide Inv, AfterCalls, RunTally, ApplyAction, Served, Waits;
    if r.tasks[index].queued && r.tasks[index].generation == s.tasks[index].generation {
      TerminatedHasNoHole(r, index);
      ApplyActionWaits(env, r, frame.(steps := frame.steps + 1), now, index, s.tasks[index].due,
                       Behave(env, s, index).action, x, slot, q);
    }
  }

  /** A turn over another entry brings the task one place forward and takes at most one step. */
  lemma TakeTurnAhead(env: Env, config: Config, s: State, frame: Frame, start: uint32, now: uint32, t: Tally, x: nat, slot: Slot, p: int)
    returns (q: int)
    requires Inv(s, None) && NoWrap(env) && s.remaining > 0 && Counted(s, t) && config.budget == 0
    requires Waits(s, x, slot, p) && p < t.left && s.ring[0] < |s.tasks|
    requires Reached(Now(env, s), slot.due)
    ensures q < p && Ahead(s, TakeTurn(env, config, s, frame, start, now).s, TurnTally(env, config, s, frame, start, now, t), x, slot, q)
  {
    var index := s.ring[0];
    PopInv(s);
    var popped := Pop(s);
    var ticked, read := Tick(popped), Now(env, popped);
    HoleQueued(popped, index);
    InvFrame(popped, ticked, Some(index));
    q := p - 1;
    hide RunTask, RunTally, Inv, Served;
    if p == 0 {
      RunTaskServes(env, ticked, frame, read, index);
    } else {
      assert Waits(ticked, x, slot, p - 1);
      if Reached(read, popped.tasks[index].due) {
        hide Waits;
        q := RunTaskAhead(env, ticked, frame, read, index, PopTally(t), x, slot, p - 1);
      }
    }
  }

  lemma {:induction false} LoopAhead(env: Env, config: Config, s: State, frame: Frame, start: uint32, now: uint32, t: Tally, x: nat, slot: Slot, p: int)
    returns (q: int)
    requires Inv(s, None) && NoWrap(env) && Counted(s, t) && s.updating && config.budget == 0
    requires frame.steps <= config.stepsPerFrame && Waits(s, x, slot, p) && p < t.left
    requires Ready(env, slot.due, s.ticks, Loop(env, config, s, frame, start, now).s.ticks)
    ensures var end := Loop(env, config, s, frame, start, now);
            && Ahead(s, end.s, LoopTally(env, config, s, frame, start, now, t), x, slot, q)
            && q <= p - (end.frame.steps - frame.steps)
    decreases if s.remaining > 0 then s.remaining else 0
  {
    q := p;
    if s.remaining > 0 && frame.steps < config.stepsPerFrame {
      TakeTurnInv(env, config, s, frame, start, now);
      TakeTurnTicks(env, config, s, frame, start, now);
      TakeTurnTerminated(env, config, s, frame, start, now);
      TakeTurnTurned(env, config, s, frame, start, now, t);
      hide TakeTurn, TurnTally, Inv, Served, Turned, Waits;
      var turn := TakeTurn(env, config, s, frame, start, now);
      var u := TurnTally(env, config, s, frame, start, now, t);
      TurnedMeans(s, frame, t, turn, u);
      q := TakeTurnAhead(env, config, s, frame, start, now, t, x, slot, p);
      if turn.stop == Next {
        var end, v := Loop(env, config, s, frame, start, now), LoopTally(env, config, s, frame, start, now, t);
        var first := q;
        q := first - (end.frame.steps - turn.frame.steps);
        if Waits(turn.s, x, slot, first) && first < u.left {
          q := LoopAhead(env, config, turn.s, turn.frame, start, turn.now, u, x, slot, first);
        }
        AheadChain(s, turn.s, u, end.s, v, x, slot, first, q);
      }
    }
  }

  lemma UpdateAhead(env: Env, config: Config, s: State, x: nat, slot: Slot, p: int) returns (q: int)
    requires Idle(s) && NoWrap(env) && ValidConfig(config) && config.budget == 0 && Waits(s, x, slot, p)
    requires Ready(env, slot.due, s.ticks, DoUpdate(env, config, s).s.ticks)
    ensures var u, t := DoUpdate(env, config, s), UpdateTally(env, config, s);
            Ahead(s, u.s, t, x, slot, q) && q <= p - LoopSteps(env, config, s)
  {
    NotTerminated(s, x, slot, p);
    var begun := Begin(s);
    InvFrame(s, begun, None);
    assert Waits(begun, x, slot, p);
    hide Inv, Loop, LoopTally, Served;
    q := LoopAhead(env, config, begun, Frame(0, 0, 0, false), Now(env, s), Now(env, s), Tally(|s.ring|, 0), x, slot, p);
  }

  /** The steps an update takes, also when a step terminates the scheduler. */
  function LoopSteps(env: Env, config: Config, s: State): nat
  {
    Loop(env, config, Begin(s), Frame(0, 0, 0, false), Now(env, s), Now(env, s)).frame.steps
  }

  // ------------------------------------------------------------ the equivalences

  /**
   * A task that is ready throughout one update is left unserved exactly when
   * it ends among the entries the update left unexamined.
   */
  lemma UnservedExactly(env: Env, config: Config, s: State, x: nat, slot: Slot, p: int)
    requires Idle(s) && NoWrap(env) && ValidConfig(config) && config.budget == 0 && Waits(s, x, slot, p)
    requires Ready(env, slot.due, s.ticks, DoUpdate(env, config, s).s.ticks) && !DoUpdate(env, config, s).s.terminated
    ensures var u, t := DoUpdate(env, config, s).s, UpdateTally(env, config, s);
            !Served(u.log, |s.log|, x, slot.generation) <==> exists q :: Waits(u, x, slot, q) && q < t.left
  {
    var q := UpdateAhead(env, config, s, x, slot, p);
    NotTerminated(s, x, slot, p);
    LeftUnserved(env, config, s);
    hide DoUpdate, UpdateTally, Inv;
    var u, t := DoUpdate(env, config, s).s, UpdateTally(env, config, s);
    if !Served(u.log, |s.log|, x, slot.generation) {
      assert Waits(u, x, slot, q) && q < t.left;
    }
  }

  /** Entries left unexamined were neither run nor cancelled. */
  lemma LeftUnserved(env: Env, config: Config, s: State)
    requires Idle(s) && NoWrap(env) && ValidConfig(config) && config.budget == 0 && !s.terminated
    ensures var u, t := DoUpdate(env, config, s).s, UpdateTally(env, config, s);
            && t.left <= |u.ring|
            && forall k :: 0 <= k < t.left && u.ring[k] < |u.tasks| ==>
                 !Served(u.log, |s.log|, u.ring[k], u.tasks[u.ring[k]].generation)
  {
    var begun := Begin(s);
    InvFrame(s, begun, None);
    hide Inv, Loop, LoopTally, Served;
    LoopUntouched(env, config, begun, Frame(0, 0, 0, false), Now(env, s), Now(env, s), Tally(|s.ring|, 0));
    var u, t := DoUpdate(env, config, s).s, UpdateTally(env, config, s);
    forall k | 0 <= k < t.left && u.ring[k] < |u.tasks|
      ensures !Served(u.log, |s.log|, u.ring[k], u.tasks[u.ring[k]].generation)
    {
      UntouchedUnserved(begun, Loop(env, config, begun, Frame(0, 0, 0, false), Now(env, s), Now(env, s)).s, t, k);
    }
  }

  lemma UntouchedUnserved(s: State, r: State, u: Tally, k: nat)
    requires s.log <= r.log && Untouched(s, r, u) && k < u.left && r.ring[k] < |r.tasks|
    ensures !Served(r.log, |s.log|, r.ring[k], r.tasks[r.ring[k]].generation)
  {
    var front := r.ring[..u.left];
    var id := Id(r.ring[k], r.tasks[r.ring[k]].generation);
    assert front[k] == r.ring[k] && Ids(r.tasks, front)[k] == id;
    forall j | |s.log| <= j < |r.log| ensures !Serves(r.log[j], id.index, id.generation) {
      assert Since(s, r)[j - |s.log|] == r.log[j];
      assert r.log[j] in Since(s, r);
    }
  }

  /** All tasks of the ring are ready throughout one update. */
  ghost predicate AllReady(env: Env, config: Config, s: State)
  {
    forall p :: 0 <= p < |s.ring| && s.ring[p] < |s.tasks| ==>
      Ready(env, s.tasks[s.ring[p]].due, s.ticks, DoUpdate(env, config, s).s.ticks)
  }

  ghost predicate AllServed(s: State, r: State)
  {
    forall p :: 0 <= p < |s.ring| && s.ring[p] < |s.tasks| ==>
      Served(r.log, |s.log|, s.ring[p], s.tasks[s.ring[p]].generation)
  }

  /**
   * With all tasks ready, room for all of them and no invalid delay, an update
   * serves every task unless and only unless its charges cover the entries it
   * leaves.
   */
  lemma ServesAllExactly(env: Env, config: Config, s: State)
    requires Idle(s) && NoWrap(env) && ValidConfig(config) && config.budget == 0 && ValidActions(env)
    requires |s.ring| <= config.stepsPerFrame && AllReady(env, config, s) && !DoUpdate(env, config, s).s.terminated
    ensures var t := UpdateTally(env, config, s);
            AllServed(s, DoUpdate(env, config, s).s) <==> !(0 < t.left <= t.charged)
  {
    assert !s.terminated;
    var u, t := DoUpdate(env, config, s).s, UpdateTally(env, config, s);
    if 0 < t.left {
      FirstLeftUnserved(env, config, s);
    }
    if !AllServed(s, u) {
      var p :| 0 <= p < |s.ring| && s.ring[p] < |s.tasks| && !Served(u.log, |s.log|, s.ring[p], s.tasks[s.ring[p]].generation);
      UnservedMeansCharged(env, config, s, s.ring[p], s.tasks[s.ring[p]], p);
    }
  }

  /** A ready task within reach of the steps is left unserved only by charges. */
  lemma UnservedMeansCharged(env: Env, config: Config, s: State, x: nat, slot: Slot, p: int)
    requires Idle(s) && NoWrap(env) && ValidConfig(config) && config.budget == 0 && ValidActions(env)
    requires Waits(s, x, slot, p) && p < config.stepsPerFrame
    requires Ready(env, slot.due, s.ticks, DoUpdate(env, config, s).s.ticks)
    requires var u := DoUpdate(env, config, s).s;
             !u.terminated && !Served(u.log, |s.log|, x, slot.generation)
    ensures 0 < UpdateTally(env, config, s).left <= UpdateTally(env, config, s).charged
  {
    NotTerminated(s, x, slot, p);
    var q := UpdateAhead(env, config, s, x, slot, p);
    SpareMeansCharged(env, config, s);
    hide DoUpdate, UpdateTally, LoopSteps, Served, Inv;
  }

  lemma SpareMeansCharged(env: Env, config: Config, s: State)
    requires Idle(s) && NoWrap(env) && ValidConfig(config) && config.budget == 0 && ValidActions(env)
    requires !s.terminated && !DoUpdate(env, config, s).s.terminated
    ensures LoopSteps(env, config, s) < config.stepsPerFrame ==>
              UpdateTally(env, config, s).left <= UpdateTally(env, config, s).charged
    ensures LoopSteps(env, config, s) == DoUpdate(env, config, s).frame.steps <= config.stepsPerFrame
  {
    UpdateOrder(env, config, s);
    InvFrame(s, Begin(s), None);
    hide Loop, LoopTally, Inv, Subseq, Ids, RanIds, ValidActions;
    LoopBreaks(env, config, Begin(s), Frame(0, 0, 0, false), Now(env, s), Now(env, s));
    assert Counted(DoUpdate(env, config, s).s, UpdateTally(env, config, s));
  }

  lemma FirstLeftUnserved(env: Env, config: Config, s: State)
    requires Idle(s) && NoWrap(env) && ValidConfig(config) && config.budget == 0 && !s.terminated
    requires UpdateTally(env, config, s).left > 0
    ensures !AllServed(s, DoUpdate(env, config, s).s)
  {
    LeftUnserved(env, config, s);
    UpdateOrder(env, config, s);
    TopCallInv(env, config, s, Update);
    var u, t := DoUpdate(env, config, s).s, UpdateTally(env, config, s);
    var left := Ids(u.tasks, u.ring[..t.left]);
    var ran, all := RanIds(Since(s, u)), Ids(s.tasks, s.ring);
    hide DoUpdate, UpdateTally, RanIds, Subseq, Served;
    SubseqElements(ran + left, all);
    assert u.ring[0] in u.ring;
    assert left[0] == Id(u.ring[0], u.tasks[u.ring[0]].generation);
    assert (ran + left)[|ran|] == left[0];
    assert left[0] in all;
    var p :| 0 <= p < |all| && all[p] == left[0];
    assert s.ring[p] in s.ring;
  }
}
