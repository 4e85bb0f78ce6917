/**
 * What Update reports: its error, why it stopped, and the counts of its frame,
 * told from the log of what happened meanwhile.
 */
module ScheduleReport {
  import opened Common
  import opened ScheduleModel
  import opened ScheduleInvariant
  import opened ScheduleOrder
  import opened ScheduleCadence
  import opened ScheduleDue
  import opened ScheduleShort

  // ------------------------------------------------------------ conservation

  /** The tasks that calls queued, less those they cancelled. */
  ghost function Net(log: seq<Event>): int
  {
    if log == [] then 0
    else (match log[0] case Scheduled(_, _, _, _) => 1 case Cancelled(_, _) => -1 case _ => 0) + Net(log[1..])
  }

  lemma {:induction false} NetAppend(a: seq<Event>, b: seq<Event>)
    ensures Net(a + b) == Net(a) + Net(b)
  {
    if a == [] {
      assert a + b == b;
    } else {
      NetAppend(a[1..], b);
      assert (a + b)[1..] == a[1..] + b;
    }
  }

  /** Tasks are queued, cancelled or completed, and nothing else changes their number. */
  ghost predicate Balanced(s: State, r: State, completed: int)
  {
    s.log <= r.log && (r.terminated || r.pending + completed == s.pending + Net(Since(s, r)))
  }

  lemma BalancedChain(s: State, r: State, t: State, a: int, b: int)
    requires Balanced(s, r, a) && Balanced(r, t, b) && (r.terminated ==> t.terminated)
    ensures Balanced(s, t, a + b)
  {
    SinceSplit(s, r, t);
    NetAppend(Since(s, r), Since(r, t));
    hide Net;
  }

  lemma BalancedSame(s: State, r: State)
    requires r.log == s.log && r.pending == s.pending
    ensures Balanced(s, r, 0)
  {
    assert Since(s, r) == [];
  }

  lemma NestedCallBalanced(env: Env, s: State, call: Call)
    ensures Balanced(s, NestedCall(env, s, call), 0)
  {
    var since := NestedCallLog(env, s, call);
    assert since != [] ==> since[1..] == [];
  }

  lemma {:induction false} RunCallsBalanced(env: Env, s: State, calls: seq<Call>)
    ensures Balanced(s, RunCalls(env, s, calls), 0)
    decreases |calls|
  {
    hide NestedCall, Net;
    if calls == [] {
      BalancedSame(s, s);
    } else {
      var r := NestedCall(env, s, calls[0]);
      NestedCallBalanced(env, s, calls[0]);
      RunCallsBalanced(env, r, calls[1..]);
      BalancedChain(s, r, RunCalls(env, r, calls[1..]), 0, 0);
    }
  }

  lemma AfterCallsBalanced(env: Env, s: State, index: nat)
    requires index < |s.tasks|
    ensures Balanced(s, AfterCalls(env, s, index), 0)
  {
    var started := Started(env, s, index);
    StartedLog(env, s, index);
    assert Since(s, started) == [RunOf(env, s, index)];
    assert Since(s, started)[1..] == [];
    assert Net(Since(s, started)) == 0;
    RunCallsBalanced(env, started, Behave(env, s, index).calls);
    BalancedChain(s, started, AfterCalls(env, s, index), 0, 0);
  }

  lemma RunTaskBalanced(env: Env, s: State, frame: Frame, now: uint32, index: nat)
    requires index < |s.tasks|
    ensures var t := RunTask(env, s, frame, now, index);
            Balanced(s, t.s, t.frame.completed - frame.completed)
  {
    AfterCallsBalanced(env, s, index);
    hide AfterCalls, Net;
    var t := RunTask(env, s, frame, now, index);
    assert Since(s, t.s) == Since(s, AfterCalls(env, s, index));
  }

  // --------------------------------------------------------- a step's own log

  lemma RunCallsRunning(env: Env, s: State, hole: Option<nat>, calls: seq<Call>, ran: Event) returns (after: Option<nat>)
    requires Inv(s, hole) && Running(s, hole, ran)
    ensures var r := RunCalls(env, s, calls);
            && Inv(r, after) && Running(r, after, ran) && (after == hole || after == None)
            && (after.Some? ==> r.tasks[after.value] == s.tasks[after.value])
    decreases |calls|
  {
    hide Inv, Running, NestedCall;
    after := hole;
    if calls != [] {
      var middle := NestedCallRunning(env, s, hole, calls[0], ran);
      after := RunCallsRunning(env, NestedCall(env, s, calls[0]), middle, calls[1..], ran);
    }
  }

  lemma NestedCallRunning(env: Env, s: State, hole: Option<nat>, call: Call, ran: Event) returns (after: Option<nat>)
    requires Inv(s, hole) && Running(s, hole, ran)
    ensures var r := NestedCall(env, s, call);
            && Inv(r, after) && Running(r, after, ran) && (after == hole || after == None)
            && (after.Some? ==> r.tasks[after.value] == s.tasks[after.value])
  {
    after := NestedCallInv(env, s, hole, call);
    if after.Some? {
      var since := NestedCallLog(env, s, call);
      var r := NestedCall(env, s, call);
      assert r.log == s.log + since;
      if since != [] {
        EventElsewhere(env, s, call, after.value);
        LastSnoc(s.log, since[0], after.value);
      }
    }
  }

  /** A call that leaves a queued slot as it is logs nothing about it. */
  lemma EventElsewhere(env: Env, s: State, call: Call, x: nat)
    requires x < |s.tasks| && s.tasks[x].queued
    requires var r := NestedCall(env, s, call);
             r.log != s.log && r.tasks[x] == s.tasks[x]
    ensures NestedCall(env, s, call).log[|s.log|].index != x
  {
  }

  /** The log of a step, and whether its task is still there afterwards. */
  lemma AfterCallsLog(env: Env, s: State, index: nat) returns (later: seq<Event>)
    requires Inv(s, Some(index)) && NoWrap(env)
    ensures var t := AfterCalls(env, s, index);
            && Since(s, t) == [RunOf(env, s, index)] + later && Quiet(later)
            && (!t.terminated ==>
                  (t.tasks[index].queued && t.tasks[index].generation == s.tasks[index].generation
                   <==> forall e :: e in later ==> e.index != index))
  {
    var started := Started(env, s, index);
    var calls := Behave(env, s, index).calls;
    var t := AfterCalls(env, s, index);
    StartedLog(env, s, index);
    LastSnoc(s.log, RunOf(env, s, index), index);
    InvFrame(s, started, Some(index));
    var after := RunCallsRunning(env, started, Some(index), calls, RunOf(env, s, index));
    RunCallsHolds(env, started, calls, index);
    AfterCallsInv(env, s, index);
    StillCurrent(s, t, index, after);
    later := Since(started, t);
    assert t.log == s.log + [RunOf(env, s, index)] + later;
    hide Inv, AfterCalls, RunCalls, RunOf, Quiet;
    if after.Some? {
      NothingLater(s.log, RunOf(env, s, index), later, index);
    }
  }

  /** When an event that occurs once, at `|a|`, is the last about its slot, nothing behind it is about the slot. */
  lemma {:induction false} NothingLater(a: seq<Event>, event: Event, later: seq<Event>, x: nat)
    requires event.index == x && event.Ran? && LastOn(a + [event] + later, x) == Some(event) && Quiet(later)
    ensures forall e :: e in later ==> e.index != x
    decreases |later|
  {
    if later != [] {
      var n := |later| - 1;
      var whole := a + [event] + later;
      assert whole[|whole| - 1] == later[n] && whole[..|whole| - 1] == a + [event] + later[..n];
      NothingLater(a, event, later[..n], x);
      assert later == later[..n] + [later[n]];
    }
  }

  // ---------------------------------------------------------------- the stops

  /** The reading is the budget or more past the start of the update. */
  predicate Late(env: Env, config: Config, start: uint32, ticks: nat)
  {
    config.budget != 0 && (Reading(env, ticks) - start) % 0x1_0000_0000 >= config.budget
  }

  predicate HasRun(log: seq<Event>)
  {
    exists k :: 0 <= k < |log| && log[k].Ran?
  }

  /** Every run but the first one of an update begins within the budget. */
  ghost predicate WithinBudget(env: Env, config: Config, start: uint32, log: seq<Event>, some: bool)
  {
    forall k :: 0 <= k < |log| && log[k].Ran? && (some || HasRun(log[..k])) ==> !Late(env, config, start, log[k].began)
  }

  /** An action that ErrDelay answers. */
  predicate Invalid(action: Action)
  {
    match action
    case Delay(ms) => ms > MAX_DELAY
    case Repeat(ms) => ms == 0 || ms > MAX_DELAY
    case _ => false
  }

  /** The last step that ran asked for an invalid delay, and its task was still there when it returned. */
  ghost predicate Refused(log: seq<Event>)
  {
    exists k :: RefusedAt(log, k)
  }

  ghost predicate RefusedAt(log: seq<Event>, k: int)
  {
    && 0 <= k < |log| && log[k].Ran?
    && Invalid(log[k].action)
    && forall j :: k < j < |log| ==> !log[j].Ran? && log[j].index != log[k].index
  }

  /** What one round of the loop does to the log and the frame, and why it stops. */
  ghost predicate Round(env: Env, config: Config, s: State, frame: Frame, start: uint32, turn: Turn)
  {
    && s.log <= turn.s.log && Balanced(s, turn.s, turn.frame.completed - frame.completed)
    && WithinBudget(env, config, start, Since(s, turn.s), frame.steps > 0)
    && (HasRun(Since(s, turn.s)) ==> turn.frame.steps > 0)
    && (frame.steps <= turn.frame.steps)
    && (turn.s.terminated <==> turn.stop == Fail(ErrTerminated))
    && match turn.stop
       case Next => turn.frame.exhausted == frame.exhausted && !Refused(Since(s, turn.s))
       case Break =>
         && turn.frame == frame.(exhausted := true) && turn.s == Tick(s) && frame.steps > 0
         && Late(env, config, start, turn.s.ticks)
       case Fail(error) =>
         if turn.s.terminated then turn.frame == Frame(turn.frame.steps, 0, 0, false)
         else error == ErrDelay && Refused(Since(s, turn.s)) && turn.frame.exhausted == frame.exhausted
              && turn.frame.pending == turn.s.pending
  }

  /** The log of a step's turn is refused exactly when its own run is. */
  lemma OneRunRefused(ran: Event, later: seq<Event>)
    requires ran.Ran? && Quiet(later)
    ensures Refused([ran] + later) <==> RefusedAt([ran] + later, 0)
  {
    var log := [ran] + later;
    assert forall k :: 0 < k < |log| ==> log[k] == later[k - 1] && !log[k].Ran?;
  }

  lemma RefusedFirst(ran: Event, later: seq<Event>)
    requires ran.Ran? && Quiet(later)
    ensures RefusedAt([ran] + later, 0) <==>
              Invalid(ran.action) && forall e :: e in later ==> e.index != ran.index
  {
    var log := [ran] + later;
    if RefusedAt(log, 0) {
      forall e | e in later ensures e.index != ran.index {
        var k :| 0 <= k < |later| && later[k] == e;
        assert log[k + 1] == e;
      }
    }
  }

  lemma OneRunBudget(env: Env, config: Config, start: uint32, ran: Event, later: seq<Event>, some: bool)
    requires ran.Ran? && Quiet(later) && (some ==> !Late(env, config, start, ran.began))
    ensures WithinBudget(env, config, start, [ran] + later, some) && HasRun([ran] + later)
  {
    var log := [ran] + later;
    assert log[0].Ran?;
    assert forall k :: 0 < k < |log| ==> log[k] == later[k - 1] && !log[k].Ran?;
    assert log[..0] == [];
  }

  lemma RunTaskRound(env: Env, config: Config, s: State, frame: Frame, start: uint32, now: uint32, index: nat)
    requires Inv(s, Some(index)) && NoWrap(env) && s.ticks > 0
    requires frame.steps > 0 ==> !Late(env, config, start, s.ticks)
    ensures Round(env, config, s, frame, start, RunTask(env, s, frame, now, index))
  {
    var t := AfterCalls(env, s, index);
    var turn := RunTask(env, s, frame, now, index);
    var ran := RunOf(env, s, index);
    var later := AfterCallsLog(env, s, index);
    RunTaskBalanced(env, s, frame, now, index);
    OneRunRefused(ran, later);
    RefusedFirst(ran, later);
    OneRunBudget(env, config, start, ran, later, frame.steps > 0);
    AfterCallsInv(env, s, index);
    RunTaskOutcome(env, s, frame, now, index);
    hide AfterCalls, RunTask, Refused, RefusedAt, WithinBudget, Late, HasRun, Inv, Balanced, NoWrap;
    assert Since(s, turn.s) == [ran] + later;
  }

  /** How a run ends, by the action it returned. */
  lemma RunTaskOutcome(env: Env, s: State, frame: Frame, now: uint32, index: nat)
    requires index < |s.tasks|
    ensures var t, turn := AfterCalls(env, s, index), RunTask(env, s, frame, now, index);
            var current := t.tasks[index].queued && t.tasks[index].generation == s.tasks[index].generation;
            && turn.s.log == t.log && turn.s.terminated == t.terminated && turn.frame.steps == frame.steps + 1
            && if t.terminated then turn.stop == Fail(ErrTerminated) && turn.frame == Frame(frame.steps + 1, 0, 0, false)
               else
                 && turn.frame.exhausted == frame.exhausted
                 && turn.stop == (if current && Invalid(RunOf(env, s, index).action) then Fail(ErrDelay) else Next)
                 && (turn.stop.Fail? ==> turn.frame.pending == turn.s.pending)
  {
    hide AfterCalls;
  }

  lemma NoEvents(env: Env, config: Config, start: uint32, log: seq<Event>, some: bool)
    requires log == []
    ensures WithinBudget(env, config, start, log, some) && !HasRun(log) && !Refused(log)
  {
  }

  lemma RunOrDeferRound(env: Env, config: Config, s: State, frame: Frame, start: uint32, now: uint32, index: nat)
    requires Inv(s, Some(index)) && NoWrap(env) && s.ticks > 0
    requires frame.steps > 0 ==> !Late(env, config, start, s.ticks)
    ensures Round(env, config, s, frame, start, RunOrDefer(env, s, frame, now, index))
  {
    hide RunTask, Late;
    if Reached(now, s.tasks[index].due) {
      RunTaskRound(env, config, s, frame, start, now, index);
    } else {
      var r := RunOrDefer(env, s, frame, now, index).s;
      TerminatedHasNoHole(s, index);
      BalancedSame(s, r);
      NoEvents(env, config, start, Since(s, r), frame.steps > 0);
      hide Inv, Balanced, WithinBudget, HasRun, Refused;
    }
  }

  /** A round does not depend on how the ring and the readings stood before it. */
  lemma RoundFrom(env: Env, config: Config, s: State, r: State, frame: Frame, start: uint32, turn: Turn)
    requires Round(env, config, r, frame, start, turn) && r.log == s.log && r.pending == s.pending && turn.stop != Break
    ensures Round(env, config, s, frame, start, turn)
  {
    assert Since(s, turn.s) == Since(r, turn.s);
    hide WithinBudget, Refused, HasRun, Late, Net;
  }

  lemma ExamineRound(env: Env, config: Config, s: State, frame: Frame, start: uint32, now: uint32)
    requires Inv(s, None) && NoWrap(env) && s.ring != [] && s.remaining > 0 && s.ticks > 0
    requires ChecksBudget(config, frame) ==> !Late(env, config, start, s.ticks)
    ensures s.ring[0] < |s.tasks| && Round(env, config, s, frame, start, Examine(env, config, s, frame, now))
  {
    var index, popped := s.ring[0], Pop(s);
    assert index in s.ring;
    PopInv(s);
    InvFrame(popped, Tick(popped), Some(index));
    hide Inv, RunOrDefer, Round;
    if ChecksBudget(config, frame) {
      RunOrDeferRound(env, config, popped, frame, start, now, index);
      RoundFrom(env, config, s, popped, frame, start, RunOrDefer(env, popped, frame, now, index));
    } else {
      RunOrDeferRound(env, config, Tick(popped), frame, start, Now(env, popped), index);
      RoundFrom(env, config, s, Tick(popped), frame, start, RunOrDefer(env, Tick(popped), frame, Now(env, popped), index));
    }
  }

  lemma TakeTurnRound(env: Env, config: Config, s: State, frame: Frame, start: uint32, now: uint32)
    requires Inv(s, None) && NoWrap(env) && s.ring != [] && s.remaining > 0 && s.ticks > 0
    ensures s.ring[0] < |s.tasks| && Round(env, config, s, frame, start, TakeTurn(env, config, s, frame, start, now))
  {
    assert s.ring[0] in s.ring;
    InvFrame(s, Tick(s), None);
    NoEvents(env, config, start, [], frame.steps > 0);
    BalancedSame(s, Tick(s));
    assert !s.terminated;
    var turn := TakeTurn(env, config, s, frame, start, now);
    hide Inv, Examine, WithinBudget, HasRun, Refused, Balanced, Net;
    if !ChecksBudget(config, frame) {
      ExamineRound(env, config, s, frame, start, now);
    } else if !Late(env, config, start, s.ticks + 1) {
      ExamineRound(env, config, Tick(s), frame, start, Now(env, s));
      RoundFrom(env, config, s, Tick(s), frame, start, turn);
    } else {
      assert Since(s, turn.s) == [];
    }
  }

  // ---------------------------------------------------------------- an update

  lemma RefusedAppend(a: seq<Event>, b: seq<Event>)
    ensures Refused(b) ==> Refused(a + b)
    ensures Refused(a + b) ==> Refused(a) || Refused(b)
  {
    var log := a + b;
    if Refused(b) {
      var k :| RefusedAt(b, k);
      forall j | |a| + k < j < |log| ensures !log[j].Ran? && log[j].index != log[|a| + k].index {
        assert log[j] == b[j - |a|];
      }
      assert RefusedAt(log, |a| + k);
    }
    if Refused(log) {
      var k :| RefusedAt(log, k);
      if k < |a| {
        assert forall j :: k < j < |a| ==> a[j] == log[j];
        assert RefusedAt(a, k);
      } else {
        assert forall j :: k - |a| < j < |b| ==> b[j] == log[|a| + j];
        assert RefusedAt(b, k - |a|);
      }
    }
  }

  lemma BudgetAppend(env: Env, config: Config, start: uint32, a: seq<Event>, b: seq<Event>, some: bool, more: bool)
    requires WithinBudget(env, config, start, a, some) && WithinBudget(env, config, start, b, more)
    requires some || HasRun(a) ==> more
    ensures WithinBudget(env, config, start, a + b, some)
  {
    hide Late;
    var log := a + b;
    forall k | 0 <= k < |log| && log[k].Ran? && (some || HasRun(log[..k])) ensures !Late(env, config, start, log[k].began) {
      if k < |a| {
        assert log[..k] == a[..k] && log[k] == a[k];
      } else {
        assert log[..k] == a + b[..k - |a|] && log[k] == b[k - |a|];
        HasRunAppend(a, b[..k - |a|]);
      }
    }
  }

  lemma HasRunAppend(a: seq<Event>, b: seq<Event>)
    ensures HasRun(a + b) <==> HasRun(a) || HasRun(b)
  {
    var log := a + b;
    if HasRun(a) {
      var k :| 0 <= k < |a| && a[k].Ran?;
      assert log[k].Ran?;
    }
    if HasRun(b) {
      var k :| 0 <= k < |b| && b[k].Ran?;
      assert log[|a| + k].Ran?;
    }
  }

  /** What the rest of the loop does, and why it ends. */
  ghost predicate Rest(env: Env, config: Config, s: State, frame: Frame, start: uint32, end: Turn)
  {
    && s.log <= end.s.log && Balanced(s, end.s, end.frame.completed - frame.completed)
    && WithinBudget(env, config, start, Since(s, end.s), frame.steps > 0)
    && (end.s.terminated <==> end.stop == Fail(ErrTerminated))
    && (end.stop == Fail(ErrDelay) <==> !end.s.terminated && Refused(Since(s, end.s)))
    && match end.stop
       case Next => false
       case Break =>
         && (end.frame.exhausted <==> end.s.remaining > 0 && end.frame.steps < config.stepsPerFrame)
         && (end.frame.exhausted ==> end.frame.steps > 0 && Late(env, config, start, end.s.ticks))
       case Fail(error) =>
         && !end.frame.exhausted
         && if end.s.terminated then end.frame == Frame(end.frame.steps, 0, 0, false)
            else error == ErrDelay && end.frame.pending == end.s.pending
  }

  lemma RestChain(env: Env, config: Config, s: State, frame: Frame, start: uint32, turn: Turn, end: Turn)
    requires Round(env, config, s, frame, start, turn) && turn.stop == Next
    requires Rest(env, config, turn.s, turn.frame, start, end)
    ensures Rest(env, config, s, frame, start, end)
  {
    var a, b := Since(s, turn.s), Since(turn.s, end.s);
    SinceSplit(s, turn.s, end.s);
    RefusedAppend(a, b);
    BudgetAppend(env, config, start, a, b, frame.steps > 0, turn.frame.steps > 0);
    BalancedChain(s, turn.s, end.s, turn.frame.completed - frame.completed, end.frame.completed - turn.frame.completed);
    hide WithinBudget, Refused, HasRun, Late, Balanced;
  }

  lemma RestLast(env: Env, config: Config, s: State, frame: Frame, start: uint32, turn: Turn)
    requires Round(env, config, s, frame, start, turn) && turn.stop != Next && !frame.exhausted
    requires s.remaining > 0 && frame.steps < config.stepsPerFrame
    ensures Rest(env, config, s, frame, start, turn)
  {
    if turn.stop == Break {
      NoEvents(env, config, start, Since(s, turn.s), frame.steps > 0);
    }
    hide WithinBudget, Refused, HasRun, Late, Balanced;
  }

  lemma RestNothing(env: Env, config: Config, s: State, frame: Frame, start: uint32, now: uint32)
    requires !s.terminated && !frame.exhausted && (s.remaining <= 0 || frame.steps >= config.stepsPerFrame)
    ensures Rest(env, config, s, frame, start, Turn(s, frame, now, Break))
  {
    NoEvents(env, config, start, Since(s, s), frame.steps > 0);
    BalancedSame(s, s);
    hide WithinBudget, Refused, HasRun, Late, Balanced;
  }

  lemma {:induction false} LoopRest(env: Env, config: Config, s: State, frame: Frame, start: uint32, now: uint32)
    requires Inv(s, None) && NoWrap(env) && s.ticks > 0 && s.updating && !s.terminated && !frame.exhausted
    ensures Rest(env, config, s, frame, start, Loop(env, config, s, frame, start, now))
    decreases if s.remaining > 0 then s.remaining else 0
  {
    hide Inv, Round, Rest, TakeTurn;
    if s.remaining > 0 && frame.steps < config.stepsPerFrame {
      RingWhileCounting(s);
      TakeTurnRound(env, config, s, frame, start, now);
      TakeTurnInv(env, config, s, frame, start, now);
      var turn := TakeTurn(env, config, s, frame, start, now);
      if turn.stop == Next {
        RoundGoesOn(env, config, s, frame, start, turn);
        LoopRest(env, config, turn.s, turn.frame, start, turn.now);
        RestChain(env, config, s, frame, start, turn, Loop(env, config, turn.s, turn.frame, start, turn.now));
      } else {
        RestLast(env, config, s, frame, start, turn);
      }
    } else {
      RestNothing(env, config, s, frame, start, now);
    }
  }

  lemma RoundGoesOn(env: Env, config: Config, s: State, frame: Frame, start: uint32, turn: Turn)
    requires Round(env, config, s, frame, start, turn) && turn.stop == Next
    ensures !turn.s.terminated && turn.frame.exhausted == frame.exhausted
  {
  }

  /**
   * Update reports ErrTerminated exactly when everything was terminated, and
   * ErrDelay exactly when the last step asked for an invalid delay and its
   * task was still there.  The frame's pending tasks are the queued ones: those
   * queued before, with what calls queued and cancelled meanwhile, less the
   * completed ones.  It says that the budget is exhausted exactly when the
   * update stopped with steps to spare and entries to examine; then a reading
   * had passed the budget, and no step but the first began later than that.
   */
  lemma UpdateReport(env: Env, config: Config, s: State)
    requires Idle(s) && NoWrap(env) && ValidConfig(config) && !s.terminated
    ensures var u := DoUpdate(env, config, s);
            var start := env.clock(s.ticks);
            && s.log <= u.s.log
            && (u.error == Some(ErrTerminated) <==> u.s.terminated)
            && (u.error == Some(ErrDelay) <==> !u.s.terminated && Refused(Since(s, u.s)))
            && (u.error.None? || u.error == Some(ErrTerminated) || u.error == Some(ErrDelay))
            && (if u.s.terminated then u.frame == Frame(u.frame.steps, 0, 0, false)
                else u.frame.pending == |QueuedSlots(u.s)| == |QueuedSlots(s)| + Net(Since(s, u.s)) - u.frame.completed)
            && (u.frame.exhausted <==> u.error.None? && u.s.remaining > 0 && u.frame.steps < config.stepsPerFrame)
            && (u.frame.exhausted ==> u.frame.steps > 0 && Late(env, config, start, u.s.ticks))
            && WithinBudget(env, config, start, Since(s, u.s), false)
  {
    var begun := Begin(s);
    var end := Loop(env, config, begun, Frame(0, 0, 0, false), Now(env, s), Now(env, s));
    InvFrame(s, begun, None);
    LoopRest(env, config, begun, Frame(0, 0, 0, false), Now(env, s), Now(env, s));
    TopCallInv(env, config, s, Update);
    PendingCountsQueued(s, None);
    PendingCountsQueued(DoUpdate(env, config, s).s, None);
    hide Loop, Inv, WithinBudget, Refused, Late, Net, QueuedSlots;
    assert Since(begun, end.s) == Since(s, DoUpdate(env, config, s).s);
  }
}
