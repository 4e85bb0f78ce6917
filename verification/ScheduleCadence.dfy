/**
 * Repeating tasks keep their cadence: as long as a task only ever returns
 * Repeat, its due times are the first one plus the sum of the intervals,
 * modulo 2^32, however late it was actually run.
 */
module ScheduleCadence {
  import opened Common
  import opened ScheduleModel
  import opened ScheduleInvariant
  import opened ScheduleOrder
  import opened ScheduleWait

  predicate IsRun(event: Event, x: nat, g: uint32)
  {
    event.Ran? && event.index == x && event.generation == g
  }

  /** In this stretch the task is never cancelled and every run returned a valid Repeat. */
  ghost predicate Steady(log: seq<Event>, x: nat, g: uint32)
  {
    && Cancelled(x, g) !in log
    && forall k :: 0 <= k < |log| && IsRun(log[k], x, g) ==>
                     log[k].action.Repeat? && 0 < log[k].action.ms <= MAX_DELAY
  }

  /** The sum of the intervals the task's runs returned. */
  function Intervals(log: seq<Event>, x: nat, g: uint32): nat
  {
    if log == [] then 0
    else (if IsRun(log[0], x, g) && log[0].action.Repeat? then log[0].action.ms else 0) + Intervals(log[1..], x, g)
  }

  /** Every run of the task in this stretch was due at the first due time plus the intervals before it. */
  ghost predicate OnCadence(log: seq<Event>, x: nat, g: uint32, due: uint32)
  {
    forall k :: 0 <= k < |log| ==> OnTime(log, k, x, g, due)
  }

  ghost predicate OnTime(log: seq<Event>, k: nat, x: nat, g: uint32, due: uint32)
    requires k < |log|
  {
    IsRun(log[k], x, g) ==> log[k].due == Add32(due, Intervals(log[..k], x, g))
  }

  lemma {:induction false} IntervalsAppend(a: seq<Event>, b: seq<Event>, x: nat, g: uint32)
    ensures Intervals(a + b, x, g) == Intervals(a, x, g) + Intervals(b, x, g)
  {
    if a == [] {
      assert a + b == b;
    } else {
      IntervalsAppend(a[1..], b, x, g);
      var whole := a + b;
      assert whole[0] == a[0] && whole[1..] == a[1..] + b;
    }
  }

  lemma Add32Twice(due: uint32, a: nat, b: nat)
    ensures Add32(Add32(due, a), b) == Add32(due, a + b)
  {
  }

  lemma OnCadenceAppend(a: seq<Event>, b: seq<Event>, x: nat, g: uint32, due: uint32)
    requires OnCadence(a, x, g, due)
    requires OnCadence(b, x, g, Add32(due, Intervals(a, x, g)))
    ensures OnCadence(a + b, x, g, due)
  {
    hide OnTime, Intervals;
    forall k | 0 <= k < |a + b| ensures OnTime(a + b, k, x, g, due) {
      if k < |a| {
        assert OnTime(a, k, x, g, due);
        PrefixOnTime(a, b, k, x, g, due);
      } else {
        assert OnTime(b, k - |a|, x, g, Add32(due, Intervals(a, x, g)));
        ShiftedOnTime(a, b, k - |a|, x, g, due);
      }
    }
  }

  lemma PrefixOnTime(a: seq<Event>, b: seq<Event>, k: nat, x: nat, g: uint32, due: uint32)
    requires k < |a| && OnTime(a, k, x, g, due)
    ensures OnTime(a + b, k, x, g, due)
  {
    hide Intervals, IsRun, Add32;
    assert (a + b)[..k] == a[..k];
  }

  lemma ShiftedOnTime(a: seq<Event>, b: seq<Event>, k: nat, x: nat, g: uint32, due: uint32)
    requires k < |b| && OnTime(b, k, x, g, Add32(due, Intervals(a, x, g)))
    ensures OnTime(a + b, |a| + k, x, g, due)
  {
    hide Intervals, IsRun, Add32;
    ShiftedCadence(a, b, k, x, g, due);
  }

  lemma ShiftedCadence(a: seq<Event>, b: seq<Event>, k: nat, x: nat, g: uint32, due: uint32)
    requires k < |b|
    ensures Add32(Add32(due, Intervals(a, x, g)), Intervals(b[..k], x, g)) == Add32(due, Intervals((a + b)[..|a| + k], x, g))
  {
    hide Intervals;
    assert (a + b)[..|a| + k] == a + b[..k];
    IntervalsAppend(a, b[..k], x, g);
    Add32Twice(due, Intervals(a, x, g), Intervals(b[..k], x, g));
  }

  lemma {:induction false} NoRunsNoIntervals(log: seq<Event>, x: nat, g: uint32)
    requires forall k :: 0 <= k < |log| ==> !log[k].Ran?
    ensures Intervals(log, x, g) == 0
  {
    if log != [] {
      NoRunsNoIntervals(log[1..], x, g);
    }
  }

  ghost predicate Holds(s: State, x: nat, g: uint32, due: uint32)
  {
    x < |s.tasks| && s.tasks[x].queued && s.tasks[x].generation == g && s.tasks[x].due == due
  }

  /** From `s` to `r` a steady task stays on its cadence. */
  ghost predicate Follows(s: State, r: State, x: nat, g: uint32, due: uint32)
  {
    s.log <= r.log
    && (Steady(Since(s, r), x, g) && !r.terminated ==>
          && Holds(r, x, g, Add32(due, Intervals(Since(s, r), x, g)))
          && OnCadence(Since(s, r), x, g, due))
  }

  lemma FollowsChain(s: State, r: State, t: State, x: nat, g: uint32, due: uint32)
    requires Follows(s, r, x, g, due) && r.log <= t.log && (r.terminated ==> t.terminated)
    requires Holds(r, x, g, Add32(due, Intervals(Since(s, r), x, g))) ==>
               Follows(r, t, x, g, Add32(due, Intervals(Since(s, r), x, g)))
    ensures Follows(s, t, x, g, due)
  {
    var a, b := Since(s, r), Since(r, t);
    SinceSplit(s, r, t);
    hide Holds, Intervals, OnCadence;
    if Steady(Since(s, t), x, g) && !t.terminated {
      SteadySplit(a, b, x, g);
      OnCadenceAppend(a, b, x, g, due);
      IntervalsAppend(a, b, x, g);
      Add32Twice(due, Intervals(a, x, g), Intervals(b, x, g));
    }
  }

  lemma SteadySplit(a: seq<Event>, b: seq<Event>, x: nat, g: uint32)
    requires Steady(a + b, x, g)
    ensures Steady(a, x, g) && Steady(b, x, g)
  {
    var whole := a + b;
    forall k | 0 <= k < |a| && IsRun(a[k], x, g) ensures a[k].action.Repeat? && 0 < a[k].action.ms <= MAX_DELAY {
      assert whole[k] == a[k];
    }
    forall k | 0 <= k < |b| && IsRun(b[k], x, g) ensures b[k].action.Repeat? && 0 < b[k].action.ms <= MAX_DELAY {
      assert whole[|a| + k] == b[k];
    }
  }

  lemma FollowsUnchanged(s: State, r: State, x: nat, g: uint32, due: uint32)
    requires Holds(s, x, g, due) && r.log == s.log && x < |r.tasks| && r.tasks[x] == s.tasks[x]
    ensures Follows(s, r, x, g, due)
  {
    assert Since(s, r) == [];
  }

  /** What calls log: no runs. */
  ghost predicate Quiet(log: seq<Event>)
  {
    forall k :: 0 <= k < |log| ==> !log[k].Ran?
  }

  /** A queued slot is changed only by cancelling its task or by terminating. */
  lemma NestedCallHolds(env: Env, s: State, call: Call, x: nat)
    requires x < |s.tasks| && s.tasks[x].queued
    ensures var r := NestedCall(env, s, call);
            && Quiet(Since(s, r))
            && (r.terminated || Cancelled(x, s.tasks[x].generation) in Since(s, r) || r.tasks[x] == s.tasks[x])
  {
  }

  lemma {:induction false} RunCallsHolds(env: Env, s: State, calls: seq<Call>, x: nat)
    requires x < |s.tasks| && s.tasks[x].queued
    ensures var r := RunCalls(env, s, calls);
            && Quiet(Since(s, r))
            && (r.terminated || Cancelled(x, s.tasks[x].generation) in Since(s, r) || r.tasks[x] == s.tasks[x])
    decreases |calls|
  {
    if calls != [] {
      NestedCallHolds(env, s, calls[0], x);
      hide NestedCall;
      var r := NestedCall(env, s, calls[0]);
      var t := RunCalls(env, r, calls[1..]);
      SinceSplit(s, r, t);
      if r.tasks[x] == s.tasks[x] {
        RunCallsHolds(env, r, calls[1..], x);
      } else {
        RunCallsQuiet(env, r, calls[1..]);
      }
    }
  }

  lemma {:induction false} RunCallsQuiet(env: Env, s: State, calls: seq<Call>)
    ensures Quiet(Since(s, RunCalls(env, s, calls)))
    decreases |calls|
  {
    if calls != [] {
      var r := NestedCall(env, s, calls[0]);
      RunCallsQuiet(env, r, calls[1..]);
      SinceSplit(s, r, RunCalls(env, r, calls[1..]));
    }
  }

  lemma QuietFollows(s: State, r: State, x: nat, g: uint32, due: uint32)
    requires Holds(s, x, g, due) && s.log <= r.log && |r.tasks| == |s.tasks| && Quiet(Since(s, r))
    requires r.terminated || Cancelled(x, g) in Since(s, r) || r.tasks[x] == s.tasks[x]
    ensures Follows(s, r, x, g, due)
  {
    NoRunsNoIntervals(Since(s, r), x, g);
  }

  lemma OneEventFollows(s: State, r: State, event: Event, x: nat, g: uint32, due: uint32)
    requires Holds(s, x, g, due) && r.tasks == s.tasks && r.log == s.log + [event] && !IsRun(event, x, g)
    ensures Follows(s, r, x, g, due) && Intervals(Since(s, r), x, g) == 0
  {
    assert Since(s, r) == [event];
    assert [event][1..] == [];
  }

  /** Another task's turn leaves this one on its cadence. */
  lemma OtherTaskFollows(env: Env, s: State, frame: Frame, now: uint32, index: nat, x: nat, g: uint32, due: uint32)
    requires Holds(s, x, g, due) && index < |s.tasks| && index != x
    ensures Follows(s, RunTask(env, s, frame, now, index).s, x, g, due)
  {
    var started := Started(env, s, index);
    var t := AfterCalls(env, s, index);
    var r := RunTask(env, s, frame, now, index).s;
    RunCallsHolds(env, started, Behave(env, s, index).calls, x);
    OneEventFollows(s, started, started.log[|s.log|], x, g, due);
    assert Follows(started, t, x, g, due) by { QuietFollows(started, t, x, g, due); }
    hide Follows, AfterCalls;
    OtherActionHolds(env, t, frame.(steps := frame.steps + 1), now, index, s.tasks[index].due, Behave(env, s, index).action, x);
    FollowsResult(s, started, t, r, x, g, due);
  }

  lemma OtherActionHolds(env: Env, t: State, frame: Frame, now: uint32, index: nat, due: uint32, action: Action, x: nat)
    requires index < |t.tasks| && x < |t.tasks| && x != index
    ensures var r := ApplyAction(env, t, frame, now, index, due, action).s;
            r.tasks[x] == t.tasks[x] && r.log == t.log && r.terminated == t.terminated
  {
  }

  lemma FollowsResult(s: State, started: State, t: State, r: State, x: nat, g: uint32, due: uint32)
    requires Follows(s, started, x, g, due) && Intervals(Since(s, started), x, g) == 0
    requires Follows(started, t, x, g, due)
    requires started.terminated ==> t.terminated
    requires r.log == t.log && r.terminated == t.terminated && |r.tasks| == |t.tasks|
    requires x < |t.tasks| && r.tasks[x] == t.tasks[x]
    ensures Follows(s, r, x, g, due)
  {
    hide Intervals;
    FollowsChain(s, started, t, x, g, due);
    assert Since(s, r) == Since(s, t);
  }

  /** The log of the task's own step: its run, then what its calls log. */
  lemma OwnCalls(env: Env, s: State, x: nat) returns (ran: Event, later: seq<Event>)
    requires x < |s.tasks| && s.tasks[x].queued
    ensures IsRun(ran, x, s.tasks[x].generation) && ran.due == s.tasks[x].due && ran.action == Behave(env, s, x).action
    ensures var t := AfterCalls(env, s, x);
            && Since(s, t) == [ran] + later && Quiet(later)
            && (t.terminated || Cancelled(x, s.tasks[x].generation) in later || t.tasks[x] == s.tasks[x])
  {
    var started := Started(env, s, x);
    RunCallsHolds(env, started, Behave(env, s, x).calls, x);
    hide RunCalls;
    ran := started.log[|s.log|];
    later := Since(started, AfterCalls(env, s, x));
  }

  /** The task's own turn moves its due time by exactly the interval it returned. */
  lemma OwnTaskFollows(env: Env, s: State, frame: Frame, now: uint32, x: nat, g: uint32, due: uint32)
    requires Holds(s, x, g, due)
    ensures Follows(s, RunTask(env, s, frame, now, x).s, x, g, due)
  {
    var r := RunTask(env, s, frame, now, x).s;
    var ran, later := OwnCalls(env, s, x);
    OwnTaskResult(env, s, frame, now, x);
    hide RunTask, AfterCalls, Intervals, OnCadence, Holds;
    assert Since(s, r) == [ran] + later;
    if Steady([ran] + later, x, g) && !r.terminated {
      OwnSteady(ran, later, x, g);
      OwnCadence(ran, later, x, g, due);
    }
  }

  lemma OwnSteady(ran: Event, later: seq<Event>, x: nat, g: uint32)
    requires Steady([ran] + later, x, g) && Quiet(later) && IsRun(ran, x, g)
    ensures ran.action.Repeat? && 0 < ran.action.ms <= MAX_DELAY && Cancelled(x, g) !in later
    ensures Intervals([ran] + later, x, g) == ran.action.ms
  {
    assert ([ran] + later)[0] == ran && ([ran] + later)[1..] == later;
    NoRunsNoIntervals(later, x, g);
  }

  lemma OwnCadence(ran: Event, later: seq<Event>, x: nat, g: uint32, due: uint32)
    requires ran.Ran? && ran.due == due && Quiet(later)
    ensures OnCadence([ran] + later, x, g, due)
  {
    var whole := [ran] + later;
    forall k | 0 <= k < |whole|
      ensures OnTime(whole, k, x, g, due)
    {
      assert k > 0 ==> whole[k] == later[k - 1];
      assert whole[..0] == [];
    }
  }

  lemma OwnTaskResult(env: Env, s: State, frame: Frame, now: uint32, x: nat)
    requires x < |s.tasks| && s.tasks[x].queued
    ensures var t := AfterCalls(env, s, x);
            var r := RunTask(env, s, frame, now, x).s;
            var action := Behave(env, s, x).action;
            && r.log == t.log && r.terminated == t.terminated
            && (t.tasks[x] == s.tasks[x] && !t.terminated && action.Repeat? && 0 < action.ms <= MAX_DELAY ==>
                  Holds(r, x, s.tasks[x].generation, Add32(s.tasks[x].due, action.ms)))
  {
    hide AfterCalls;
  }

  lemma ExamineFollows(env: Env, config: Config, s: State, frame: Frame, now: uint32, x: nat, g: uint32, due: uint32)
    requires Holds(s, x, g, due) && s.ring != [] && s.ring[0] < |s.tasks| && s.remaining > 0
    ensures Follows(s, Examine(env, config, s, frame, now).s, x, g, due)
  {
    var index := s.ring[0];
    var popped := Pop(s);
    if s.tasks[index].queued {
      RunOrDeferFollows(env, popped, frame, now, index, x, g, due);
      RunOrDeferFollows(env, Tick(popped), frame, Now(env, popped), index, x, g, due);
      var r := Examine(env, config, s, frame, now).s;
      hide RunOrDefer;
      assert Since(popped, r) == Since(s, r);
    } else {
      FollowsUnchanged(s, popped, x, g, due);
    }
  }

  lemma RunOrDeferFollows(env: Env, s: State, frame: Frame, now: uint32, index: nat, x: nat, g: uint32, due: uint32)
    requires Holds(s, x, g, due) && index < |s.tasks|
    ensures Follows(s, RunOrDefer(env, s, frame, now, index).s, x, g, due)
  {
    hide RunTask, Follows;
    if !Reached(now, s.tasks[index].due) {
      FollowsUnchanged(s, RunOrDefer(env, s, frame, now, index).s, x, g, due);
    } else if index == x {
      OwnTaskFollows(env, s, frame, now, x, g, due);
    } else {
      OtherTaskFollows(env, s, frame, now, index, x, g, due);
    }
  }

  lemma TakeTurnFollows(env: Env, config: Config, s: State, frame: Frame, start: uint32, now: uint32, x: nat, g: uint32, due: uint32)
    requires Holds(s, x, g, due) && s.ring != [] && s.ring[0] < |s.tasks| && s.remaining > 0
    ensures Follows(s, TakeTurn(env, config, s, frame, start, now).s, x, g, due)
  {
    ExamineFollows(env, config, s, frame, now, x, g, due);
    ExamineFollows(env, config, Tick(s), frame, Now(env, s), x, g, due);
    FollowsUnchanged(s, Tick(s), x, g, due);
    var r := TakeTurn(env, config, s, frame, start, now).s;
    assert Since(Tick(s), r) == Since(s, r);
    hide Examine;
  }

  lemma {:induction false} LoopFollows(env: Env, config: Config, s: State, frame: Frame, start: uint32, now: uint32, x: nat, g: uint32, due: uint32)
    requires Inv(s, None) && NoWrap(env) && Holds(s, x, g, due)
    ensures Follows(s, Loop(env, config, s, frame, start, now).s, x, g, due)
    decreases if s.remaining > 0 then s.remaining else 0
  {
    if s.remaining > 0 && frame.steps < config.stepsPerFrame && s.ring != [] {
      TakeTurnInv(env, config, s, frame, start, now);
      TakeTurnFollows(env, config, s, frame, start, now, x, g, due);
      TakeTurnTerminated(env, config, s, frame, start, now);
      hide TakeTurn, Inv, Follows, Holds;
      var t := TakeTurn(env, config, s, frame, start, now);
      if t.stop == Next {
        var middle := Add32(due, Intervals(Since(s, t.s), x, g));
        if Holds(t.s, x, g, middle) {
          LoopFollows(env, config, t.s, t.frame, start, t.now, x, g, middle);
        }
        FollowsChain(s, t.s, Loop(env, config, s, frame, start, now).s, x, g, due);
      }
    } else {
      FollowsUnchanged(s, s, x, g, due);
    }
  }

  lemma TopCallFollows(env: Env, config: Config, s: State, call: Call, x: nat, g: uint32, due: uint32)
    requires Idle(s) && NoWrap(env) && Holds(s, x, g, due)
    ensures Follows(s, TopCall(env, config, s, call), x, g, due)
  {
    var r := TopCall(env, config, s, call);
    if call == Update {
      if s.terminated {
        FollowsUnchanged(s, r, x, g, due);
      } else {
        var begun := Begin(s);
        InvFrame(s, begun, None);
        LoopFollows(env, config, begun, Frame(0, 0, 0, false), Now(env, s), Now(env, s), x, g, due);
        hide Loop;
        assert Since(begun, r) == Since(s, r);
      }
    } else {
      NestedCallHolds(env, s, call, x);
      hide NestedCall;
      QuietFollows(s, r, x, g, due);
    }
  }

  lemma {:induction false} DriveFollows(env: Env, config: Config, s: State, calls: seq<Call>, x: nat, g: uint32, due: uint32)
    requires Idle(s) && NoWrap(env) && Holds(s, x, g, due)
    ensures Follows(s, Drive(env, config, s, calls), x, g, due)
    decreases |calls|
  {
    if calls == [] {
      FollowsUnchanged(s, s, x, g, due);
    } else {
      TopCallInv(env, config, s, calls[0]);
      TopCallFollows(env, config, s, calls[0], x, g, due);
      hide TopCall, Follows, Holds, Idle;
      var r := TopCall(env, config, s, calls[0]);
      DriveMonotone(env, config, r, calls[1..]);
      var middle := Add32(due, Intervals(Since(s, r), x, g));
      if Holds(r, x, g, middle) {
        DriveFollows(env, config, r, calls[1..], x, g, middle);
      }
      FollowsChain(s, r, Drive(env, config, s, calls), x, g, due);
    }
  }

  /**
   * Over any run in which the task is not cancelled, nothing is terminated and
   * all its runs return valid Repeats, the k-th of those runs was due at the
   * first due time plus the sum of the earlier intervals, modulo 2^32, and so
   * is the next one.
   */
  lemma RepeatCadence(env: Env, config: Config, s: State, calls: seq<Call>, x: nat)
    requires Idle(s) && NoWrap(env) && ValidConfig(config) && x < |s.tasks| && s.tasks[x].queued
    ensures s.log <= Drive(env, config, s, calls).log
    ensures var r := Drive(env, config, s, calls);
            var g := s.tasks[x].generation;
            var log := Since(s, r);
            Steady(log, x, g) && !r.terminated ==>
              && Holds(r, x, g, Add32(s.tasks[x].due, Intervals(log, x, g)))
              && OnCadence(log, x, g, s.tasks[x].due)
  {
    DriveMonotone(env, config, s, calls);
    DriveFollows(env, config, s, calls, x, s.tasks[x].generation, s.tasks[x].due);
  }
}
