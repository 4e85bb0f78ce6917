/**
 * The p + 1 bound cannot be lowered, however many steps a frame allows: a run
 * in which each step adds a task and cancels it again, once for every entry
 * still to be examined, so that every Update stops after one step.
 */
module ScheduleTight {
  import opened Common
  import opened ScheduleModel
  import opened ScheduleInvariant
  import opened ScheduleWait
  import opened ScheduleShort

  const STALLER: Step := 1

  const READY: Slot := Slot(STALLER, 0, 1, true, false)

  /** The generation of a slot that was used `n` times. */
  function Generation(n: nat): uint32
  {
    if n == 0 then 0 else Bump(Generation(n - 1))
  }

  /** Add a task and cancel it, `count` times, in a slot used `from` times before. */
  function AddAndCancel(slot: nat, count: nat, from: nat): (calls: seq<Call>)
    ensures |calls| == 2 * count
  {
    if count == 0 then []
    else [Schedule(STALLER), Cancel(MakeTask(slot, Generation(from + 1)))] + AddAndCancel(slot, count - 1, from + 1)
  }

  function StallingEnv(p: nat): Env
  {
    Env((n: nat) => 0 as uint32, (step: Step, n: nat) => Behaviour(AddAndCancel(p + 1, p, n * p), Yield))
  }

  /** The ring after `i` of the tasks 0 to `p` were put back. */
  function Rotation(p: nat, i: nat): (r: seq<nat>)
    requires i <= p
    ensures |r| == p + 1
  {
    seq(p + 1, k requires 0 <= k <= p => if k + i <= p then k + i else k + i - (p + 1))
  }

  /** Tasks 0 to `p` wait, and the spare slot was used `used` times. */
  ghost predicate Occupied(tasks: seq<Slot>, p: nat, used: nat)
  {
    && |tasks| == p + 2 && (forall j :: 0 <= j <= p ==> tasks[j] == READY)
    && !tasks[p + 1].queued && tasks[p + 1].generation == Generation(used)
  }

  ghost predicate NotServed(log: seq<Event>, p: nat)
  {
    forall event :: event in log ==> !Serves(event, p, 1)
  }

  /** Between the frames, after `i` Updates. */
  ghost predicate Stage(s: State, p: nat, i: nat)
    requires i <= p
  {
    && Occupied(s.tasks, p, i * p) && s.ring == Rotation(p, i) && s.pending == p + 1
    && !s.terminated && !s.updating && s.runs == i && NotServed(s.log, p)
  }

  // ----------------------------------------------------------- one step's calls

  lemma FirstFreeIsSpare(tasks: seq<Slot>, p: nat, used: nat)
    requires Occupied(tasks, p, used)
    ensures FirstFree(tasks, 0) == p + 1
  {
  }

  /** What a step's calls leave as they were, and what they change. */
  ghost predicate Charged(s: State, r: State, p: nat, used: nat, count: nat)
  {
    && Occupied(r.tasks, p, used) && r.ring == s.ring && r.pending == s.pending
    && r.terminated == s.terminated && r.updating == s.updating && r.runs == s.runs
    && r.remaining == s.remaining - count && NotServed(r.log, p)
  }

  ghost predicate InStep(s: State, p: nat, used: nat)
  {
    && Occupied(s.tasks, p, used) && p + 1 !in s.ring && s.pending == p + 1
    && !s.terminated && s.updating && NotServed(s.log, p)
  }

  lemma AddOne(p: nat, s: State, used: nat)
    requires InStep(s, p, used)
    ensures NestedCall(StallingEnv(p), s, Schedule(STALLER))
         == s.(tasks := s.tasks[p + 1 := Slot(STALLER, 0, Generation(used + 1), true, false)],
               ring := s.ring + [p + 1], pending := s.pending + 1, ticks := s.ticks + 1,
               log := s.log + [Scheduled(p + 1, Generation(used + 1), Schedule(STALLER), s.ticks + 1)])
  {
    FirstFreeIsSpare(s.tasks, p, used);
  }

  lemma CancelOne(p: nat, s: State, added: State, used: nat)
    requires InStep(s, p, used) && p + 2 < U32
    requires added == s.(tasks := s.tasks[p + 1 := Slot(STALLER, 0, Generation(used + 1), true, false)],
                         ring := s.ring + [p + 1], pending := s.pending + 1, ticks := s.ticks + 1,
               log := s.log + [Scheduled(p + 1, Generation(used + 1), Schedule(STALLER), s.ticks + 1)])
    ensures Charged(s, NestedCall(StallingEnv(p), added, Cancel(MakeTask(p + 1, Generation(used + 1)))), p, used + 1, 1)
  {
    IdentifyExact(added.tasks, p + 1, Generation(used + 1));
    hide MakeTask, Generation, Identify;
    var r := CancelSlot(added, p + 1);
    assert added.ring[|s.ring|] == p + 1;
    LastWithout(s.ring, p + 1);
    assert r.log == added.log + [Cancelled(p + 1, Generation(used + 1))];
  }

  lemma {:induction false} LastWithout(ring: seq<nat>, x: nat)
    requires x !in ring
    ensures Without(ring + [x], x) == ring
  {
    if ring == [] {
      assert [x][1..] == [];
    } else {
      assert (ring + [x])[1..] == ring[1..] + [x];
      LastWithout(ring[1..], x);
    }
  }

  lemma {:induction false} CallsCharge(p: nat, s: State, used: nat, count: nat)
    requires InStep(s, p, used) && p + 2 < U32
    ensures Charged(s, RunCalls(StallingEnv(p), s, AddAndCancel(p + 1, count, used)), p, used + count, count)
    decreases count
  {
    hide *;
    if count > 0 {
      PairCharges(p, s, used, count);
      var r := AfterPair(p, s, used);
      StillInStep(s, r, p, used);
      CallsCharge(p, r, used + 1, count - 1);
      ChargedChain(s, r, RunCalls(StallingEnv(p), r, AddAndCancel(p + 1, count - 1, used + 1)), p, used, count);
    } else {
      NothingCharged(p, s, used);
    }
  }

  /** One task added and cancelled. */
  function AfterPair(p: nat, s: State, used: nat): State
  {
    NestedCall(StallingEnv(p), NestedCall(StallingEnv(p), s, Schedule(STALLER)), Cancel(MakeTask(p + 1, Generation(used + 1))))
  }

  lemma PairCharges(p: nat, s: State, used: nat, count: nat)
    requires InStep(s, p, used) && p + 2 < U32 && count > 0
    ensures Charged(s, AfterPair(p, s, used), p, used + 1, 1)
    ensures RunCalls(StallingEnv(p), s, AddAndCancel(p + 1, count, used))
         == RunCalls(StallingEnv(p), AfterPair(p, s, used), AddAndCancel(p + 1, count - 1, used + 1))
  {
    AddOne(p, s, used);
    CancelOne(p, s, NestedCall(StallingEnv(p), s, Schedule(STALLER)), used);
    var calls := AddAndCancel(p + 1, count, used);
    assert calls[0] == Schedule(STALLER) && calls[1..][0] == Cancel(MakeTask(p + 1, Generation(used + 1)));
    assert calls[1..][1..] == AddAndCancel(p + 1, count - 1, used + 1);
    hide NestedCall, Charged, InStep, AddAndCancel, RunCalls, MakeTask, Generation;
    TwoCalls(StallingEnv(p), s, calls);
  }

  lemma NothingCharged(p: nat, s: State, used: nat)
    requires InStep(s, p, used)
    ensures Charged(s, RunCalls(StallingEnv(p), s, AddAndCancel(p + 1, 0, used)), p, used, 0)
  {
    hide Generation;
  }

  lemma TwoCalls(env: Env, s: State, calls: seq<Call>)
    requires |calls| >= 2
    ensures RunCalls(env, s, calls) == RunCalls(env, NestedCall(env, NestedCall(env, s, calls[0]), calls[1..][0]), calls[1..][1..])
  {
    hide NestedCall;
  }

  lemma StillInStep(s: State, r: State, p: nat, used: nat)
    requires InStep(s, p, used) && Charged(s, r, p, used + 1, 1)
    ensures InStep(r, p, used + 1)
  {
    hide Generation;
  }

  lemma ChargedChain(s: State, r: State, t: State, p: nat, used: nat, count: nat)
    requires count > 0 && Charged(s, r, p, used + 1, 1) && Charged(r, t, p, used + 1 + (count - 1), count - 1)
    ensures Charged(s, t, p, used + count, count)
  {
    hide Occupied, NotServed;
  }

  // ------------------------------------------------------------------ one frame

  /** The popped task runs its calls, is put back, and nothing remains to be counted. */
  lemma StepStalls(p: nat, config: Config, s: State, i: nat, frame: Frame)
    requires i < p && p + 2 < U32 && InStep(s, p, i * p) && s.runs == i && s.ring == Rotation(p, i)[1..] && s.remaining == p
    ensures var turn := RunOrDefer(StallingEnv(p), s, frame, 0, i);
            && turn.stop == Next && turn.s.remaining == 0 && turn.frame.steps == frame.steps + 1
            && turn.s.updating && Stage(turn.s.(updating := false), p, i + 1)
  {
    StepCharges(p, s, i);
    var env := StallingEnv(p);
    var r := AfterCalls(env, s, i);
    PutBack(p, r, i, frame.(steps := frame.steps + 1));
    hide AfterCalls, ApplyAction, Generation, NotServed, Stage, Rotation;
    assert s.tasks[i] == READY && r.tasks[i] == READY;
    assert Behave(env, s, i).action == Yield;
  }

  lemma StepCharges(p: nat, s: State, i: nat)
    requires i < p && p + 2 < U32 && InStep(s, p, i * p) && s.runs == i
    ensures i < |s.tasks|
    ensures var r := AfterCalls(StallingEnv(p), s, i);
            && Occupied(r.tasks, p, (i + 1) * p) && r.ring == s.ring && r.pending == p + 1
            && !r.terminated && r.updating && r.runs == i + 1 && r.remaining == s.remaining - p && NotServed(r.log, p)
  {
    var started := Started(StallingEnv(p), s, i);
    StartedInStep(p, s, i);
    hide InStep, AddAndCancel, RunCalls, NestedCall, Generation, NotServed;
    CallsCharge(p, started, i * p, p);
    NextUse(i, p);
    StartedFields(p, s, i);
  }

  lemma NextUse(i: nat, p: nat)
    ensures i * p + p == (i + 1) * p
  {
  }

  lemma StartedFields(p: nat, s: State, i: nat)
    requires InStep(s, p, i * p) && i < |s.tasks| && s.runs == i
    ensures var started := Started(StallingEnv(p), s, i);
            && started.pending == p + 1 && !started.terminated && started.updating && started.runs == i + 1
            && Behave(StallingEnv(p), s, i).calls == AddAndCancel(p + 1, p, i * p)
  {
    hide AddAndCancel;
  }

  lemma StartedInStep(p: nat, s: State, i: nat)
    requires i < p && InStep(s, p, i * p)
    ensures i < |s.tasks| && InStep(Started(StallingEnv(p), s, i), p, i * p)
  {
    hide AddAndCancel, Generation;
    assert s.tasks[i] == READY;
    assert Started(StallingEnv(p), s, i).log == s.log + [Ran(i, 1, 0, Yield, s.ticks, s.ticks + Readings(Behave(StallingEnv(p), s, i).calls))];
  }

  lemma PutBack(p: nat, r: State, i: nat, frame: Frame)
    requires i < p && Occupied(r.tasks, p, (i + 1) * p) && r.ring == Rotation(p, i)[1..]
    requires r.pending == p + 1 && !r.terminated && r.runs == i + 1 && NotServed(r.log, p)
    ensures var turn := ApplyAction(StallingEnv(p), r, frame, 0, i, 0, Yield);
            turn == Turn(r.(ring := r.ring + [i]), frame, 0, Next) && Stage(turn.s.(updating := false), p, i + 1)
  {
    hide NotServed, Generation;
    assert r.tasks[i := r.tasks[i].(due := 0, repeating := false)] == r.tasks;
    assert Rotation(p, i)[1..] + [i] == Rotation(p, i + 1);
  }

  lemma UpdateStalls(p: nat, config: Config, s: State, i: nat)
    requires i < p && p + 2 < U32 && Stage(s, p, i) && config.stepsPerFrame >= 1 && config.budget == 0
    ensures var u := DoUpdate(StallingEnv(p), config, s);
            u.frame.steps == 1 && u.error.None? && Stage(u.s, p, i + 1)
  {
    var env := StallingEnv(p);
    var begun := Begin(s);
    var popped := Tick(Pop(begun));
    assert s.ring[0] == i;
    assert s.tasks[i] == READY;
    SpareOutside(p, i);
    assert InStep(popped, p, i * p);
    StepStalls(p, config, popped, i, Frame(0, 0, 0, false));
    var turn := RunOrDefer(env, popped, Frame(0, 0, 0, false), 0, i);
    hide RunOrDefer, InStep, Rotation, NotServed, Generation;
    assert TakeTurn(env, config, begun, Frame(0, 0, 0, false), 0, 0) == turn;
    hide TakeTurn;
    TurnEnds(env, config, begun, turn);
  }

  lemma TurnEnds(env: Env, config: Config, s: State, turn: Turn)
    requires s.remaining > 0 && s.ring != [] && s.ring[0] < |s.tasks| && config.stepsPerFrame >= 1
    requires TakeTurn(env, config, s, Frame(0, 0, 0, false), 0, 0) == turn && turn.stop == Next && turn.s.remaining == 0
    ensures Loop(env, config, s, Frame(0, 0, 0, false), 0, 0) == Turn(turn.s, turn.frame, turn.now, Break)
  {
    hide TakeTurn;
    assert Loop(env, config, turn.s, turn.frame, 0, turn.now) == Turn(turn.s, turn.frame, turn.now, Break);
  }

  lemma SpareOutside(p: nat, i: nat)
    requires i <= p
    ensures p + 1 !in Rotation(p, i) && p + 1 !in Rotation(p, i)[1..]
  {
  }

  // ------------------------------------------------------------------ whole runs

  function Repeated(call: Call, n: nat): seq<Call>
  {
    if n == 0 then [] else [call] + Repeated(call, n - 1)
  }

  lemma DriveRepeated(env: Env, config: Config, s: State, call: Call, n: nat)
    requires n > 0
    ensures Drive(env, config, s, Repeated(call, n)) == Drive(env, config, TopCall(env, config, s, call), Repeated(call, n - 1))
  {
    hide TopCall;
    var calls := Repeated(call, n);
    assert calls[0] == call && calls[1..] == Repeated(call, n - 1);
  }

  lemma DriveNothing(env: Env, config: Config, s: State, call: Call)
    ensures Drive(env, config, s, Repeated(call, 0)) == s
  {
  }

  lemma AfterUpdate(p: nat, config: Config, s: State, i: nat) returns (after: State)
    requires i < p && p + 2 < U32 && Stage(s, p, i) && config.stepsPerFrame >= 1 && config.budget == 0
    ensures after == TopCall(StallingEnv(p), config, s, Update) && Stage(after, p, i + 1)
  {
    UpdateStalls(p, config, s, i);
    hide DoUpdate, Stage;
    after := TopCall(StallingEnv(p), config, s, Update);
  }

  lemma {:induction false} UpdatesStall(p: nat, config: Config, s: State, i: nat, n: nat)
    requires i + n <= p && p + 2 < U32 && Stage(s, p, i) && config.stepsPerFrame >= 1 && config.budget == 0
    ensures Stage(Drive(StallingEnv(p), config, s, Repeated(Update, n)), p, i + n)
    decreases n
  {
    hide *;
    if n > 0 {
      var env := StallingEnv(p);
      var after := AfterUpdate(p, config, s, i);
      DriveRepeated(env, config, s, Update, n);
      UpdatesStall(p, config, after, i + 1, n - 1);
    } else {
      DriveNothing(StallingEnv(p), config, s, Update);
    }
  }

  /** `n` tasks are scheduled on a new scheduler with two slots more than `p`. */
  ghost predicate Filled(s: State, p: nat, n: nat)
  {
    && n <= p + 1 && |s.tasks| == p + 2
    && (forall j :: 0 <= j < |s.tasks| ==> s.tasks[j] == if j < n then READY else Slot(0, 0, 0, false, false))
    && |s.ring| == n && (forall k :: 0 <= k < n ==> s.ring[k] == k)
    && s.pending == n && !s.terminated && !s.updating && s.runs == 0 && NotServed(s.log, p)
  }

  lemma FillOne(p: nat, s: State, n: nat)
    requires Filled(s, p, n) && n <= p
    ensures Filled(NestedCall(StallingEnv(p), s, Schedule(STALLER)), p, n + 1)
  {
    var free := FirstFree(s.tasks, 0);
    assert !s.tasks[n].queued && (forall j :: 0 <= j < n ==> s.tasks[j].queued);
    assert free == n;
  }

  lemma TopSchedule(env: Env, config: Config, s: State, step: Step)
    ensures TopCall(env, config, s, Schedule(step)) == NestedCall(env, s, Schedule(step))
  {
    hide NestedCall;
  }

  lemma {:induction false} Fill(p: nat, config: Config, s: State, n: nat, more: nat)
    requires Filled(s, p, n) && n + more <= p + 1
    ensures Filled(Drive(StallingEnv(p), config, s, Repeated(Schedule(STALLER), more)), p, n + more)
    decreases more
  {
    hide *;
    if more > 0 {
      FillOne(p, s, n);
      DriveRepeated(StallingEnv(p), config, s, Schedule(STALLER), more);
      TopSchedule(StallingEnv(p), config, s, STALLER);
      Fill(p, config, NestedCall(StallingEnv(p), s, Schedule(STALLER)), n + 1, more - 1);
    } else {
      DriveNothing(StallingEnv(p), config, s, Schedule(STALLER));
    }
  }

  lemma FilledStage(p: nat, s: State)
    requires Filled(s, p, p + 1)
    ensures Stage(s, p, 0) && Idle(s) && Waits(s, p, READY, p)
  {
    assert s.ring == Rotation(p, 0);
    assert forall j :: 0 <= j <= p ==> s.ring[j] == j;
    forall j | 0 <= j <= p ensures j in s.ring {
      assert s.ring[j] == j;
    }
  }

  lemma StageWaits(p: nat, s: State, from: nat)
    requires Stage(s, p, p)
    ensures Waits(s, p, READY, 0) && !s.terminated && !Served(s.log, from, p, 1)
  {
  }

  /**
   * For every position `p` and every number of steps a frame allows there is
   * a run, from a new scheduler, in which a task that is ready all the time
   * waits at position `p` and is still unserved after `p` Updates.
   */
  lemma WaitIsTight(p: nat, stepsPerFrame: nat)
    requires 2 * p + 2 < U32 && stepsPerFrame >= 1
    ensures var env, config := StallingEnv(p), Config(p + 2, stepsPerFrame, 0);
            var s := Drive(env, config, InitialState(p + 2), Repeated(Schedule(STALLER), p + 1));
            var r := Drive(env, config, s, Repeated(Update, p));
            && Idle(s) && NoWrap(env) && ValidActions(env) && ValidConfig(config)
            && Waits(s, p, READY, p) && Ready(env, READY.due, s.ticks, r.ticks)
            && !Served(r.log, |s.log|, p, READY.generation) && !r.terminated && Waits(r, p, READY, 0)
  {
    var env, config := StallingEnv(p), Config(p + 2, stepsPerFrame, 0);
    assert Filled(InitialState(p + 2), p, 0);
    StallingConditions(p);
    hide *;
    Fill(p, config, InitialState(p + 2), 0, p + 1);
    var s := Drive(env, config, InitialState(p + 2), Repeated(Schedule(STALLER), p + 1));
    FilledStage(p, s);
    UpdatesStall(p, config, s, 0, p);
    var r := Drive(env, config, s, Repeated(Update, p));
    StageWaits(p, r, |s.log|);
    AlwaysReady(p, s.ticks, r.ticks);
    ConfigValid(config);
  }

  lemma StallingConditions(p: nat)
    requires 2 * p + 2 < U32
    ensures NoWrap(StallingEnv(p)) && ValidActions(StallingEnv(p))
  {
  }

  lemma AlwaysReady(p: nat, from: nat, until: nat)
    ensures Ready(StallingEnv(p), READY.due, from, until) && READY.generation == 1
  {
  }

  lemma ConfigValid(config: Config)
    requires config.capacity > 0 && config.stepsPerFrame > 0 && config.budget == 0
    ensures ValidConfig(config)
  {
  }
}
