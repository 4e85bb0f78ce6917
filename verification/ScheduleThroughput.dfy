/**
 * The sharper wait bound: without a time budget and without invalid delays,
 * and as long as no update stops short, each Update serves `stepsPerFrame`
 * tasks ahead.  An update stops short only when steps cancel entries that
 * this frame has already put back, or that a step has just added, often
 * enough: Cancel charges `remaining` for both.
 */
module ScheduleThroughput {
  import opened Common
  import opened ScheduleModel
  import opened ScheduleInvariant
  import opened ScheduleTally
  import opened ScheduleOrder
  import opened ScheduleWait
  import opened ScheduleShort

  /** The update stops with steps to spare before entries it should examine. */
  ghost predicate StopsShort(env: Env, config: Config, s: State)
  {
    var t := UpdateTally(env, config, s);
    0 < t.left <= t.charged && DoUpdate(env, config, s).frame.steps < config.stepsPerFrame
  }

  /** No Update of the run stops short. */
  ghost predicate NeverShort(env: Env, config: Config, s: State, calls: seq<Call>)
    decreases |calls|
  {
    calls == [] ||
    ((calls[0] == Update && !s.terminated ==> !StopsShort(env, config, s))
     && NeverShort(env, config, TopCall(env, config, s, calls[0]), calls[1..]))
  }

  /** In no Update of the run does a step cancel an entry that the same frame has put back or added. */
  ghost predicate NoLateCancels(env: Env, config: Config, s: State, calls: seq<Call>)
    decreases |calls|
  {
    calls == [] ||
    ((calls[0] == Update && !s.terminated ==> UpdateTally(env, config, s).charged == 0)
     && NoLateCancels(env, config, TopCall(env, config, s, calls[0]), calls[1..]))
  }

  /** Late cancellations are the only reason to stop short. */
  lemma {:induction false} NoLateCancelsNeverShort(env: Env, config: Config, s: State, calls: seq<Call>)
    requires NoLateCancels(env, config, s, calls)
    ensures NeverShort(env, config, s, calls)
    decreases |calls|
  {
    if calls != [] {
      hide TopCall, UpdateTally, DoUpdate;
      NoLateCancelsNeverShort(env, config, TopCall(env, config, s, calls[0]), calls[1..]);
    }
  }

  /** Served since `from`, or still waiting at `q`. */
  ghost predicate Gains(r: State, from: nat, x: nat, slot: Slot, q: int)
  {
    Served(r.log, from, x, slot.generation) || r.terminated || Waits(r, x, slot, q)
  }

  /** An update that does not stop short brings a ready task `stepsPerFrame` places forward. */
  lemma UpdatePrompt(env: Env, config: Config, s: State, x: nat, slot: Slot, p: int) returns (q: int)
    requires Idle(s) && NoWrap(env) && ValidActions(env) && ValidConfig(config) && config.budget == 0 && Waits(s, x, slot, p)
    requires Ready(env, slot.due, s.ticks, DoUpdate(env, config, s).s.ticks)
    requires !StopsShort(env, config, s)
    ensures q <= p - config.stepsPerFrame && Gains(DoUpdate(env, config, s).s, |s.log|, x, slot, q)
  {
    NotTerminated(s, x, slot, p);
    q := UpdateAhead(env, config, s, x, slot, p);
    if DoUpdate(env, config, s).s.terminated || Served(DoUpdate(env, config, s).s.log, |s.log|, x, slot.generation) {
      q := p - config.stepsPerFrame;
    } else {
      SpareMeansCharged(env, config, s);
      hide DoUpdate, UpdateTally, LoopSteps, Served, Inv;
    }
  }

  lemma TopCallPrompt(env: Env, config: Config, s: State, call: Call, x: nat, slot: Slot, p: int) returns (q: int)
    requires Idle(s) && NoWrap(env) && ValidActions(env) && ValidConfig(config) && config.budget == 0 && Waits(s, x, slot, p)
    requires Ready(env, slot.due, s.ticks, TopCall(env, config, s, call).ticks)
    requires call == Update ==> !StopsShort(env, config, s)
    ensures q <= p && (call == Update ==> q <= p - config.stepsPerFrame)
    ensures Gains(TopCall(env, config, s, call), |s.log|, x, slot, q)
  {
    hide DoUpdate, NestedCall, Served, Waits, StopsShort;
    if call == Update {
      q := UpdatePrompt(env, config, s, x, slot, p);
    } else {
      q := NestedCallWaits(env, s, None, call, x, slot, p);
    }
  }

  lemma NeverShortHead(env: Env, config: Config, s: State, calls: seq<Call>)
    requires NeverShort(env, config, s, calls) && calls != []
    ensures calls[0] == Update && !s.terminated ==> !StopsShort(env, config, s)
    ensures NeverShort(env, config, TopCall(env, config, s, calls[0]), calls[1..])
  {
    hide TopCall, StopsShort;
  }

  /** The places that the remaining Updates are worth. */
  lemma UpdatesHead(calls: seq<Call>, k: int)
    ensures calls == [] ==> Updates(calls) * k == 0
    ensures calls != [] ==> Updates(calls) * k == Updates(calls[1..]) * k + if calls[0] == Update then k else 0
  {
    if calls != [] && calls[0] == Update {
      assert (Updates(calls[1..]) + 1) * k == Updates(calls[1..]) * k + k;
    }
  }

  lemma PositionNatural(s: State, x: nat, slot: Slot, p: int)
    requires Waits(s, x, slot, p)
    ensures p >= 0
  {
  }

  lemma {:induction false} PromptWaitScaled(env: Env, config: Config, s: State, calls: seq<Call>, x: nat, slot: Slot, p: int)
    requires Idle(s) && NoWrap(env) && ValidActions(env) && ValidConfig(config) && config.budget == 0 && Waits(s, x, slot, p)
    requires Ready(env, slot.due, s.ticks, Drive(env, config, s, calls).ticks) && NeverShort(env, config, s, calls)
    requires p < Updates(calls) * config.stepsPerFrame
    ensures var r := Drive(env, config, s, calls);
            s.log <= r.log && (Served(r.log, |s.log|, x, slot.generation) || r.terminated)
    decreases |calls|
  {
    PositionNatural(s, x, slot, p);
    NotTerminated(s, x, slot, p);
    UpdatesHead(calls, config.stepsPerFrame);
    NeverShortHead(env, config, s, calls);
    hide Served, TopCall, Idle, ValidActions, StopsShort, NeverShort, Updates;
    var r := TopCall(env, config, s, calls[0]);
    var t := Drive(env, config, s, calls);
    DriveMonotone(env, config, s, [calls[0]]);
    assert Drive(env, config, s, [calls[0]]) == Drive(env, config, r, []);
    DriveMonotone(env, config, r, calls[1..]);
    var q := TopCallPrompt(env, config, s, calls[0], x, slot, p);
    TopCallInv(env, config, s, calls[0]);
    if Served(r.log, |s.log|, x, slot.generation) {
      ServedExtends(r.log, |s.log|, t.log, |s.log|, x, slot.generation);
    } else if !r.terminated {
      PromptWaitScaled(env, config, r, calls[1..], x, slot, q);
      if Served(t.log, |r.log|, x, slot.generation) {
        ServedExtends(t.log, |r.log|, t.log, |s.log|, x, slot.generation);
      }
    }
  }

  /**
   * Prompt wait: without a time budget and invalid delays, and when no Update
   * stops short, a ready task at position `p` runs or is cancelled within
   * p / stepsPerFrame + 1 Update calls, or everything is terminated.
   */
  lemma PromptWait(env: Env, config: Config, s: State, calls: seq<Call>, x: nat, slot: Slot, p: int)
    requires Idle(s) && NoWrap(env) && ValidActions(env) && ValidConfig(config) && config.budget == 0 && Waits(s, x, slot, p)
    requires Ready(env, slot.due, s.ticks, Drive(env, config, s, calls).ticks) && NeverShort(env, config, s, calls)
    requires Updates(calls) > p / config.stepsPerFrame
    ensures var r := Drive(env, config, s, calls);
            s.log <= r.log && (Served(r.log, |s.log|, x, slot.generation) || r.terminated)
  {
    ScaleUp(p, config.stepsPerFrame, Updates(calls));
    PromptWaitScaled(env, config, s, calls, x, slot, p);
  }

  lemma ScaleUp(p: int, k: int, updates: nat)
    requires p >= 0 && k > 0 && updates > p / k
    ensures p < updates * k
  {
    var d := p / k;
    assert p < (d + 1) * k;
    assert updates * k == (d + 1) * k + (updates - d - 1) * k;
  }

  // ------------------------------------------ stopping short by a task put back

  const YIELDER: Step := 1
  const CANCELLER: Step := 2
  const WAITER: Step := 3

  /** The second step cancels the first task, which has already run and been put back. */
  function CancellingEnv(): Env
  {
    Env((n: nat) => 0 as uint32,
        (step: Step, n: nat) =>
          if step == CANCELLER then Behaviour([Cancel(MakeTask(0, 1))], Yield) else Behaviour([], Yield))
  }

  function ThreeReady(): State
  {
    State(SLOTS, [0, 1, 2], 3, false, false, 0, 3, 0, QUEUED)
  }

  const ROOMY: Config := Config(3, 10, 0)
  const SLOTS: seq<Slot> :=
    [Slot(YIELDER, 0, 1, true, false), Slot(CANCELLER, 0, 1, true, false), Slot(WAITER, 0, 1, true, false)]

  const QUEUED: seq<Event> :=
    [Scheduled(0, 1, Schedule(YIELDER), 1), Scheduled(1, 1, Schedule(CANCELLER), 2), Scheduled(2, 1, Schedule(WAITER), 3)]

  const FIRST_RUN: Event := Ran(0, 1, 0, Yield, 5, 5)
  const SECOND_RUN: Event := Ran(1, 1, 0, Yield, 6, 6)

  function AfterFirst(): State
  {
    State(SLOTS, [1, 2, 0], 3, false, true, 2, 5, 1, QUEUED + [FIRST_RUN])
  }

  function AfterSecond(): State
  {
    State([Slot(0, 0, 1, false, false), SLOTS[1], SLOTS[2]], [2, 1], 2, false, true, 0, 6, 2,
          QUEUED + [FIRST_RUN] + [SECOND_RUN] + [Cancelled(0, 1)])
  }

  lemma FirstTurn()
    ensures TakeTurn(CancellingEnv(), ROOMY, Begin(ThreeReady()), Frame(0, 0, 0, false), 0, 0)
         == Turn(AfterFirst(), Frame(1, 0, 0, false), 0, Next)
  {
    var popped := Tick(Pop(Begin(ThreeReady())));
    assert Started(CancellingEnv(), popped, 0).log == QUEUED + [FIRST_RUN];
    assert AfterCalls(CancellingEnv(), popped, 0) == Started(CancellingEnv(), popped, 0);
    assert popped.ring + [0] == [1, 2, 0];
  }

  /** The first entry is taken, and the clock is read, as no time budget is set. */
  function SecondPopped(): State
  {
    State(SLOTS, [2, 0], 3, false, true, 1, 6, 1, QUEUED + [FIRST_RUN])
  }

  lemma SecondTurn()
    ensures TakeTurn(CancellingEnv(), ROOMY, AfterFirst(), Frame(1, 0, 0, false), 0, 0)
         == Turn(AfterSecond(), Frame(2, 0, 0, false), 0, Next)
  {
    assert AfterFirst().ring[1..] == [2, 0];
    assert Tick(Pop(AfterFirst())) == SecondPopped();
    SecondRuns();
    hide RunTask;
  }

  lemma SecondRuns()
    ensures RunTask(CancellingEnv(), SecondPopped(), Frame(1, 0, 0, false), 0, 1)
         == Turn(AfterSecond(), Frame(2, 0, 0, false), 0, Next)
  {
    SecondCalls();
    var t := AfterCalls(CancellingEnv(), SecondPopped(), 1);
    hide AfterCalls;
    assert t.ring + [1] == [2, 1];
    assert t.tasks[1 := SLOTS[1]] == t.tasks;
  }

  lemma SecondCalls()
    ensures AfterCalls(CancellingEnv(), SecondPopped(), 1) == AfterSecond().(ring := [2])
  {
    var started := Started(CancellingEnv(), SecondPopped(), 1);
    SecondStepCancels(started);
    hide NestedCall;
    assert Behave(CancellingEnv(), SecondPopped(), 1).calls[1..] == [];
    assert AfterCalls(CancellingEnv(), SecondPopped(), 1) == NestedCall(CancellingEnv(), started, Cancel(MakeTask(0, 1)));
  }

  lemma SecondStepCancels(s: State)
    requires s.tasks == SLOTS && s.ring == [2, 0] && s.updating
    ensures NestedCall(CancellingEnv(), s, Cancel(MakeTask(0, 1)))
         == s.(tasks := [Slot(0, 0, 1, false, false), SLOTS[1], SLOTS[2]], ring := [2], pending := s.pending - 1,
               remaining := s.remaining - 1, log := s.log + [Cancelled(0, 1)])
  {
    assert Identify(s.tasks, MakeTask(0, 1)) == Some(0);
    assert s.ring[1] == 0;
    assert s.ring[1..] == [0] && Without([0], 0) == [];
  }

  const THREE_CALLS: seq<Call> := [Schedule(YIELDER), Schedule(CANCELLER), Schedule(WAITER)]

  /** Three calls to Schedule on a new scheduler make the three tasks wait. */
  lemma ThreeReadyReached()
    ensures Drive(CancellingEnv(), ROOMY, InitialState(3), THREE_CALLS) == ThreeReady()
  {
    var free := Slot(0, 0, 0, false, false);
    var none := InitialState(3);
    assert none.tasks == [free, free, free];
    var one := State([SLOTS[0], free, free], [0], 1, false, false, 0, 1, 0, QUEUED[..1]);
    var two := State([SLOTS[0], SLOTS[1], free], [0, 1], 2, false, false, 0, 2, 0, QUEUED[..2]);
    ScheduledAt(none, YIELDER, 0, one);
    ScheduledAt(one, CANCELLER, 1, two);
    ScheduledAt(two, WAITER, 2, ThreeReady());
    hide NestedCall;
    assert THREE_CALLS[1..] == [Schedule(CANCELLER), Schedule(WAITER)];
    assert THREE_CALLS[1..][1..] == [Schedule(WAITER)];
    assert Drive(CancellingEnv(), ROOMY, two, [Schedule(WAITER)]) == Drive(CancellingEnv(), ROOMY, ThreeReady(), []);
  }

  lemma ScheduledAt(s: State, step: Step, index: nat, r: State)
    requires !s.terminated && step != 0 && s.pending == index < |s.tasks| && |s.tasks| == 3
    requires forall i :: 0 <= i < |s.tasks| ==> (s.tasks[i].queued <==> i < index)
    requires s.tasks[index].generation == 0
    requires r == s.(tasks := s.tasks[index := Slot(step, 0, 1, true, false)], ring := s.ring + [index],
                     pending := s.pending + 1, ticks := s.ticks + 1,
                     log := s.log + [Scheduled(index, 1, Schedule(step), s.ticks + 1)])
    ensures NestedCall(CancellingEnv(), s, Schedule(step)) == r
  {
    assert FirstFree(s.tasks, 0) == index;
  }

  /**
   * With room for ten steps a frame the third task should run in the first
   * Update; the second step cancels the first task, which this frame has
   * already put back, and the update stops before the third is examined.
   */
  lemma CancelDelaysOthers()
    ensures var s := Drive(CancellingEnv(), ROOMY, InitialState(3), THREE_CALLS);
            var u := DoUpdate(CancellingEnv(), ROOMY, s);
            && Idle(s) && Waits(s, 2, SLOTS[2], 2)
            && u.frame.steps == 2 && u.error.None?
            && !Served(u.s.log, |s.log|, 2, 1) && Waits(u.s, 2, SLOTS[2], 0)
            && StopsShort(CancellingEnv(), ROOMY, s)
    ensures ValidConfig(ROOMY) && NoWrap(CancellingEnv()) && ValidActions(CancellingEnv())
  {
    ThreeReadyReached();
    FirstFrame();
    ThreeReadyWaits();
    ThirdUnserved();
    hide *;
    FinalState();
  }

  lemma FinalState()
    ensures Waits(AFTER_FRAME.s, 2, SLOTS[2], 0) && AFTER_FRAME.frame.steps == 2 && AFTER_FRAME.error.None?
    ensures ThreeReady().log == QUEUED && |QUEUED| == 3
  {
  }

  lemma ThreeReadyWaits()
    ensures Idle(ThreeReady()) && Waits(ThreeReady(), 2, SLOTS[2], 2)
    ensures ValidConfig(ROOMY) && NoWrap(CancellingEnv()) && ValidActions(CancellingEnv())
  {
  }

  const AFTER_FRAME: UpdateResult := UpdateResult(AfterSecond().(updating := false), Frame(2, 0, 2, false), None)

  lemma FirstFrame()
    ensures DoUpdate(CancellingEnv(), ROOMY, ThreeReady()) == AFTER_FRAME
  {
    FirstTurn();
    SecondTurn();
    hide TakeTurn;
    var begun := Begin(ThreeReady());
    assert Loop(CancellingEnv(), ROOMY, AfterFirst(), Frame(1, 0, 0, false), 0, 0)
        == Turn(AfterSecond(), Frame(2, 0, 0, false), 0, Break);
    assert Loop(CancellingEnv(), ROOMY, begun, Frame(0, 0, 0, false), 0, 0)
        == Turn(AfterSecond(), Frame(2, 0, 0, false), 0, Break);
  }

  lemma NeverServed()
    ensures !Served(AFTER_FRAME.s.log, 3, 2, 1)
  {
  }

  lemma ThirdUnserved()
    ensures !Served(AFTER_FRAME.s.log, 3, 2, 1) && StopsShort(CancellingEnv(), ROOMY, ThreeReady())
  {
    NeverServed();
    FirstFrame();
    ThreeReadyWaits();
    assert Ready(CancellingEnv(), 0, 3, 6);
    hide Served, DoUpdate, UpdateTally, Idle, NoWrap, ValidActions, Waits, Ready;
    UnservedMeansCharged(CancellingEnv(), ROOMY, ThreeReady(), 2, SLOTS[2], 2);
  }
}
