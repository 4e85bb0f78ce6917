/**
 * The bookkeeping behind `remaining`: which ring entries an update still has
 * to examine, and how often it has charged `remaining` for another entry.
 */
module ScheduleTally {
  import opened Common
  import opened ScheduleModel

  /**
   * `left` entries of the ring's front were there when the update began and
   * are not examined yet.  `charged` counts the cancellations of entries
   * behind them: tasks this update has put back, or steps have added to it.
   */
  datatype Tally = Tally(left: nat, charged: nat)

  function Front(ring: seq<nat>, n: nat): (r: seq<nat>)
    ensures |r| <= n
  {
    if n <= |ring| then ring[..n] else ring
  }

  function CancelTally(s: State, task: Task, t: Tally): Tally
  {
    match Identify(s.tasks, task)
    case None => t
    case Some(index) =>
      if index in Front(s.ring, t.left) then t.(left := t.left - 1)
      else if index in s.ring then t.(charged := t.charged + 1)
      else t
  }

  function CallTally(s: State, call: Call, t: Tally): Tally
  {
    if call.Cancel? then CancelTally(s, call.task, t) else if call.Terminate? then Tally(0, 0) else t
  }

  function CallsTally(env: Env, s: State, calls: seq<Call>, t: Tally): Tally
    decreases |calls|
  {
    if calls == [] then t else CallsTally(env, NestedCall(env, s, calls[0]), calls[1..], CallTally(s, calls[0], t))
  }

  /** The popped entry is no longer to be examined. */
  function PopTally(t: Tally): Tally
  {
    if t.left > 0 then t.(left := t.left - 1) else t
  }

  function RunTally(env: Env, s: State, index: nat, t: Tally): Tally
    requires index < |s.tasks|
  {
    CallsTally(env, Started(env, s, index), Behave(env, s, index).calls, t)
  }

  function RunOrDeferTally(env: Env, s: State, now: uint32, index: nat, t: Tally): Tally
    requires index < |s.tasks|
  {
    if !Reached(now, s.tasks[index].due) then t else RunTally(env, s, index, t)
  }

  function ExamineTally(env: Env, config: Config, s: State, frame: Frame, now: uint32, t: Tally): Tally
    requires s.ring != [] && s.ring[0] < |s.tasks|
  {
    var popped := Pop(s);
    var index := s.ring[0];
    if !popped.tasks[index].queued then PopTally(t)
    else if ChecksBudget(config, frame) then RunOrDeferTally(env, popped, now, index, PopTally(t))
    else RunOrDeferTally(env, Tick(popped), Now(env, popped), index, PopTally(t))
  }

  function TurnTally(env: Env, config: Config, s: State, frame: Frame, start: uint32, now: uint32, t: Tally): Tally
    requires s.ring != [] && s.ring[0] < |s.tasks|
  {
    if !ChecksBudget(config, frame) then ExamineTally(env, config, s, frame, now, t)
    else if Sub32(Now(env, s), start) >= config.budget then t
    else ExamineTally(env, config, Tick(s), frame, Now(env, s), t)
  }

  /** The tally when the loop of Update ends. */
  function LoopTally(env: Env, config: Config, s: State, frame: Frame, start: uint32, now: uint32, t: Tally): Tally
    decreases if s.remaining > 0 then s.remaining else 0
  {
    if s.remaining <= 0 || frame.steps >= config.stepsPerFrame || s.ring == [] || s.ring[0] >= |s.tasks| then t
    else
      var turn := TakeTurn(env, config, s, frame, start, now);
      var u := TurnTally(env, config, s, frame, start, now, t);
      if turn.stop == Next then LoopTally(env, config, turn.s, turn.frame, start, turn.now, u) else u
  }

  /** The tally at the end of an update that starts from an idle scheduler. */
  function UpdateTally(env: Env, config: Config, s: State): Tally
  {
    LoopTally(env, config, Begin(s), Frame(0, 0, 0, false), Now(env, s), Now(env, s), Tally(|s.ring|, 0))
  }

  /** `remaining` counts the entries still to be examined, less the charges. */
  ghost predicate Counted(s: State, t: Tally)
  {
    t.left <= |s.ring| && s.remaining == t.left - t.charged
  }
}
