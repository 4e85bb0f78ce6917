/**
 * Order within one update: the tasks it runs are a subsequence of the ring as
 * it was when the update began, whatever the steps schedule or cancel.
 */
module ScheduleOrder {
  import opened Common
  import opened ScheduleModel
  import opened ScheduleInvariant
  import opened ScheduleTally

  datatype Id = Id(index: nat, generation: uint32)

  ghost function Ids(tasks: seq<Slot>, ring: seq<nat>): (r: seq<Id>)
    ensures |r| == |ring|
  {
    seq(|ring|, k requires 0 <= k < |ring| => Id(ring[k], if ring[k] < |tasks| then tasks[ring[k]].generation else 0))
  }

  /** The tasks a log says were run, in order. */
  ghost function RanIds(log: seq<Event>): seq<Id>
  {
    if log == [] then [] else RanId(log[0]) + RanIds(log[1..])
  }

  ghost function RanId(event: Event): seq<Id>
  {
    match event
    case Ran(index, generation, _, _, _, _) => [Id(index, generation)]
    case _ => []
  }

  lemma {:induction false} RanIdsAppend(a: seq<Event>, b: seq<Event>)
    ensures RanIds(a + b) == RanIds(a) + RanIds(b)
  {
    hide RanId;
    if a == [] {
      assert a + b == b;
    } else {
      RanIdsAppend(a[1..], b);
      var whole := a + b;
      assert whole[0] == a[0] && whole[1..] == a[1..] + b;
      assert RanIds(whole) == RanId(whole[0]) + RanIds(whole[1..]);
    }
  }

  /** What was logged between two states of one run. */
  ghost function Since(before: State, after: State): seq<Event>
    requires before.log <= after.log
  {
    after.log[|before.log|..]
  }

  lemma SinceSplit(a: State, b: State, c: State)
    requires a.log <= b.log <= c.log
    ensures Since(a, c) == Since(a, b) + Since(b, c)
  {
  }

  // --------------------------------------------------- what calls do to a prefix

  /**
   * From `s` to `r` the entries still to be examined lose some, keep their
   * order and gain none, and `remaining` stays their number less the charges.
   */
  ghost predicate Kept(s: State, t: Tally, r: State, u: Tally)
  {
    && t.left <= |s.ring| && u.left <= t.left && u.left <= |r.ring|
    && Subseq(Ids(r.tasks, r.ring[..u.left]), Ids(s.tasks, s.ring[..t.left]))
    && (s.updating && Counted(s, t) ==> Counted(r, u))
  }

  lemma KeptTransitive(s: State, t: Tally, r: State, u: Tally, q: State, v: Tally)
    requires Kept(s, t, r, u) && Kept(r, u, q, v) && r.updating == s.updating
    ensures Kept(s, t, q, v)
  {
    SubseqTransitive(Ids(q.tasks, q.ring[..v.left]), Ids(r.tasks, r.ring[..u.left]), Ids(s.tasks, s.ring[..t.left]));
  }

  /** A prefix of the ring is untouched, with the generations of its slots. */
  ghost predicate SamePrefix(s: State, r: State, n: nat)
  {
    && n <= |s.ring| && n <= |r.ring| && r.ring[..n] == s.ring[..n] && |r.tasks| == |s.tasks|
    && forall x :: x in s.ring && x < |s.tasks| ==> r.tasks[x].generation == s.tasks[x].generation
  }

  lemma KeptPrefix(s: State, t: Tally, r: State, u: Tally)
    requires SamePrefix(s, r, t.left) && u.left == t.left
    requires s.updating && s.remaining == t.left - t.charged ==> r.remaining == u.left - u.charged
    ensures Kept(s, t, r, u)
  {
    var n := t.left;
    assert forall k :: 0 <= k < n ==> s.ring[k] in s.ring;
    assert Ids(r.tasks, r.ring[..n]) == Ids(s.tasks, s.ring[..n]);
    SubseqReflexive(Ids(s.tasks, s.ring[..n]));
  }

  lemma KeptSame(s: State, t: Tally, r: State)
    requires t.left <= |s.ring| && r.tasks == s.tasks && r.ring == s.ring && r.remaining == s.remaining
    ensures Kept(s, t, r, t)
  {
    KeptPrefix(s, t, r, t);
  }

  lemma EnqueueKept(s: State, hole: Option<nat>, step: Step, deadline: uint32, call: Call, t: Tally)
    requires Inv(s, hole) && t.left <= |s.ring|
    ensures Kept(s, t, Enqueue(s, step, deadline, call).0, t)
  {
    EnqueueInv(s, hole, step, deadline, call);
    KeptPrefix(s, t, Enqueue(s, step, deadline, call).0, t);
  }

  lemma IdsDelete(tasks: seq<Slot>, tasks': seq<Slot>, ring: seq<nat>, k: nat)
    requires k < |ring| && |tasks'| == |tasks|
    requires forall i :: 0 <= i < |tasks| ==> tasks'[i].generation == tasks[i].generation
    ensures Subseq(Ids(tasks', ring[..k] + ring[k + 1..]), Ids(tasks, ring))
  {
    var all := Ids(tasks, ring);
    assert Ids(tasks', ring[..k] + ring[k + 1..]) == all[..k] + all[k + 1..];
    SubseqDelete(all, k);
  }

  lemma CancelGenerations(s: State, index: nat)
    requires index < |s.tasks|
    ensures |CancelSlot(s, index).tasks| == |s.tasks|
    ensures forall i :: 0 <= i < |s.tasks| ==> CancelSlot(s, index).tasks[i].generation == s.tasks[i].generation
  {
  }

  /** Cancelling an entry still to be examined takes it from them, and from `remaining`. */
  lemma CancelFrontKept(s: State, hole: Option<nat>, t: Tally, k: nat)
    requires Inv(s, hole) && k < t.left <= |s.ring|
    ensures s.ring[k] < |s.tasks|
    ensures Kept(s, t, CancelSlot(s, s.ring[k]), t.(left := t.left - 1))
  {
    var index := s.ring[k];
    assert index in s.ring;
    var r := CancelSlot(s, index);
    CancelGenerations(s, index);
    WithoutAt(s.ring, k);
    hide Inv;
    assert r.ring[..t.left - 1] == s.ring[..t.left][..k] + s.ring[..t.left][k + 1..];
    IdsDelete(s.tasks, r.tasks, s.ring[..t.left], k);
  }

  /** Cancelling an entry behind them charges `remaining` all the same. */
  lemma CancelBackKept(s: State, hole: Option<nat>, t: Tally, k: nat)
    requires Inv(s, hole) && t.left <= k < |s.ring|
    ensures s.ring[k] < |s.tasks|
    ensures Kept(s, t, CancelSlot(s, s.ring[k]), t.(charged := t.charged + 1))
  {
    var index := s.ring[k];
    assert index in s.ring;
    var r := CancelSlot(s, index);
    CancelGenerations(s, index);
    WithoutAt(s.ring, k);
    hide Inv;
    assert r.ring[..t.left] == s.ring[..t.left];
    KeptPrefix(s, t, r, t.(charged := t.charged + 1));
  }

  lemma CancelOutsideKept(s: State, t: Tally, index: nat)
    requires t.left <= |s.ring| && index < |s.tasks| && index !in s.ring
    ensures Kept(s, t, CancelSlot(s, index), t)
  {
    CancelGenerations(s, index);
    WithoutAbsent(s.ring, index);
    KeptPrefix(s, t, CancelSlot(s, index), t);
  }

  /** Where a cancelled ring entry stands decides whether it is one of the first `n`. */
  lemma FrontPosition(s: State, hole: Option<nat>, n: nat, k: nat)
    requires Inv(s, hole) && n <= |s.ring| && k < |s.ring|
    ensures s.ring[k] in Front(s.ring, n) <==> k < n
  {
    if k < n {
      assert s.ring[..n][k] == s.ring[k];
    } else {
      forall j | 0 <= j < n ensures s.ring[..n][j] != s.ring[k] {
        assert s.ring[..n][j] == s.ring[j];
      }
    }
  }

  lemma CancelKept(s: State, hole: Option<nat>, task: Task, t: Tally)
    requires Inv(s, hole) && t.left <= |s.ring|
    ensures Kept(s, t, DoCancel(s, task).0, CancelTally(s, task, t))
  {
    match Identify(s.tasks, task)
    case None => KeptSame(s, t, s);
    case Some(index) =>
      hide Inv, Kept, CancelSlot;
      if index in s.ring {
        var k :| 0 <= k < |s.ring| && s.ring[k] == index;
        FrontPosition(s, hole, t.left, k);
        if k < t.left {
          CancelFrontKept(s, hole, t, k);
        } else {
          CancelBackKept(s, hole, t, k);
        }
      } else {
        CancelOutsideKept(s, t, index);
      }
  }

  lemma TerminateKept(s: State, t: Tally)
    requires t.left <= |s.ring|
    ensures Kept(s, t, DoTerminate(s), Tally(0, 0))
  {
    assert Ids(DoTerminate(s).tasks, DoTerminate(s).ring[..0]) == [];
    SubseqEmpty(Ids(s.tasks, s.ring[..t.left]));
  }

  lemma NestedCallKept(env: Env, s: State, hole: Option<nat>, call: Call, t: Tally)
    requires Inv(s, hole) && t.left <= |s.ring|
    ensures Kept(s, t, NestedCall(env, s, call), CallTally(s, call, t))
  {
    InvFrame(s, Tick(s), hole);
    KeptSame(s, t, s);
    KeptSame(s, t, Tick(s));
    hide Inv, Enqueue, DoTerminate, DoCancel, CancelTally;
    match call
    case Schedule(step) => TickedEnqueueKept(s, hole, step, Now(env, s), call, t);
    case ScheduleAfter(ms, step) => TickedEnqueueKept(s, hole, step, Add32(Now(env, s), ms), call, t);
    case ScheduleAt(deadline, step) => TickedEnqueueKept(s, hole, step, deadline, call, t);
    case Cancel(task) => CancelKept(s, hole, task, t);
    case Pending(_) =>
    case Update =>
    case Terminate => TerminateKept(s, t);
  }

  lemma TickedEnqueueKept(s: State, hole: Option<nat>, step: Step, deadline: uint32, call: Call, t: Tally)
    requires Inv(Tick(s), hole) && t.left <= |s.ring|
    ensures Kept(s, t, Enqueue(Tick(s), step, deadline, call).0, t)
  {
    KeptSame(s, t, Tick(s));
    EnqueueKept(Tick(s), hole, step, deadline, call, t);
    KeptTransitive(s, t, Tick(s), t, Enqueue(Tick(s), step, deadline, call).0, t);
  }

  /** A call logs at most one event: a task it cancelled or put into the queue. */
  lemma NestedCallLog(env: Env, s: State, call: Call) returns (since: seq<Event>)
    ensures since == Since(s, NestedCall(env, s, call))
    ensures since == [] || (since == [since[0]] && !since[0].Ran? && (since[0].Cancelled? ==> call.Cancel?))
  {
    since := Since(s, NestedCall(env, s, call));
  }

  /** Calls cancel tasks and schedule others, but run none. */
  lemma NestedCallRuns(env: Env, s: State, call: Call)
    ensures RanIds(Since(s, NestedCall(env, s, call))) == []
  {
    var since := NestedCallLog(env, s, call);
    if since != [] {
      assert RanIds(since) == RanId(since[0]) + RanIds(since[1..]);
    }
  }

  lemma {:induction false} RunCallsKept(env: Env, s: State, hole: Option<nat>, calls: seq<Call>, t: Tally)
    requires Inv(s, hole) && t.left <= |s.ring|
    ensures Kept(s, t, RunCalls(env, s, calls), CallsTally(env, s, calls, t))
    ensures RanIds(Since(s, RunCalls(env, s, calls))) == []
    decreases |calls|
  {
    if calls == [] {
      KeptSame(s, t, s);
    } else {
      hide Inv, Kept, NestedCall, CallTally, RanIds;
      var r := NestedCall(env, s, calls[0]);
      var q := RunCalls(env, r, calls[1..]);
      var u := CallTally(s, calls[0], t);
      NestedCallKept(env, s, hole, calls[0], t);
      NestedCallRuns(env, s, calls[0]);
      KeptBounds(s, t, r, u);
      var after := NestedCallInv(env, s, hole, calls[0]);
      RunCallsKept(env, r, after, calls[1..], u);
      KeptTransitive(s, t, r, u, q, CallsTally(env, r, calls[1..], u));
      SinceSplit(s, r, q);
      RanIdsAppend(Since(s, r), Since(r, q));
    }
  }

  lemma ApplyActionKept(env: Env, s: State, frame: Frame, now: uint32, index: nat, due: uint32, action: Action, t: Tally)
    requires Inv(s, Some(index)) && t.left <= |s.ring|
    ensures index < |s.tasks|
    ensures var turn := ApplyAction(env, s, frame, now, index, due, action);
            Kept(s, t, turn.s, t) && turn.s.log == s.log && turn.frame.steps == frame.steps
  {
    KeptPrefix(s, t, ApplyAction(env, s, frame, now, index, due, action).s, t);
  }

  lemma StartedKept(env: Env, s: State, index: nat, t: Tally)
    requires Inv(s, Some(index)) && t.left <= |s.ring|
    ensures index < |s.tasks|
    ensures Kept(s, t, Started(env, s, index), t) && Inv(Started(env, s, index), Some(index))
  {
    KeptSame(s, t, Started(env, s, index));
  }

  lemma KeptBounds(s: State, t: Tally, r: State, u: Tally)
    requires Kept(s, t, r, u)
    ensures u.left <= t.left <= |s.ring| && u.left <= |r.ring|
    ensures s.updating && s.remaining == t.left - t.charged ==> r.remaining == u.left - u.charged
  {
  }

  lemma AfterCallsKept(env: Env, s: State, index: nat, t: Tally)
    requires Inv(s, Some(index)) && t.left <= |s.ring|
    ensures index < |s.tasks|
    ensures var r := AfterCalls(env, s, index);
            Kept(s, t, r, RunTally(env, s, index, t)) && RanIds(Since(s, r)) == [Id(index, s.tasks[index].generation)]
  {
    StartedKept(env, s, index, t);
    hide Kept, Inv, RanIds;
    var started := Started(env, s, index);
    RunCallsKept(env, started, Some(index), Behave(env, s, index).calls, t);
    KeptTransitive(s, t, started, t, AfterCalls(env, s, index), RunTally(env, s, index, t));
    RanSince(s, started, AfterCalls(env, s, index), started.log[|s.log|]);
  }

  /** Running a task logs exactly that task and keeps the entries still to be examined. */
  lemma RunTaskKept(env: Env, s: State, frame: Frame, now: uint32, index: nat, t: Tally)
    requires Inv(s, Some(index)) && NoWrap(env) && t.left <= |s.ring|
    ensures index < |s.tasks|
    ensures var turn := RunTask(env, s, frame, now, index);
            && Kept(s, t, turn.s, RunTally(env, s, index, t))
            && RanIds(Since(s, turn.s)) == [Id(index, s.tasks[index].generation)]
            && turn.frame.steps == frame.steps + 1
  {
    AfterCallsKept(env, s, index, t);
    AfterCallsInv(env, s, index);
    var r := AfterCalls(env, s, index);
    var u := RunTally(env, s, index, t);
    KeptBounds(s, t, r, u);
    hide Kept, Inv, RanIds, AfterCalls, RunTally, ApplyAction;
    if r.tasks[index].queued && r.tasks[index].generation == s.tasks[index].generation {
      var counted := frame.(steps := frame.steps + 1);
      ApplyActionKept(env, r, counted, now, index, s.tasks[index].due, Behave(env, s, index).action, u);
      KeptTransitive(s, t, r, u, RunTask(env, s, frame, now, index).s, u);
    }
  }

  lemma RanSince(s: State, started: State, t: State, ran: Event)
    requires started.log == s.log + [ran] && started.log <= t.log
    requires RanIds(Since(started, t)) == []
    ensures RanIds(Since(s, t)) == RanId(ran)
  {
    assert Since(s, t) == [ran] + Since(started, t);
    RanIdsAppend([ran], Since(started, t));
    assert RanIds([ran]) == RanId(ran);
  }

  /**
   * What one turn means for the entries still to be examined: what it ran,
   * followed by what is left of them, is a subsequence of those entries, and
   * `remaining` is still their number less the charges.
   */
  ghost predicate Turned(s: State, frame: Frame, t: Tally, turn: Turn, u: Tally)
  {
    && t.left <= |s.ring| && s.log <= turn.s.log && Counted(turn.s, u)
    && turn.frame.steps == frame.steps + |RanIds(Since(s, turn.s))| <= frame.steps + 1
    && Subseq(RanIds(Since(s, turn.s)) + Ids(turn.s.tasks, turn.s.ring[..u.left]), Ids(s.tasks, s.ring[..t.left]))
  }

  /** The same for the turn's second half, which starts with `index` already popped. */
  ghost predicate TurnedPopped(s: State, frame: Frame, index: nat, t: Tally, turn: Turn, u: Tally)
  {
    && index < |s.tasks|
    && t.left <= |s.ring| && s.log <= turn.s.log && Counted(turn.s, u)
    && turn.frame.steps == frame.steps + |RanIds(Since(s, turn.s))| <= frame.steps + 1
    && Subseq(RanIds(Since(s, turn.s)) + Ids(turn.s.tasks, turn.s.ring[..u.left]),
              [Id(index, s.tasks[index].generation)] + Ids(s.tasks, s.ring[..t.left]))
  }

  lemma DeferTurned(s: State, frame: Frame, now: uint32, index: nat, t: Tally)
    requires index < |s.tasks| && Counted(s, t)
    ensures TurnedPopped(s, frame, index, t, Turn(s.(ring := s.ring + [index]), frame, now, Next), t)
  {
    var id := Id(index, s.tasks[index].generation);
    var rest := Ids(s.tasks, s.ring[..t.left]);
    var after := s.(ring := s.ring + [index]);
    assert after.ring[..t.left] == s.ring[..t.left];
    NothingRan(s, after, rest);
    SubseqReflexive(rest);
    assert ([id] + rest)[1..] == rest;
  }

  lemma RunOrDeferTurned(env: Env, s: State, frame: Frame, now: uint32, index: nat, t: Tally)
    requires Inv(s, Some(index)) && NoWrap(env) && s.updating && Counted(s, t)
    ensures index < |s.tasks|
    ensures TurnedPopped(s, frame, index, t, RunOrDefer(env, s, frame, now, index), RunOrDeferTally(env, s, now, index, t))
  {
    QueuedHole(s, index);
    var id := Id(index, s.tasks[index].generation);
    var turn := RunOrDefer(env, s, frame, now, index);
    if !Reached(now, s.tasks[index].due) {
      DeferTurned(s, frame, now, index, t);
    } else {
      hide RunTask, RunTally, Ids, RanIds, Inv;
      RunTaskKept(env, s, frame, now, index, t);
      HeadThenRest(s, t, turn.s, RunTally(env, s, index, t), id);
    }
  }

  lemma PoppedTurned(s: State, popped: State, frame: Frame, t: Tally, turn: Turn, u: Tally)
    requires 0 < t.left <= |s.ring| && s.ring[0] < |s.tasks|
    requires popped.tasks == s.tasks && popped.ring == s.ring[1..] && popped.log == s.log
    requires TurnedPopped(popped, frame, s.ring[0], PopTally(t), turn, u)
    ensures Turned(s, frame, t, turn, u)
  {
    PopIds(s, t.left);
    hide Subseq, Ids, RanIds;
    assert Since(popped, turn.s) == Since(s, turn.s);
  }

  lemma ExamineTurned(env: Env, config: Config, s: State, frame: Frame, now: uint32, t: Tally)
    requires Inv(s, None) && NoWrap(env) && 0 < s.remaining && Counted(s, t) && s.updating && s.ring[0] < |s.tasks|
    ensures Turned(s, frame, t, Examine(env, config, s, frame, now), ExamineTally(env, config, s, frame, now, t))
  {
    var index := s.ring[0];
    PopInv(s);
    var popped := Pop(s);
    QueuedHole(popped, index);
    InvFrame(popped, Tick(popped), Some(index));
    hide RunOrDefer, RunOrDeferTally, Inv, TurnedPopped, Turned;
    if ChecksBudget(config, frame) {
      RunOrDeferTurned(env, popped, frame, now, index, PopTally(t));
      PoppedTurned(s, popped, frame, t, RunOrDefer(env, popped, frame, now, index),
                   RunOrDeferTally(env, popped, now, index, PopTally(t)));
    } else {
      var read := Now(env, popped);
      RunOrDeferTurned(env, Tick(popped), frame, read, index, PopTally(t));
      PoppedTurned(s, Tick(popped), frame, t, RunOrDefer(env, Tick(popped), frame, read, index),
                   RunOrDeferTally(env, Tick(popped), read, index, PopTally(t)));
    }
  }

  lemma TakeTurnTurned(env: Env, config: Config, s: State, frame: Frame, start: uint32, now: uint32, t: Tally)
    requires Inv(s, None) && NoWrap(env) && 0 < s.remaining && Counted(s, t) && s.updating && s.ring[0] < |s.tasks|
    ensures Turned(s, frame, t, TakeTurn(env, config, s, frame, start, now), TurnTally(env, config, s, frame, start, now, t))
  {
    InvFrame(s, Tick(s), None);
    hide Examine, ExamineTally, Inv, Ids;
    if !ChecksBudget(config, frame) {
      ExamineTurned(env, config, s, frame, now, t);
    } else if Sub32(Now(env, s), start) >= config.budget {
      PopIds(s, t.left);
      NothingRan(s, Tick(s), Ids(s.tasks, s.ring[..t.left]));
    } else {
      ExamineTurned(env, config, Tick(s), frame, Now(env, s), t);
      assert Since(Tick(s), TakeTurn(env, config, s, frame, start, now).s)
          == Since(s, TakeTurn(env, config, s, frame, start, now).s);
    }
  }

  lemma PopIds(s: State, n: nat)
    requires 0 < n <= |s.ring| && s.ring[0] < |s.tasks|
    ensures var all := Ids(s.tasks, s.ring[..n]);
            var rest := Ids(s.tasks, s.ring[1..][..n - 1]);
            && all == [Id(s.ring[0], s.tasks[s.ring[0]].generation)] + rest
            && Subseq(all, all) && Subseq(rest, all)
  {
    assert s.ring[1..][..n - 1] == s.ring[..n][1..];
    SubseqReflexive(Ids(s.tasks, s.ring[..n]));
    SubseqReflexive(Ids(s.tasks, s.ring[1..][..n - 1]));
  }

  lemma NothingRan(s: State, t: State, left: seq<Id>)
    requires t.log == s.log
    ensures RanIds(Since(s, t)) + left == left
    ensures RanIds(Since(s, t)) == []
  {
    assert Since(s, t) == [];
  }

  lemma QueuedHole(s: State, index: nat)
    requires Inv(s, Some(index))
    ensures index < |s.tasks| && s.tasks[index].queued
  {
  }

  lemma HeadThenRest(s: State, t: Tally, r: State, u: Tally, id: Id)
    requires Kept(s, t, r, u)
    ensures u.left <= |r.ring| && (s.updating && Counted(s, t) ==> Counted(r, u))
    ensures Subseq([id] + Ids(r.tasks, r.ring[..u.left]), [id] + Ids(s.tasks, s.ring[..t.left]))
  {
    SubseqPrefix([id], Ids(r.tasks, r.ring[..u.left]), Ids(s.tasks, s.ring[..t.left]));
  }

  lemma {:induction false} SubseqPrefix<T>(p: seq<T>, a: seq<T>, b: seq<T>)
    requires Subseq(a, b)
    ensures Subseq(p + a, p + b)
  {
    if p == [] {
      assert p + a == a && p + b == b;
    } else {
      SubseqPrefix(p[1..], a, b);
      assert (p + a)[1..] == p[1..] + a && (p + b)[1..] == p[1..] + b;
    }
  }

  lemma SubseqCompose<T>(ran: seq<T>, later: seq<T>, left: seq<T>, all: seq<T>)
    requires Subseq(ran + left, all) && Subseq(later, left)
    ensures Subseq(ran + later, all)
  {
    SubseqPrefix(ran, later, left);
    SubseqTransitive(ran + later, ran + left, all);
  }

  /** What the loop ran, followed by what it left, is a subsequence of the entries it had to examine. */
  ghost predicate Ordered(s: State, t: Tally, turn: Turn, u: Tally)
  {
    && t.left <= |s.ring| && s.log <= turn.s.log && Counted(turn.s, u)
    && Subseq(RanIds(Since(s, turn.s)) + Ids(turn.s.tasks, turn.s.ring[..u.left]), Ids(s.tasks, s.ring[..t.left]))
  }

  lemma OrderedNothing(s: State, t: Tally, turn: Turn)
    requires Counted(s, t) && turn.s == s
    ensures Ordered(s, t, turn, t) && RanIds(Since(s, s)) == []
  {
    NothingRan(s, s, Ids(s.tasks, s.ring[..t.left]));
    SubseqReflexive(Ids(s.tasks, s.ring[..t.left]));
  }

  lemma OrderedAfterTurn(s: State, frame: Frame, t: Tally, turn: Turn, u: Tally, end: Turn, v: Tally)
    requires Turned(s, frame, t, turn, u) && Ordered(turn.s, u, end, v)
    ensures Ordered(s, t, end, v)
    ensures |RanIds(Since(s, end.s))| == |RanIds(Since(s, turn.s))| + |RanIds(Since(turn.s, end.s))|
  {
    hide Subseq, Ids, RanIds;
    var ran, later := RanIds(Since(s, turn.s)), RanIds(Since(turn.s, end.s));
    var rest := Ids(end.s.tasks, end.s.ring[..v.left]);
    SinceSplit(s, turn.s, end.s);
    RanIdsAppend(Since(s, turn.s), Since(turn.s, end.s));
    SubseqCompose(ran, later + rest, Ids(turn.s.tasks, turn.s.ring[..u.left]), Ids(s.tasks, s.ring[..t.left]));
    assert ran + (later + rest) == (ran + later) + rest;
  }

  lemma {:induction false} LoopOrder(env: Env, config: Config, s: State, frame: Frame, start: uint32, now: uint32, t: Tally)
    requires Inv(s, None) && NoWrap(env) && Counted(s, t) && s.updating
    requires frame.steps <= config.stepsPerFrame
    ensures var end := Loop(env, config, s, frame, start, now);
            && Ordered(s, t, end, LoopTally(env, config, s, frame, start, now, t))
            && end.frame.steps == frame.steps + |RanIds(Since(s, end.s))|
            && end.frame.steps <= config.stepsPerFrame
    decreases if s.remaining > 0 then s.remaining else 0
  {
    hide TakeTurn, TurnTally, Subseq, Ids, Inv;
    var end := Loop(env, config, s, frame, start, now);
    if s.remaining > 0 && frame.steps < config.stepsPerFrame {
      TakeTurnInv(env, config, s, frame, start, now);
      TakeTurnTurned(env, config, s, frame, start, now, t);
      var turn := TakeTurn(env, config, s, frame, start, now);
      var u := TurnTally(env, config, s, frame, start, now, t);
      hide Turned, Ordered, RanIds;
      TurnedMeans(s, frame, t, turn, u);
      if turn.stop == Next {
        LoopOrder(env, config, turn.s, turn.frame, start, turn.now, u);
        OrderedAfterTurn(s, frame, t, turn, u, end, LoopTally(env, config, s, frame, start, now, t));
      } else {
        OrderedNothing(turn.s, u, turn);
        OrderedAfterTurn(s, frame, t, turn, u, turn, u);
      }
    } else {
      OrderedNothing(s, t, end);
    }
  }

  lemma TurnedMeans(s: State, frame: Frame, t: Tally, turn: Turn, u: Tally)
    requires Turned(s, frame, t, turn, u)
    ensures Counted(turn.s, u) && s.log <= turn.s.log
    ensures turn.frame.steps == frame.steps + |RanIds(Since(s, turn.s))| <= frame.steps + 1
  {
  }

  lemma {:induction false} SubseqWithout<T>(a: seq<T>, b: seq<T>, c: seq<T>)
    requires Subseq(a + b, c)
    ensures Subseq(a, c)
  {
    SubseqEmpty(b);
    SubseqPrefix(a, [], b);
    assert a + [] == a;
    SubseqTransitive(a, a + b, c);
  }

  /**
   * One Update runs a subsequence of the tasks that were in the ring when it
   * began, in that order, so each at most once and none scheduled meanwhile,
   * and it never takes more than `stepsPerFrame` steps.  What it ran, followed
   * by the entries it left unexamined at the ring's front, is such a
   * subsequence too, and `remaining` ends as their number less the charges.
   */
  lemma UpdateOrder(env: Env, config: Config, s: State)
    requires Idle(s) && NoWrap(env) && ValidConfig(config)
    ensures var u := DoUpdate(env, config, s);
            && s.log <= u.s.log
            && var ran := RanIds(Since(s, u.s));
            && Subseq(ran, Ids(s.tasks, s.ring))
            && Distinct(ran)
            && u.frame.steps == |ran| <= config.stepsPerFrame
    ensures !s.terminated ==>
              var u, t := DoUpdate(env, config, s), UpdateTally(env, config, s);
              && Counted(u.s, t) && s.log <= u.s.log
              && Subseq(RanIds(Since(s, u.s)) + Ids(u.s.tasks, u.s.ring[..t.left]), Ids(s.tasks, s.ring))
  {
    var all := Ids(s.tasks, s.ring);
    var u := DoUpdate(env, config, s);
    if s.terminated {
      SubseqElements([], all);
      assert Since(s, s) == [];
    } else {
      assert s.ring[..|s.ring|] == s.ring;
      InvFrame(s, Begin(s), None);
      var t := UpdateTally(env, config, s);
      LoopOrder(env, config, Begin(s), Frame(0, 0, 0, false), Now(env, s), Now(env, s), Tally(|s.ring|, 0));
      hide Loop, LoopTally, RanIds;
      var ran := RanIds(Since(s, u.s));
      SubseqWithout(ran, Ids(u.s.tasks, u.s.ring[..t.left]), all);
      assert Distinct(all);
      SubseqElements(ran, all);
    }
  }
}
