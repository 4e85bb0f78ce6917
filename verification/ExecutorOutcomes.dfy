/**
 * Where every stored result comes from: it is what the pair's pass returned,
 * or there was no pass and the result says why.
 */
module ExecutorOutcomes {
  import opened Common
  import opened ExecutorModel
  import opened ExecutorSafety

  ghost predicate Ran(s: State, k: Key)
  {
    exists i :: 0 <= i < |s.passes| && s.passes[i].key == k
  }

  ghost predicate Returned(s: State, k: Key, r: PassResult)
  {
    exists i :: 0 <= i < |s.passes| && s.passes[i].key == k && s.passes[i].out == r
  }

  /** The dependencies before this one have succeeded and it has failed. */
  ghost predicate FailedAt(p: Program, s: State, k: Key, d: nat)
  {
    && d < |p.Deps(k)| && (forall i :: 0 <= i < d ==> Succeeds(s, p.Deps(k)[i]))
    && IsDone(s.table, p.Deps(k)[d]) && s.table[p.Deps(k)[d]].result.error.Some?
  }

  ghost predicate Succeeds(s: State, k: Key)
  {
    IsDone(s.table, k) && s.table[k].result.error.None?
  }

  /** The package does not type-check and the analyzer does not want to see it then. */
  ghost predicate Unfit(p: Program, k: Key)
  {
    p.illTyped(k.pkg) && !p.runsDespiteErrors(k.analyzer)
  }

  /** The result of a pair whose pass does not run. */
  ghost predicate Excused(p: Program, s: State, k: Key, r: PassResult)
  {
    || (s.cancelled && r == PassResult(0, Some(Cancelled)))
    || (exists d: nat :: FailedAt(p, s, k, d) && r == PassResult(0, Some(DependencyFailed(p.Deps(k)[d]))))
    || (Unfit(p, k) && (forall d :: 0 <= d < |p.Deps(k)| ==> Succeeds(s, p.Deps(k)[d])) && r == PassResult(0, None))
  }

  ghost predicate Justified(p: Program, s: State, k: Key, r: PassResult)
  {
    if Ran(s, k) then Returned(s, k, r) else Excused(p, s, k, r)
  }

  ghost predicate StackJustified(p: Program, s: State, stack: seq<Frame>)
  {
    forall j :: 0 <= j < |stack| ==> FrameJustified(p, s, stack[j])
  }

  ghost predicate FrameJustified(p: Program, s: State, f: Frame)
  {
    && (f.phase.Finishing? ==> Justified(p, s, f.key, f.phase.result))
    && (f.phase.Passing? ==> !Unfit(p, f.key))
  }

  ghost predicate Outcomes(p: Program, s: State)
  {
    && (forall k :: IsDone(s.table, k) ==> Justified(p, s, k, s.table[k].result))
    && (forall t :: 0 <= t < |s.threads| ==> StackJustified(p, s, s.threads[t]))
    && (forall i :: 0 <= i < |s.passes| ==> !Unfit(p, s.passes[i].key))
  }

  // ---------------------------------------------------------------- stability

  /** What a step does to the things a justification is about. */
  ghost predicate Later(s: State, n: State)
  {
    && Grows(s.table, n.table) && (s.cancelled ==> n.cancelled)
    && (n.passes == s.passes || (|n.passes| == |s.passes| + 1 && n.passes[..|s.passes|] == s.passes))
  }

  /** A justification stays one unless the step runs the pair's pass. */
  lemma JustifiedStable(p: Program, s: State, n: State, k: Key, r: PassResult)
    requires Justified(p, s, k, r) && Later(s, n)
    requires n.passes == s.passes || n.passes[|s.passes|].key != k
    ensures Justified(p, n, k, r)
  {
    assert forall i :: 0 <= i < |s.passes| ==> n.passes[i] == s.passes[i];
    if Ran(s, k) {
      var i :| 0 <= i < |s.passes| && s.passes[i].key == k && s.passes[i].out == r;
      assert n.passes[i].key == k && n.passes[i].out == r;
    } else {
      assert !Ran(n, k);
      hide Ran, Returned;
      ExcusedStable(p, s, n, k, r);
    }
  }

  lemma ExcusedStable(p: Program, s: State, n: State, k: Key, r: PassResult)
    requires Excused(p, s, k, r) && Later(s, n)
    ensures Excused(p, n, k, r)
  {
    if exists d: nat :: FailedAt(p, s, k, d) && r == PassResult(0, Some(DependencyFailed(p.Deps(k)[d]))) {
      var d: nat :| FailedAt(p, s, k, d) && r == PassResult(0, Some(DependencyFailed(p.Deps(k)[d])));
      assert FailedAt(p, n, k, d);
    }
  }

  /** No publishing frame of the stack is for this key. */
  ghost predicate NotOwned(stack: seq<Frame>, k: Key)
  {
    forall j :: 0 <= j < |stack| && stack[j].phase.Finishing? ==> stack[j].key != k
  }

  lemma StackJustifiedStable(p: Program, s: State, n: State, stack: seq<Frame>)
    requires StackJustified(p, s, stack) && Later(s, n)
    requires n.passes == s.passes || NotOwned(stack, n.passes[|s.passes|].key)
    ensures StackJustified(p, n, stack)
  {
    hide Justified, Later;
    forall j | 0 <= j < |stack| ensures FrameJustified(p, n, stack[j]) {
      assert FrameJustified(p, s, stack[j]);
      if stack[j].phase.Finishing? {
        LaterPasses(s, n);
        JustifiedStable(p, s, n, stack[j].key, stack[j].phase.result);
      }
    }
  }

  lemma LaterPasses(s: State, n: State)
    requires Later(s, n)
    ensures |n.passes| >= |s.passes| && (n.passes == s.passes || |n.passes| > |s.passes|)
  {
  }

  /** A key whose owner is not yet publishing has no recorded pass. */
  lemma NotYetRan(p: Program, s: State, t: nat, j: nat)
    requires PassesOk(p, s) && t < |s.threads| && j < |s.threads[t]| && !s.threads[t][j].phase.Finishing?
    requires OwnedAt(s.table, s.threads[t][j].key, t, j)
    ensures !Ran(s, s.threads[t][j].key)
  {
    forall i | 0 <= i < |s.passes| ensures s.passes[i].key != s.threads[t][j].key {
      assert PassOver(s.threads, s.table, s.passes[i].key);
    }
  }

  /** A publishing frame owns its key, so no other frame publishes it. */
  lemma OthersNotOwned(p: Program, s: State, t: nat, u: nat, stack: seq<Frame>)
    requires t < |s.threads| && s.threads[t] != [] && StackOk(p, s.table, u, stack)
    requires OwnedAt(s.table, Top(s.threads[t]).key, t, |s.threads[t]| - 1)
    requires u != t || |stack| < |s.threads[t]|
    ensures NotOwned(stack, Top(s.threads[t]).key)
  {
    forall j | 0 <= j < |stack| && stack[j].phase.Finishing? ensures stack[j].key != Top(s.threads[t]).key {
      assert FrameOk(p, s.table, u, j, stack[j]);
    }
  }

  // ------------------------------------------------------------- any one step

  /** The moving goroutine's new stack and newly stored result are justified: so is everything. */
  lemma StepOutcomes(p: Program, s: State, n: State, t: nat)
    requires Outcomes(p, s) && StacksOk(p, s) && t < |s.threads| && s.threads[t] != []
    requires |n.threads| == |s.threads| && n.threads == s.threads[t := n.threads[t]] && Later(s, n) && StackJustified(p, n, n.threads[t])
    requires forall k :: IsDone(n.table, k) && !IsDone(s.table, k) ==> Justified(p, n, k, n.table[k].result)
    requires n.passes == s.passes ||
      (var k := Top(s.threads[t]).key; n.passes[|s.passes|].key == k && OwnedAt(s.table, k, t, |s.threads[t]| - 1) && !Unfit(p, k))
    ensures Outcomes(p, n)
  {
    LaterPasses(s, n);
    forall k | IsDone(n.table, k) ensures Justified(p, n, k, n.table[k].result) {
      if IsDone(s.table, k) {
        assert n.table[k] == s.table[k];
        hide Justified;
        JustifiedStable(p, s, n, k, s.table[k].result);
      }
    }
    forall u | 0 <= u < |n.threads| ensures StackJustified(p, n, n.threads[u]) {
      if u != t {
        assert StackOk(p, s.table, u, s.threads[u]) && StackJustified(p, s, s.threads[u]);
        hide Justified, StackOk, StackJustified, Later;
        if n.passes != s.passes {
          OthersNotOwned(p, s, t, u, s.threads[u]);
        }
        StackJustifiedStable(p, s, n, s.threads[u]);
      }
    }
  }

  /** A new top phase, with nothing else changed for the other frames. */
  lemma TopJustified(p: Program, s: State, n: State, t: nat, phase: Phase)
    requires t < |s.threads| && s.threads[t] != [] && StackOk(p, s.table, t, s.threads[t]) && StackJustified(p, s, s.threads[t])
    requires Later(s, n) && FrameJustified(p, n, Frame(Top(s.threads[t]).key, phase))
    requires n.passes == s.passes ||
      (n.passes[|s.passes|].key == Top(s.threads[t]).key && OwnedAt(s.table, Top(s.threads[t]).key, t, |s.threads[t]| - 1))
    ensures StackJustified(p, n, Rephase(s.threads[t], phase))
  {
    var stack := s.threads[t];
    var below := Pop(stack);
    BelowOk(p, s, t);
    LaterPasses(s, n);
    hide Justified, StackOk, Later;
    if n.passes != s.passes {
      OthersNotOwned(p, s, t, t, below);
    }
    StackJustifiedStable(p, s, n, below);
    var next := Rephase(stack, phase);
    forall j | 0 <= j < |next| ensures FrameJustified(p, n, next[j]) {
      if j < |below| {
        assert next[j] == below[j];
      }
    }
  }

  lemma BelowOk(p: Program, s: State, t: nat)
    requires t < |s.threads| && s.threads[t] != [] && StackOk(p, s.table, t, s.threads[t]) && StackJustified(p, s, s.threads[t])
    ensures StackOk(p, s.table, t, Pop(s.threads[t])) && StackJustified(p, s, Pop(s.threads[t]))
  {
    hide FrameOk, Calls, FrameJustified;
    var below := Pop(s.threads[t]);
    assert forall j :: 0 <= j < |below| ==> below[j] == s.threads[t][j];
  }

  // ---------------------------------------------------------------- each step

  lemma StartOutcomes(p: Program, s: State, t: nat, roots: seq<Key>)
    requires Inv(p, s, roots) && Outcomes(p, s) && t < |s.threads| && s.threads[t] != [] && Top(s.threads[t]).phase.Starting?
    ensures Outcomes(p, StartStep(s, t))
  {
    TopOk(p, s, t);
    NotYetRan(p, s, t, |s.threads[t]| - 1);
    var n := StartStep(s, t);
    assert Later(s, n);
    hide StackOk, PassesOk, PendingOk, ReturnsOk, StartedOk, RootsOk, StackJustified, Later;
    TopJustified(p, s, n, t, if s.cancelled then Finishing(PassResult(0, Some(Cancelled))) else Collecting(0, []));
    StepOutcomes(p, s, n, t);
  }

  lemma EnterOutcomes(p: Program, s: State, t: nat, roots: seq<Key>)
    requires Inv(p, s, roots) && Outcomes(p, s) && t < |s.threads| && s.threads[t] != [] && Top(s.threads[t]).phase.Entering?
    ensures Outcomes(p, EnterStep(s, t))
  {
    var n := EnterStep(s, t);
    assert Later(s, n);
    hide StackOk, PassesOk, PendingOk, ReturnsOk, StartedOk, RootsOk, StackJustified, Later, Justified;
    TopJustified(p, s, n, t, if Top(s.threads[t]).key in s.table then Waiting else Starting);
    StepOutcomes(p, s, n, t);
  }

  lemma CollectOutcomes(p: Program, s: State, t: nat, roots: seq<Key>)
    requires Inv(p, s, roots) && Outcomes(p, s) && t < |s.threads| && s.threads[t] != [] && Top(s.threads[t]).phase.Collecting?
    ensures Outcomes(p, CollectStep(p, s, t))
  {
    TopOk(p, s, t);
    NotYetRan(p, s, t, |s.threads[t]| - 1);
    var n := CollectStep(p, s, t);
    var f := Top(s.threads[t]);
    assert Later(s, n);
    if f.phase.next < |p.Deps(f.key)| {
      hide StackOk, PassesOk, PendingOk, ReturnsOk, StartedOk, RootsOk, Later, Justified, FrameOk;
      StackJustifiedStable(p, s, n, s.threads[t]);
      PushJustified(p, n, s.threads[t], Frame(p.Deps(f.key)[f.phase.next], Entering));
    } else {
      SkipJustified(p, s, n, f);
      hide StackOk, PassesOk, PendingOk, ReturnsOk, StartedOk, RootsOk, StackJustified, Later, Justified, FrameOk;
      TopJustified(p, s, n, t, if p.Skips(f.key) then Finishing(PassResult(0, None)) else Passing(f.phase.inputs));
    }
    StepOutcomes(p, s, n, t);
  }

  lemma PushJustified(p: Program, n: State, stack: seq<Frame>, f: Frame)
    requires StackJustified(p, n, stack) && !f.phase.Finishing? && !f.phase.Passing?
    ensures StackJustified(p, n, stack + [f])
  {
    hide Justified;
  }

  lemma SkipJustified(p: Program, s: State, n: State, f: Frame)
    requires f.phase.Collecting? && f.phase.next >= |p.Deps(f.key)| && !Ran(s, f.key) && n.passes == s.passes && n.table == s.table
    requires DepsDone(p, s.table, f.key, f.phase.next, f.phase.inputs)
    ensures FrameJustified(p, n, Frame(f.key, if p.Skips(f.key) then Finishing(PassResult(0, None)) else Passing(f.phase.inputs)))
  {
    assert !Ran(n, f.key);
    assert forall d :: 0 <= d < |p.Deps(f.key)| ==> Succeeded(s.table, p.Deps(f.key)[d], f.phase.inputs[d]);
  }

  lemma PassOutcomes(p: Program, s: State, t: nat, out: PassResult, roots: seq<Key>)
    requires Inv(p, s, roots) && Outcomes(p, s) && t < |s.threads| && s.threads[t] != [] && Top(s.threads[t]).phase.Passing?
    ensures Outcomes(p, PassStep(s, t, out))
  {
    TopOk(p, s, t);
    var n := PassStep(s, t, out);
    var k := Top(s.threads[t]).key;
    assert Later(s, n);
    assert n.passes[|s.passes|].key == k && n.passes[|s.passes|].out == out;
    assert FrameJustified(p, n, Frame(k, Finishing(out)));
    assert FrameJustified(p, s, Top(s.threads[t]));
    assert OwnedAt(s.table, k, t, |s.threads[t]| - 1);
    hide StackOk, PassesOk, PendingOk, ReturnsOk, StartedOk, RootsOk, StackJustified, Later, Justified, FrameOk;
    TopJustified(p, s, n, t, Finishing(out));
    StepOutcomes(p, s, n, t);
  }

  /** A result handed down justifies what the caller below makes of it. */
  lemma DeliverOutcomes(p: Program, s: State, n: State, t: nat, roots: seq<Key>)
    requires Inv(p, s, roots) && Outcomes(p, s) && t < |s.threads| && s.threads[t] != []
    requires Later(s, n) && n.passes == s.passes && |n.threads| == |s.threads| && n.threads == s.threads[t := n.threads[t]]
    requires var k := Top(s.threads[t]).key; IsDone(n.table, k) && n.threads[t] == Deliver(s.threads[t], n.table[k].result)
    requires forall k :: IsDone(n.table, k) && !IsDone(s.table, k) ==> Justified(p, n, k, n.table[k].result)
    ensures Outcomes(p, n)
  {
    var stack := s.threads[t];
    var below := Pop(stack);
    assert StackOk(p, s.table, t, stack) && StackJustified(p, s, stack);
    BelowOk(p, s, t);
    if below != [] {
      CallerJustified(p, s, n, t);
    }
    hide StackOk, PassesOk, PendingOk, ReturnsOk, StartedOk, RootsOk, Later, Justified, Received;
    StackJustifiedStable(p, s, n, below);
    if below != [] {
      var next := n.threads[t];
      forall j | 0 <= j < |next| ensures FrameJustified(p, n, next[j]) {
        if j < |next| - 1 {
          assert next[j] == below[j];
        }
      }
    }
    hide StackJustified;
    StepOutcomes(p, s, n, t);
  }

  lemma CallerJustified(p: Program, s: State, n: State, t: nat)
    requires StacksOk(p, s) && PassesOk(p, s) && t < |s.threads| && |s.threads[t]| >= 2 && n.passes == s.passes && Grows(s.table, n.table)
    requires IsDone(n.table, Top(s.threads[t]).key)
    ensures var stack := s.threads[t];
            var caller, callee := stack[|stack| - 2], Top(stack).key;
            var phase := Received(callee, caller.phase, n.table[callee].result);
            FrameJustified(p, n, Frame(caller.key, phase))
  {
    var stack := s.threads[t];
    var caller, callee := stack[|stack| - 2], Top(stack).key;
    assert StackOk(p, s.table, t, stack);
    assert Calls(p, caller, stack[|stack| - 1]) && FrameOk(p, s.table, t, |stack| - 2, caller);
    NotYetRan(p, s, t, |stack| - 2);
    hide StackOk, PassesOk;
    if n.table[callee].result.error.Some? {
      assert FailedAt(p, n, caller.key, caller.phase.next) by {
        assert forall i :: 0 <= i < caller.phase.next ==> Succeeded(s.table, p.Deps(caller.key)[i], caller.phase.inputs[i]);
      }
      assert !Ran(n, caller.key);
    }
  }

  lemma WaitOutcomes(p: Program, s: State, t: nat, roots: seq<Key>)
    requires Inv(p, s, roots) && Outcomes(p, s) && Enabled(s, t) && Top(s.threads[t]).phase.Waiting?
    ensures Outcomes(p, WaitStep(s, t))
  {
    var n := WaitStep(s, t);
    assert Later(s, n);
    hide Inv, Outcomes, Deliver, Later, Justified;
    DeliverOutcomes(p, s, n, t, roots);
  }

  lemma FinishOutcomes(p: Program, s: State, t: nat, roots: seq<Key>)
    requires Inv(p, s, roots) && Outcomes(p, s) && t < |s.threads| && s.threads[t] != [] && Top(s.threads[t]).phase.Finishing?
    ensures Outcomes(p, FinishStep(s, t))
  {
    var n := FinishStep(s, t);
    var f := Top(s.threads[t]);
    TopOk(p, s, t);
    assert OwnedAt(s.table, f.key, t, |s.threads[t]| - 1);
    assert Later(s, n);
    assert StackJustified(p, s, s.threads[t]) && FrameJustified(p, s, f);
    hide Inv, Outcomes, Deliver, Later, Justified, StackJustified;
    JustifiedStable(p, s, n, f.key, f.phase.result);
    DeliverOutcomes(p, s, n, t, roots);
  }

  /** Every atomic step, and cancellation, keeps all results justified. */
  lemma TakeOutcomes(p: Program, s: State, c: Choice, roots: seq<Key>)
    requires Inv(p, s, roots) && Outcomes(p, s) && Allowed(s, c)
    ensures Outcomes(p, Take(p, s, c))
  {
    hide Inv, Outcomes, EnterStep, StartStep, CollectStep, PassStep, FinishStep, WaitStep;
    if c.Cancel? {
      CancelOutcomes(p, s);
    } else {
      match Top(s.threads[c.thread]).phase
      case Entering => EnterOutcomes(p, s, c.thread, roots);
      case Waiting => WaitOutcomes(p, s, c.thread, roots);
      case Starting => StartOutcomes(p, s, c.thread, roots);
      case Collecting(_, _) => CollectOutcomes(p, s, c.thread, roots);
      case Passing(_) => PassOutcomes(p, s, c.thread, c.out, roots);
      case Finishing(_) => FinishOutcomes(p, s, c.thread, roots);
    }
  }

  lemma CancelOutcomes(p: Program, s: State)
    requires Outcomes(p, s)
    ensures Outcomes(p, s.(cancelled := true))
  {
    var n := s.(cancelled := true);
    assert Later(s, n);
    hide Justified, Later, StackJustified;
    forall k | IsDone(n.table, k) ensures Justified(p, n, k, n.table[k].result) {
      JustifiedStable(p, s, n, k, s.table[k].result);
    }
    forall t | 0 <= t < |n.threads| ensures StackJustified(p, n, n.threads[t]) {
      StackJustifiedStable(p, s, n, s.threads[t]);
    }
  }

  lemma {:induction false} RunOutcomes(p: Program, s: State, schedule: seq<Choice>, last: State, roots: seq<Key>)
    requires Inv(p, s, roots) && Outcomes(p, s) && Runs(p, s, schedule, last)
    ensures Outcomes(p, last)
    decreases |schedule|
  {
    if schedule != [] {
      TakeInv(p, s, schedule[0], roots);
      TakeOutcomes(p, s, schedule[0], roots);
      hide Inv, Outcomes, Take;
      RunOutcomes(p, Take(p, s, schedule[0]), schedule[1..], last, roots);
    }
  }

  lemma InitialOutcomes(p: Program, roots: seq<Key>)
    ensures Outcomes(p, Initial(roots))
  {
  }

  /** The context is cancelled exactly when the run cancelled it. */
  lemma {:induction false} RunCancels(p: Program, s: State, schedule: seq<Choice>, last: State)
    requires Runs(p, s, schedule, last)
    ensures last.cancelled <==> s.cancelled || Cancel in schedule
    decreases |schedule|
  {
    if schedule != [] {
      RunCancels(p, Take(p, s, schedule[0]), schedule[1..], last);
      assert schedule == [schedule[0]] + schedule[1..];
    }
  }

  /**
   * Under every interleaving a stored result is what the pair's one pass
   * returned; or no pass of the pair ran, and the context was cancelled, or
   * the first dependency to fail is named, or an ill-typed package was
   * skipped after all dependencies had succeeded. A pass that wants no
   * ill-typed package never runs on one.
   */
  lemma ResultsAreJustified(p: Program, roots: seq<Key>, schedule: seq<Choice>, s: State, k: Key)
    requires Runs(p, Initial(roots), schedule, s) && IsDone(s.table, k)
    ensures Justified(p, s, k, s.table[k].result) && (Unfit(p, k) ==> !Ran(s, k))
    ensures s.cancelled <==> Cancel in schedule
  {
    RunCancels(p, Initial(roots), schedule, s);
    InitialInv(p, roots);
    InitialOutcomes(p, roots);
    hide Justified, Inv;
    RunOutcomes(p, Initial(roots), schedule, s, roots);
  }
}
