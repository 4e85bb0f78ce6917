/** What a cancelled context stops: nothing that begins afterwards runs an analyzer. */
module ExecutorCancel {
  import opened Common
  import opened ExecutorModel
  import opened ExecutorSafety
  import opened ExecutorOutcomes

  /** The phases up to the context check, and the one that reports its failure. */
  predicate Early(phase: Phase)
  {
    phase.Entering? || phase.Waiting? || phase.Starting? || phase == Finishing(PassResult(0, Some(Cancelled)))
  }

  ghost predicate StackSpared(stack: seq<Frame>, k: Key)
  {
    forall j :: 0 <= j < |stack| && stack[j].key == k ==> Early(stack[j].phase)
  }

  /** The context is cancelled, and the pair has not got and cannot get further than the check of it. */
  ghost predicate Spared(s: State, k: Key)
  {
    && s.cancelled && !Ran(s, k)
    && (IsDone(s.table, k) ==> s.table[k].result == PassResult(0, Some(Cancelled)))
    && forall t :: 0 <= t < |s.threads| ==> StackSpared(s.threads[t], k)
  }

  lemma RephaseSpared(stack: seq<Frame>, phase: Phase, k: Key)
    requires stack != [] && StackSpared(stack, k) && (Top(stack).key == k ==> Early(phase))
    ensures StackSpared(Rephase(stack, phase), k)
  {
  }

  /** A caller that receives a result is collecting, so it is another pair's. */
  lemma DeliverSpared(p: Program, table: Table, t: nat, stack: seq<Frame>, r: PassResult, k: Key)
    requires stack != [] && StackSpared(stack, k) && StackOk(p, table, t, stack)
    ensures StackSpared(Deliver(stack, r), k)
  {
    var below := Pop(stack);
    if below != [] {
      assert Calls(p, stack[|stack| - 2], stack[|stack| - 1]);
      assert Top(below).key != k;
      RephaseSpared(below, Received(Top(stack).key, Top(below).phase, r), k);
    }
  }

  /** A step of thread `t` that runs no pass of the pair. */
  lemma ThreadSpared(s: State, n: State, t: nat, stack: seq<Frame>, k: Key)
    requires Spared(s, k) && t < |s.threads| && n.threads == s.threads[t := stack] && StackSpared(stack, k)
    requires n.cancelled && (n.passes == s.passes || (|n.passes| == |s.passes| + 1 && n.passes[..|s.passes|] == s.passes && n.passes[|s.passes|].key != k))
    requires IsDone(n.table, k) ==> n.table[k].result == PassResult(0, Some(Cancelled))
    ensures Spared(n, k)
  {
    hide StackSpared;
    assert forall i :: 0 <= i < |s.passes| ==> n.passes[i] == s.passes[i];
  }

  lemma TakeSpared(p: Program, roots: seq<Key>, s: State, c: Choice, k: Key)
    requires Inv(p, s, roots) && Allowed(s, c) && Spared(s, k)
    ensures Spared(Take(p, s, c), k)
  {
    if c.Go? {
      var t, n := c.thread, Take(p, s, c);
      var stack := s.threads[t];
      assert StackOk(p, s.table, t, stack) && StackSpared(stack, k);
      var f := Top(stack);
      assert stack[|stack| - 1] == f && FrameOk(p, s.table, t, |stack| - 1, f);
      hide Inv, StacksOk, StackOk, PendingOk, PassesOk, RootsOk, FrameOk, Ran;
      match f.phase
      case Entering => EnterSpared(s, t, k);
      case Waiting =>
        DeliverSpared(p, s.table, t, stack, s.table[f.key].result, k);
        hide StackSpared, Deliver;
        ThreadSpared(s, n, t, n.threads[t], k);
      case Starting =>
        RephaseSpared(stack, Finishing(PassResult(0, Some(Cancelled))), k);
        hide StackSpared;
        ThreadSpared(s, n, t, n.threads[t], k);
      case Collecting(_, _) => CollectSpared(p, s, t, k);
      case Passing(_) =>
        RephaseSpared(stack, Finishing(c.out), k);
        hide StackSpared;
        ThreadSpared(s, n, t, n.threads[t], k);
      case Finishing(r) =>
        DeliverSpared(p, s.table, t, stack, r, k);
        hide StackSpared, Deliver;
        ThreadSpared(s, n, t, n.threads[t], k);
    }
  }

  lemma EnterSpared(s: State, t: nat, k: Key)
    requires t < |s.threads| && s.threads[t] != [] && Spared(s, k)
    ensures Spared(EnterStep(s, t), k)
  {
    RephaseSpared(s.threads[t], Waiting, k);
    RephaseSpared(s.threads[t], Starting, k);
    hide StackSpared, Ran, Rephase;
    ThreadSpared(s, EnterStep(s, t), t, EnterStep(s, t).threads[t], k);
  }

  lemma CollectSpared(p: Program, s: State, t: nat, k: Key)
    requires t < |s.threads| && s.threads[t] != [] && Top(s.threads[t]).phase.Collecting? && Spared(s, k)
    ensures Spared(CollectStep(p, s, t), k)
  {
    assert Top(s.threads[t]).key != k;
    var stack := CollectStep(p, s, t).threads[t];
    assert StackSpared(stack, k);
    hide StackSpared, Ran, Rephase;
    ThreadSpared(s, CollectStep(p, s, t), t, stack, k);
  }

  lemma {:induction false} RunSpared(p: Program, roots: seq<Key>, s: State, schedule: seq<Choice>, last: State, k: Key)
    requires Inv(p, s, roots) && Spared(s, k) && Runs(p, s, schedule, last)
    ensures Spared(last, k)
    decreases |schedule|
  {
    hide Inv, Spared, Take;
    if schedule != [] {
      TakeSpared(p, roots, s, schedule[0], k);
      TakeInv(p, s, schedule[0], roots);
      RunSpared(p, roots, Take(p, s, schedule[0]), schedule[1..], last, k);
    }
  }

  /**
   * In any interleaving, a pair that nobody has begun when the context is
   * cancelled never runs, and whoever asks for it is told Cancelled.
   */
  lemma AfterCancellation(p: Program, roots: seq<Key>, schedule: seq<Choice>, s: State, later: seq<Choice>, last: State, k: Key)
    requires Runs(p, Initial(roots), schedule, s) && Runs(p, s, later, last)
    requires Cancel in schedule && k !in s.table
    ensures !Ran(last, k) && (IsDone(last.table, k) ==> last.table[k].result == PassResult(0, Some(Cancelled)))
  {
    InitialInv(p, roots);
    RunInv(p, Initial(roots), schedule, s, roots);
    RunCancels(p, Initial(roots), schedule, s);
    forall t | 0 <= t < |s.threads| ensures StackSpared(s.threads[t], k) {
      assert StackOk(p, s.table, t, s.threads[t]);
    }
    assert Spared(s, k);
    hide Inv, Spared;
    RunSpared(p, roots, s, later, last, k);
  }
}
