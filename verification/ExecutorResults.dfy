/** The executor's guarantees over all interleavings: single runs, single results, order, no deadlock, termination. */
module ExecutorResults {
  import opened Common
  import opened ExecutorModel
  import opened ExecutorSafety
  import Outcomes = ExecutorOutcomes

  /** `s` can be reached by some interleaving of the goroutines of one run. */
  ghost predicate Reaches(p: Program, roots: seq<Key>, schedule: seq<Choice>, s: State)
  {
    Runs(p, Initial(roots), schedule, s)
  }

  lemma ReachedInv(p: Program, roots: seq<Key>, schedule: seq<Choice>, s: State)
    requires Reaches(p, roots, schedule, s)
    ensures Inv(p, s, roots)
  {
    InitialInv(p, roots);
    RunInv(p, Initial(roots), schedule, s, roots);
  }

  /** Each (analyzer, package) pair is run at most once, and its pass at most once. */
  lemma RunsAtMostOnce(p: Program, roots: seq<Key>, schedule: seq<Choice>, s: State)
    requires Reaches(p, roots, schedule, s)
    ensures Distinct(s.started)
    ensures forall i, j :: 0 <= i < j < |s.passes| ==> s.passes[i].key != s.passes[j].key
    ensures forall i :: 0 <= i < |s.passes| ==> s.passes[i].key in s.started
  {
    ReachedInv(p, roots, schedule, s);
    hide StackOk, PendingOk, RootsOk, DepsDone;
  }

  /** All callers of one pair receive the one result that is stored for it. */
  lemma OneResult(p: Program, roots: seq<Key>, schedule: seq<Choice>, s: State, i: nat, j: nat)
    requires Reaches(p, roots, schedule, s) && i < |s.returned| && j < |s.returned|
    requires s.returned[i].key == s.returned[j].key
    ensures s.returned[i].result == s.returned[j].result
    ensures IsDone(s.table, s.returned[i].key) && s.table[s.returned[i].key].result == s.returned[i].result
  {
    ReachedInv(p, roots, schedule, s);
    hide StackOk, PendingOk, RootsOk, PassesOk, StartedOk;
  }

  /** The passes of this analyzer on the imports come first: it has facts, and ownership is only for the deep profile. */
  ghost predicate ReadsImports(p: Program, analyzer: nat)
  {
    p.hasFacts(analyzer) && (p.isOwnership(analyzer) ==> p.deep)
  }

  /**
   * When a pass is about to run, every required pass on its package and, for
   * a fact analyzer that traverses imports, its passes on the imports have
   * completed without error; it is given their stored values.
   */
  lemma PassAfterDependencies(p: Program, roots: seq<Key>, schedule: seq<Choice>, s: State, t: nat)
    requires Reaches(p, roots, schedule, s) && t < |s.threads| && s.threads[t] != [] && Top(s.threads[t]).phase.Passing?
    ensures var f := Top(s.threads[t]);
            && |f.phase.inputs| == |p.needs(f.key.analyzer)| + (if ReadsImports(p, f.key.analyzer) then |p.imports(f.key.pkg)| else 0)
            && (forall d :: 0 <= d < |p.needs(f.key.analyzer)| ==>
                  Succeeded(s.table, Key(p.needs(f.key.analyzer)[d], f.key.pkg), f.phase.inputs[d]))
            && (ReadsImports(p, f.key.analyzer) ==> forall d :: 0 <= d < |p.imports(f.key.pkg)| ==>
                  IsDone(s.table, Key(f.key.analyzer, p.imports(f.key.pkg)[d]))
                  && s.table[Key(f.key.analyzer, p.imports(f.key.pkg)[d])].result.error.None?)
  {
    ReachedInv(p, roots, schedule, s);
    TopOk(p, s, t);
    hide StackOk, PendingOk, RootsOk, PassesOk, StartedOk, ReturnsOk;
    var f := Top(s.threads[t]);
    DepsSplit(p, s.table, f.key, f.phase.inputs);
  }

  lemma DepsSplit(p: Program, table: Table, k: Key, inputs: seq<int>)
    requires DepsDone(p, table, k, |p.Deps(k)|, inputs)
    ensures |inputs| == |p.needs(k.analyzer)| + (if p.Traverses(k.analyzer) then |p.imports(k.pkg)| else 0)
    ensures forall d :: 0 <= d < |p.needs(k.analyzer)| ==> Succeeded(table, Key(p.needs(k.analyzer)[d], k.pkg), inputs[d])
    ensures p.Traverses(k.analyzer) ==> forall d :: 0 <= d < |p.imports(k.pkg)| ==>
              IsDone(table, Key(k.analyzer, p.imports(k.pkg)[d]))
              && table[Key(k.analyzer, p.imports(k.pkg)[d])].result.error.None?
  {
    var needs := p.needs(k.analyzer);
    forall d | 0 <= d < |needs| ensures Succeeded(table, Key(needs[d], k.pkg), inputs[d]) {
      assert p.Deps(k)[d] == Key(needs[d], k.pkg);
    }
    if p.Traverses(k.analyzer) {
      var imports := p.imports(k.pkg);
      forall d | 0 <= d < |imports|
        ensures IsDone(table, Key(k.analyzer, imports[d])) && table[Key(k.analyzer, imports[d])].result.error.None?
      {
        assert p.Deps(k)[|needs| + d] == Key(k.analyzer, imports[d]);
      }
    }
  }

  // ------------------------------------------------------------- acyclic graphs

  /** `Requires` and the imports are acyclic: both have a rank that falls along every edge. */
  ghost predicate Acyclic(p: Program, analyzerRank: nat -> nat, packageRank: nat -> nat)
  {
    && (forall a, d :: 0 <= d < |p.needs(a)| ==> analyzerRank(p.needs(a)[d]) < analyzerRank(a))
    && (forall q, d :: 0 <= d < |p.imports(q)| ==> packageRank(p.imports(q)[d]) < packageRank(q))
  }

  ghost function Rank(analyzerRank: nat -> nat, packageRank: nat -> nat, k: Key): nat
  {
    analyzerRank(k.analyzer) + packageRank(k.pkg)
  }

  lemma DepsLower(p: Program, ar: nat -> nat, pr: nat -> nat, k: Key)
    requires Acyclic(p, ar, pr)
    ensures forall d :: 0 <= d < |p.Deps(k)| ==> Rank(ar, pr, p.Deps(k)[d]) < Rank(ar, pr, k)
  {
    forall d | 0 <= d < |p.Deps(k)| ensures Rank(ar, pr, p.Deps(k)[d]) < Rank(ar, pr, k) {
      var n := |p.needs(k.analyzer)|;
      if d < n {
        assert p.Deps(k)[d] == Key(p.needs(k.analyzer)[d], k.pkg);
      } else {
        assert p.Deps(k)[d] == Key(k.analyzer, p.imports(k.pkg)[d - n]);
      }
    }
  }

  // ---------------------------------------------------------------- no deadlock

  /** The frame above is for a key of lower rank. */
  lemma {:induction false} TopLowest(p: Program, ar: nat -> nat, pr: nat -> nat, table: Table, t: nat, stack: seq<Frame>, j: nat)
    requires Acyclic(p, ar, pr) && StackOk(p, table, t, stack) && j < |stack|
    ensures Rank(ar, pr, Top(stack).key) <= Rank(ar, pr, stack[j].key)
    ensures j < |stack| - 1 ==> Rank(ar, pr, Top(stack).key) < Rank(ar, pr, stack[j].key)
    decreases |stack| - j
  {
    if j < |stack| - 1 {
      assert Calls(p, stack[j], stack[j + 1]);
      DepsLower(p, ar, pr, stack[j].key);
      hide StackOk;
      TopLowest(p, ar, pr, table, t, stack, j + 1);
    }
  }

  /** From a blocked goroutine, follow the owners of what it waits for down to one that can move. */
  lemma {:induction false} SomeEnabled(p: Program, ar: nat -> nat, pr: nat -> nat, s: State, roots: seq<Key>, t: nat) returns (u: nat)
    requires Acyclic(p, ar, pr) && Inv(p, s, roots) && t < |s.threads| && s.threads[t] != []
    ensures Enabled(s, u)
    decreases Rank(ar, pr, Top(s.threads[t]).key)
  {
    if Enabled(s, t) {
      u := t;
    } else {
      TopOk(p, s, t);
      var k := Top(s.threads[t]).key;
      assert k in s.table && s.table[k].Pending?;
      var owner, depth := s.table[k].thread, s.table[k].depth;
      assert owner < |s.threads| && depth < |s.threads[owner]| && s.threads[owner][depth].key == k;
      assert Owns(s.threads[owner][depth]);
      if Enabled(s, owner) {
        u := owner;
      } else {
        assert StackOk(p, s.table, owner, s.threads[owner]);
        TopLowest(p, ar, pr, s.table, owner, s.threads[owner], depth);
        hide StackOk, PendingOk, RootsOk, PassesOk, StartedOk, ReturnsOk, Owns;
        u := SomeEnabled(p, ar, pr, s, roots, owner);
      }
    }
  }

  /** No reachable state is deadlocked: while a goroutine is unfinished, some goroutine can move. */
  lemma NoDeadlock(p: Program, ar: nat -> nat, pr: nat -> nat, roots: seq<Key>, schedule: seq<Choice>, s: State)
    requires Acyclic(p, ar, pr) && Reaches(p, roots, schedule, s)
    ensures Finished(s) || exists t :: Enabled(s, t)
  {
    if !Finished(s) {
      ReachedInv(p, roots, schedule, s);
      var t: nat :| t < |s.threads| && s.threads[t] != [];
      hide Inv, Enabled;
      var u := SomeEnabled(p, ar, pr, s, roots, t);
    }
  }

  // ---------------------------------------------------------------- termination

  /** An upper bound on the steps of executing `k` with nothing memoised. */
  ghost function Weight(p: Program, ar: nat -> nat, pr: nat -> nat, k: Key): nat
    requires Acyclic(p, ar, pr)
    decreases Rank(ar, pr, k), |p.Deps(k)| + 1
  {
    5 + Rest(p, ar, pr, k, 0)
  }

  /** The same for the dependencies of `k` from number `n` on. */
  ghost function Rest(p: Program, ar: nat -> nat, pr: nat -> nat, k: Key, n: nat): nat
    requires Acyclic(p, ar, pr)
    decreases Rank(ar, pr, k), if n <= |p.Deps(k)| then |p.Deps(k)| - n else 0
  {
    if n >= |p.Deps(k)| then 0
    else
      DepsLower(p, ar, pr, k);
      Weight(p, ar, pr, p.Deps(k)[n]) + 1 + Rest(p, ar, pr, k, n + 1)
  }

  /** The steps a frame on top of its stack can still cause. */
  ghost function Active(p: Program, ar: nat -> nat, pr: nat -> nat, f: Frame): nat
    requires Acyclic(p, ar, pr)
  {
    match f.phase
    case Entering => Weight(p, ar, pr, f.key)
    case Waiting => 1
    case Starting => 4 + Rest(p, ar, pr, f.key, 0)
    case Collecting(next, _) => 3 + Rest(p, ar, pr, f.key, next)
    case Passing(_) => 2
    case Finishing(_) => 1
  }

  /** The steps a calling frame can cause once its callee has returned. */
  ghost function Suspended(p: Program, ar: nat -> nat, pr: nat -> nat, f: Frame): nat
    requires Acyclic(p, ar, pr)
  {
    if f.phase.Collecting? then 3 + Rest(p, ar, pr, f.key, f.phase.next + 1) else 0
  }

  ghost function SuspendedAll(p: Program, ar: nat -> nat, pr: nat -> nat, stack: seq<Frame>): nat
    requires Acyclic(p, ar, pr)
    decreases |stack|
  {
    if stack == [] then 0 else SuspendedAll(p, ar, pr, Pop(stack)) + Suspended(p, ar, pr, Top(stack))
  }

  ghost function StackSteps(p: Program, ar: nat -> nat, pr: nat -> nat, stack: seq<Frame>): nat
    requires Acyclic(p, ar, pr)
  {
    if stack == [] then 0 else SuspendedAll(p, ar, pr, Pop(stack)) + Active(p, ar, pr, Top(stack))
  }

  ghost function AllSteps(p: Program, ar: nat -> nat, pr: nat -> nat, threads: seq<seq<Frame>>): nat
    requires Acyclic(p, ar, pr)
    decreases |threads|
  {
    if threads == [] then 0 else StackSteps(p, ar, pr, threads[0]) + AllSteps(p, ar, pr, threads[1..])
  }

  /** A bound on the number of steps, cancellation included, that can still be taken. */
  ghost function Budget(p: Program, ar: nat -> nat, pr: nat -> nat, s: State): nat
    requires Acyclic(p, ar, pr)
  {
    AllSteps(p, ar, pr, s.threads) + if s.cancelled then 0 else 1
  }

  lemma {:induction false} AllStepsUpdate(p: Program, ar: nat -> nat, pr: nat -> nat, threads: seq<seq<Frame>>, t: nat, stack: seq<Frame>)
    requires Acyclic(p, ar, pr) && t < |threads|
    ensures AllSteps(p, ar, pr, threads[t := stack]) + StackSteps(p, ar, pr, threads[t])
         == AllSteps(p, ar, pr, threads) + StackSteps(p, ar, pr, stack)
    decreases |threads|
  {
    hide StackSteps, Acyclic;
    if t == 0 {
      assert threads[t := stack][1..] == threads[1..];
    } else {
      assert threads[t := stack][1..] == threads[1..][t - 1 := stack];
      AllStepsUpdate(p, ar, pr, threads[1..], t - 1, stack);
    }
  }

  lemma RephaseSteps(p: Program, ar: nat -> nat, pr: nat -> nat, stack: seq<Frame>, phase: Phase)
    requires Acyclic(p, ar, pr) && stack != []
    requires Active(p, ar, pr, Frame(Top(stack).key, phase)) < Active(p, ar, pr, Top(stack))
    ensures StackSteps(p, ar, pr, Rephase(stack, phase)) < StackSteps(p, ar, pr, stack)
  {
    hide Active, Acyclic;
    assert Pop(Rephase(stack, phase)) == Pop(stack);
  }

  lemma DeliverSteps(p: Program, ar: nat -> nat, pr: nat -> nat, table: Table, t: nat, stack: seq<Frame>, r: PassResult)
    requires Acyclic(p, ar, pr) && stack != [] && StackOk(p, table, t, stack) && Active(p, ar, pr, Top(stack)) == 1
    ensures StackSteps(p, ar, pr, Deliver(stack, r)) < StackSteps(p, ar, pr, stack)
  {
    var below := Pop(stack);
    if below != [] {
      assert Calls(p, stack[|below| - 1], stack[|below|]);
      var caller := Top(below);
      var phase := Received(Top(stack).key, caller.phase, r);
      assert Active(p, ar, pr, Frame(caller.key, phase)) <= Suspended(p, ar, pr, caller);
      hide Active, Acyclic, StackOk, Suspended, Received;
      assert Pop(Rephase(below, phase)) == Pop(below);
      assert SuspendedAll(p, ar, pr, below) == SuspendedAll(p, ar, pr, Pop(below)) + Suspended(p, ar, pr, caller);
    }
  }

  lemma PushSteps(p: Program, ar: nat -> nat, pr: nat -> nat, stack: seq<Frame>)
    requires Acyclic(p, ar, pr) && stack != [] && Top(stack).phase.Collecting?
    requires Top(stack).phase.next < |p.Deps(Top(stack).key)|
    ensures StackSteps(p, ar, pr, stack + [Frame(p.Deps(Top(stack).key)[Top(stack).phase.next], Entering)])
          < StackSteps(p, ar, pr, stack)
  {
    var f := Top(stack);
    var callee := Frame(p.Deps(f.key)[f.phase.next], Entering);
    PushActive(p, ar, pr, f);
    hide Active, Acyclic, Suspended;
    assert Pop(stack + [callee]) == stack;
    assert SuspendedAll(p, ar, pr, stack) == SuspendedAll(p, ar, pr, Pop(stack)) + Suspended(p, ar, pr, f);
  }

  /** What a collecting frame can cause, split into its next call and what follows. */
  lemma PushActive(p: Program, ar: nat -> nat, pr: nat -> nat, f: Frame)
    requires Acyclic(p, ar, pr) && f.phase.Collecting? && f.phase.next < |p.Deps(f.key)|
    ensures Active(p, ar, pr, Frame(p.Deps(f.key)[f.phase.next], Entering)) + Suspended(p, ar, pr, f) + 1 == Active(p, ar, pr, f)
  {
    RestStep(p, ar, pr, f.key, f.phase.next);
    hide Acyclic, Rest, Weight;
  }

  lemma RestStep(p: Program, ar: nat -> nat, pr: nat -> nat, k: Key, n: nat)
    requires Acyclic(p, ar, pr) && n < |p.Deps(k)|
    ensures Rest(p, ar, pr, k, n) == Weight(p, ar, pr, p.Deps(k)[n]) + 1 + Rest(p, ar, pr, k, n + 1)
  {
    hide Acyclic, Weight;
  }

  /** Each step of the moving goroutine lowers what its stack can still cause. */
  lemma StackFalls(p: Program, ar: nat -> nat, pr: nat -> nat, s: State, t: nat, out: PassResult)
    requires Acyclic(p, ar, pr) && StacksOk(p, s) && Enabled(s, t)
    ensures var n := Advance(p, s, t, out);
            && |n.threads| == |s.threads| && n.threads == s.threads[t := n.threads[t]] && n.cancelled == s.cancelled
            && StackSteps(p, ar, pr, n.threads[t]) < StackSteps(p, ar, pr, s.threads[t])
  {
    var stack := s.threads[t];
    var f := Top(stack);
    assert StackOk(p, s.table, t, stack);
    hide StackOk, Acyclic, StackSteps, Deliver, Rest;
    if f.phase.Entering? {
      RephaseSteps(p, ar, pr, stack, if f.key in s.table then Waiting else Starting);
    } else if f.phase.Waiting? {
      DeliverSteps(p, ar, pr, s.table, t, stack, s.table[f.key].result);
    } else if f.phase.Starting? {
      RephaseSteps(p, ar, pr, stack, if s.cancelled then Finishing(PassResult(0, Some(Cancelled))) else Collecting(0, []));
    } else if f.phase.Collecting? {
      if f.phase.next < |p.Deps(f.key)| {
        PushSteps(p, ar, pr, stack);
      } else {
        RephaseSteps(p, ar, pr, stack, if p.Skips(f.key) then Finishing(PassResult(0, None)) else Passing(f.phase.inputs));
      }
    } else if f.phase.Passing? {
      RephaseSteps(p, ar, pr, stack, Finishing(out));
    } else {
      DeliverSteps(p, ar, pr, s.table, t, stack, f.phase.result);
    }
  }

  lemma BudgetFalls(p: Program, ar: nat -> nat, pr: nat -> nat, s: State, c: Choice)
    requires Acyclic(p, ar, pr) && StacksOk(p, s) && Allowed(s, c)
    ensures Budget(p, ar, pr, Take(p, s, c)) < Budget(p, ar, pr, s)
  {
    hide Acyclic, StacksOk, AllSteps, StackSteps;
    if c.Go? {
      StackFalls(p, ar, pr, s, c.thread, c.out);
      hide Advance;
      AllStepsUpdate(p, ar, pr, s.threads, c.thread, Advance(p, s, c.thread, c.out).threads[c.thread]);
    }
  }

  /** Every interleaving is finite: its length is bounded before it starts. */
  lemma {:induction false} RunsAreBounded(p: Program, ar: nat -> nat, pr: nat -> nat, s: State, schedule: seq<Choice>, last: State, roots: seq<Key>)
    requires Acyclic(p, ar, pr) && Inv(p, s, roots) && Runs(p, s, schedule, last)
    ensures |schedule| + Budget(p, ar, pr, last) <= Budget(p, ar, pr, s)
    decreases |schedule|
  {
    if schedule != [] {
      BudgetFalls(p, ar, pr, s, schedule[0]);
      TakeInv(p, s, schedule[0], roots);
      hide Inv, Take, Acyclic, Budget;
      RunsAreBounded(p, ar, pr, Take(p, s, schedule[0]), schedule[1..], last, roots);
    }
  }

  // ---------------------------------------------------------------- the results

  /** Lines 237 to 246: what result returns once the execution is ready. */
  function ResultOf(s: State, k: Key): Option<PassResult>
  {
    if k in s.table && s.table[k].Done? then Some(s.table[k].result) else None
  }

  /**
   * When all goroutines have returned, result finds every root pair scheduled
   * and ready, and returns what its callers got, which is what the pair's
   * pass returned or says why none ran.
   */
  lemma RootsHaveResults(p: Program, roots: seq<Key>, schedule: seq<Choice>, s: State)
    requires Reaches(p, roots, schedule, s) && Finished(s)
    ensures forall k :: k in roots ==> ResultOf(s, k).Some?
    ensures forall i :: 0 <= i < |s.returned| ==> ResultOf(s, s.returned[i].key) == Some(s.returned[i].result)
    ensures forall k :: k in s.started ==> ResultOf(s, k).Some? && Outcomes.Justified(p, s, k, ResultOf(s, k).value)
  {
    ReachedInv(p, roots, schedule, s);
    hide StackOk, PassesOk, Outcomes.Justified;
    forall k | k in s.started ensures ResultOf(s, k).Some? && Outcomes.Justified(p, s, k, ResultOf(s, k).value) {
      assert k in s.table;
      Outcomes.ResultsAreJustified(p, roots, schedule, s, k);
    }
  }

  /** A stored result never changes afterwards. */
  lemma {:induction false} ResultsAreFinal(p: Program, s: State, schedule: seq<Choice>, last: State, roots: seq<Key>, k: Key)
    requires Inv(p, s, roots) && Runs(p, s, schedule, last) && ResultOf(s, k).Some?
    ensures ResultOf(last, k) == ResultOf(s, k)
    decreases |schedule|
  {
    if schedule != [] {
      TakeInv(p, s, schedule[0], roots);
      TakeKeepsResult(p, s, schedule[0], roots, k);
      hide Inv, Take, ResultOf;
      ResultsAreFinal(p, Take(p, s, schedule[0]), schedule[1..], last, roots, k);
    }
  }

  lemma TakeKeepsResult(p: Program, s: State, c: Choice, roots: seq<Key>, k: Key)
    requires Inv(p, s, roots) && Allowed(s, c) && ResultOf(s, k).Some?
    ensures ResultOf(Take(p, s, c), k) == ResultOf(s, k)
  {
    if c.Go? {
      TopOk(p, s, c.thread);
      hide Inv, Deliver, Rephase;
    }
  }
}
