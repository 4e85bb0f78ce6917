/** internal/features/analyzer/registry.go: the executor as a shared object and its goroutines as stacks. */
module Executors {
  import opened Common
  import opened ExecutorModel
  import Safety = ExecutorSafety
  import Results = ExecutorResults
  import Outcomes = ExecutorOutcomes

  class Executor {
    const program: Program
    var threads: seq<seq<Frame>>
    var table: Table
    var cancelled: bool
    ghost var started: seq<Key>
    ghost var passes: seq<Pass>
    ghost var returned: seq<Return>

    /** newExecutor, and one goroutine per root pair. */
    constructor (program: Program, roots: seq<Key>)
      ensures this.program == program && Now() == Initial(roots)
    {
      this.program := program;
      threads := seq(|roots|, i requires 0 <= i < |roots| => [Frame(roots[i], Entering)]);
      table, cancelled, started, passes, returned := map[], false, [], [], [];
    }

    ghost function Now(): State
      reads this
    {
      State(threads, table, cancelled, started, passes, returned)
    }

    predicate CanMove(t: nat)
      reads this
      ensures CanMove(t) == Enabled(Now(), t)
    {
      t < |threads| && threads[t] != [] &&
      (Top(threads[t]).phase.Waiting? ==> IsDone(table, Top(threads[t]).key))
    }

    /** Lines 249 to 258, under the lock. */
    method Enter(t: nat)
      requires t < |threads| && threads[t] != []
      modifies this
      ensures Now() == EnterStep(old(Now()), t)
    {
      var key := Top(threads[t]).key;
      if key in table {
        threads := threads[t := Rephase(threads[t], Waiting)];
      } else {
        table, started := table[key := Pending(t, |threads[t]| - 1)], started + [key];
        threads := threads[t := Rephase(threads[t], Starting)];
      }
    }

    /** Lines 253 and 254, once the ready channel is closed. */
    method Await(t: nat)
      requires CanMove(t) && Top(threads[t]).phase.Waiting?
      modifies this
      ensures Now() == WaitStep(old(Now()), t)
    {
      var key := Top(threads[t]).key;
      var result := table[key].result;
      returned := returned + [Return(key, result)];
      threads := threads[t := Deliver(threads[t], result)];
    }

    /** Lines 268 to 271. */
    method Start(t: nat)
      requires t < |threads| && threads[t] != []
      modifies this
      ensures Now() == StartStep(old(Now()), t)
    {
      var phase := Collecting(0, []);
      if cancelled {
        phase := Finishing(PassResult(0, Some(Cancelled)));
      }
      threads := threads[t := Rephase(threads[t], phase)];
    }

    /** Lines 273 to 300. */
    method Collect(t: nat)
      requires t < |threads| && threads[t] != [] && Top(threads[t]).phase.Collecting?
      modifies this
      ensures Now() == CollectStep(program, old(Now()), t)
    {
      var f := Top(threads[t]);
      var deps := program.Deps(f.key);
      if f.phase.next < |deps| {
        threads := threads[t := threads[t] + [Frame(deps[f.phase.next], Entering)]];
      } else if program.Skips(f.key) {
        threads := threads[t := Rephase(threads[t], Finishing(PassResult(0, None)))];
      } else {
        threads := threads[t := Rephase(threads[t], Passing(f.phase.inputs))];
      }
    }

    /** Lines 301 to 318, with the outcome of the analyzer. */
    method RunPass(t: nat, out: PassResult)
      requires t < |threads| && threads[t] != [] && Top(threads[t]).phase.Passing?
      modifies this
      ensures Now() == PassStep(old(Now()), t, out)
    {
      var f := Top(threads[t]);
      passes := passes + [Pass(f.key, f.phase.inputs, out)];
      threads := threads[t := Rephase(threads[t], Finishing(out))];
    }

    /** Lines 260 to 264, under the lock. */
    method Publish(t: nat)
      requires t < |threads| && threads[t] != [] && Top(threads[t]).phase.Finishing?
      modifies this
      ensures Now() == FinishStep(old(Now()), t)
    {
      var f := Top(threads[t]);
      table := table[f.key := Done(f.phase.result)];
      returned := returned + [Return(f.key, f.phase.result)];
      threads := threads[t := Deliver(threads[t], f.phase.result)];
    }

    method Move(t: nat, out: PassResult)
      requires CanMove(t)
      modifies this
      ensures Now() == Advance(program, old(Now()), t, out)
    {
      hide EnterStep, WaitStep, StartStep, CollectStep, PassStep, FinishStep;
      match Top(threads[t]).phase
      case Entering => Enter(t);
      case Waiting => Await(t);
      case Starting => Start(t);
      case Collecting(_, _) => Collect(t);
      case Passing(_) => RunPass(t, out);
      case Finishing(_) => Publish(t);
    }

    /**
     * Lets goroutines move in an arbitrary order, with arbitrary outcomes and
     * possibly a cancellation, until all have returned. It always ends.
     */
    method Run(roots: seq<Key>, ghost ar: nat -> nat, ghost pr: nat -> nat)
      requires Results.Acyclic(program, ar, pr) && Now() == Initial(roots)
      modifies this
      ensures Finished(Now()) && Safety.Inv(program, Now(), roots)
      ensures forall k :: k in roots ==> IsDone(table, k)
      ensures forall k :: IsDone(table, k) ==> Outcomes.Justified(program, Now(), k, table[k].result)
    {
      Safety.InitialInv(program, roots);
      Outcomes.InitialOutcomes(program, roots);
      var unfinished := Unfinished();
      while unfinished
        invariant Safety.Inv(program, Now(), roots) && Outcomes.Outcomes(program, Now())
        invariant unfinished == !Finished(Now())
        decreases Results.Budget(program, ar, pr, Now())
      {
        hide Safety.Inv, Outcomes.Outcomes, Finished, Results.Acyclic, Results.Budget, Advance, Enabled;
        SomeoneCanMove(roots, ar, pr);
        var t: nat :| t < |threads| && CanMove(t);
        var out: PassResult := *;
        ghost var before := Now();
        var cancel := *;
        if cancel && !cancelled {
          cancelled := true;
          Chosen(program, ar, pr, before, Cancel, roots);
        } else {
          Move(t, out);
          Chosen(program, ar, pr, before, Go(t, out), roots);
        }
        unfinished := Unfinished();
      }
      AllDone(program, Now(), roots);
    }

    method Unfinished() returns (some: bool)
      ensures some == !Finished(Now())
    {
      for t := 0 to |threads|
        invariant forall u :: 0 <= u < t ==> threads[u] == []
      {
        if threads[t] != [] {
          return true;
        }
      }
      some := false;
    }

    lemma SomeoneCanMove(roots: seq<Key>, ar: nat -> nat, pr: nat -> nat)
      requires Results.Acyclic(program, ar, pr) && Safety.Inv(program, Now(), roots) && !Finished(Now())
      ensures exists t: nat :: t < |threads| && CanMove(t)
    {
      var t: nat :| t < |threads| && threads[t] != [];
      hide Results.Acyclic, Safety.Inv;
      var u := Results.SomeEnabled(program, ar, pr, Now(), roots, t);
      assert CanMove(u);
    }
  }

  lemma Chosen(p: Program, ar: nat -> nat, pr: nat -> nat, s: State, c: Choice, roots: seq<Key>)
    requires Results.Acyclic(p, ar, pr) && Safety.Inv(p, s, roots) && Outcomes.Outcomes(p, s) && Allowed(s, c)
    ensures Safety.Inv(p, Take(p, s, c), roots) && Outcomes.Outcomes(p, Take(p, s, c))
    ensures Results.Budget(p, ar, pr, Take(p, s, c)) < Results.Budget(p, ar, pr, s)
    ensures Take(p, s, c) == (if c.Cancel? then s.(cancelled := true) else Advance(p, s, c.thread, c.out))
  {
    Safety.TakeInv(p, s, c, roots);
    Outcomes.TakeOutcomes(p, s, c, roots);
    Results.BudgetFalls(p, ar, pr, s, c);
  }

  lemma AllDone(p: Program, s: State, roots: seq<Key>)
    requires Safety.Inv(p, s, roots) && Finished(s)
    ensures forall k :: k in roots ==> IsDone(s.table, k)
  {
    hide Safety.StacksOk, Safety.PassesOk;
  }
}
