/** What every interleaving of the executor keeps: one run per key, one result for all callers. */
module ExecutorSafety {
  import opened Common
  import opened ExecutorModel

  /** The frame runs the key's analyzer, rather than looking it up or waiting for it. */
  predicate Owns(f: Frame)
  {
    !f.phase.Entering? && !f.phase.Waiting?
  }

  predicate Succeeded(table: Table, k: Key, value: int)
  {
    IsDone(table, k) && table[k].result.error.None? && table[k].result.value == value
  }

  /** The first `n` dependencies of `k` have completed without error, with these values. */
  ghost predicate DepsDone(p: Program, table: Table, k: Key, n: nat, inputs: seq<int>)
  {
    n <= |p.Deps(k)| && |inputs| == n && forall d :: 0 <= d < n ==> Succeeded(table, p.Deps(k)[d], inputs[d])
  }

  predicate OwnedAt(table: Table, k: Key, t: nat, j: nat)
  {
    k in table && table[k] == Pending(t, j)
  }

  ghost predicate FrameOk(p: Program, table: Table, t: nat, j: nat, f: Frame)
  {
    && (f.phase.Waiting? ==> f.key in table)
    && (Owns(f) ==> OwnedAt(table, f.key, t, j))
    && (f.phase.Collecting? ==> DepsDone(p, table, f.key, f.phase.next, f.phase.inputs))
    && (f.phase.Passing? ==> DepsDone(p, table, f.key, |p.Deps(f.key)|, f.phase.inputs))
  }

  /** `above` was called by `f`. */
  ghost predicate Calls(p: Program, f: Frame, above: Frame)
  {
    f.phase.Collecting? && f.phase.next < |p.Deps(f.key)| && p.Deps(f.key)[f.phase.next] == above.key
  }

  ghost predicate StackOk(p: Program, table: Table, t: nat, stack: seq<Frame>)
  {
    && (forall j :: 0 <= j < |stack| ==> FrameOk(p, table, t, j, stack[j]))
    && (forall j :: 0 <= j < |stack| - 1 ==> Calls(p, stack[j], stack[j + 1]))
  }

  /** Every pending execution is being run by the frame recorded for it. */
  ghost predicate PendingOk(threads: seq<seq<Frame>>, table: Table)
  {
    forall k :: k in table && table[k].Pending? ==>
      && table[k].thread < |threads| && table[k].depth < |threads[table[k].thread]|
      && threads[table[k].thread][table[k].depth].key == k
      && Owns(threads[table[k].thread][table[k].depth])
  }

  ghost predicate ReturnsOk(table: Table, returned: seq<Return>)
  {
    forall i :: 0 <= i < |returned| ==>
      IsDone(table, returned[i].key) && table[returned[i].key].result == returned[i].result
  }

  ghost predicate StartedOk(table: Table, started: seq<Key>)
  {
    Distinct(started) && forall k :: k in started <==> k in table
  }

  /** The key's pass is over: its execution is done, or its frame is publishing. */
  ghost predicate PassOver(threads: seq<seq<Frame>>, table: Table, k: Key)
  {
    && k in table
    && (table[k].Pending? ==>
          && table[k].thread < |threads| && table[k].depth < |threads[table[k].thread]|
          && threads[table[k].thread][table[k].depth].phase.Finishing?)
  }

  ghost predicate PassesOk(p: Program, s: State)
  {
    && (forall i :: 0 <= i < |s.passes| ==>
          && PassOver(s.threads, s.table, s.passes[i].key)
          && DepsDone(p, s.table, s.passes[i].key, |p.Deps(s.passes[i].key)|, s.passes[i].inputs))
    && (forall i, j :: 0 <= i < j < |s.passes| ==> s.passes[i].key != s.passes[j].key)
  }

  /** A goroutine still has its root call at the bottom, or the root's execution is complete. */
  ghost predicate RootsOk(s: State, roots: seq<Key>)
  {
    && |s.threads| == |roots|
    && (forall t :: 0 <= t < |roots| ==>
          if s.threads[t] == [] then IsDone(s.table, roots[t]) else s.threads[t][0].key == roots[t])
  }

  ghost predicate StacksOk(p: Program, s: State)
  {
    forall t :: 0 <= t < |s.threads| ==> StackOk(p, s.table, t, s.threads[t])
  }

  ghost predicate Inv(p: Program, s: State, roots: seq<Key>)
  {
    && StacksOk(p, s) && PendingOk(s.threads, s.table)
    && ReturnsOk(s.table, s.returned) && StartedOk(s.table, s.started)
    && PassesOk(p, s) && RootsOk(s, roots)
  }

  lemma InitialInv(p: Program, roots: seq<Key>)
    ensures Inv(p, Initial(roots), roots)
  {
  }

  // -------------------------------------------------- the table only advances

  /** Entries are never removed, moved or reopened, and results never change. */
  ghost predicate Grows(before: Table, after: Table)
  {
    forall k :: k in before ==> k in after && (after[k] == before[k] || (before[k].Pending? && after[k].Done?))
  }

  lemma DepsDoneStable(p: Program, before: Table, after: Table, k: Key, n: nat, inputs: seq<int>)
    requires Grows(before, after) && DepsDone(p, before, k, n, inputs)
    ensures DepsDone(p, after, k, n, inputs)
  {
  }

  /** A frame stays fine as long as its own execution is not completed. */
  lemma FrameStable(p: Program, before: Table, after: Table, t: nat, j: nat, f: Frame)
    requires Grows(before, after) && FrameOk(p, before, t, j, f)
    requires Owns(f) ==> after[f.key].Pending?
    ensures FrameOk(p, after, t, j, f)
  {
    if f.phase.Collecting? {
      DepsDoneStable(p, before, after, f.key, f.phase.next, f.phase.inputs);
    } else if f.phase.Passing? {
      DepsDoneStable(p, before, after, f.key, |p.Deps(f.key)|, f.phase.inputs);
    }
    hide DepsDone;
  }

  /** Only the frame recorded for `k` may complete it. */
  ghost predicate Completes(before: Table, after: Table, t: nat, j: nat)
  {
    forall k :: k in before && before[k].Pending? && IsDone(after, k) ==> before[k] == Pending(t, j)
  }

  lemma StackStable(p: Program, before: Table, after: Table, t: nat, stack: seq<Frame>, t0: nat, j0: nat)
    requires Grows(before, after) && StackOk(p, before, t, stack) && Completes(before, after, t0, j0)
    requires t != t0 || |stack| <= j0
    ensures StackOk(p, after, t, stack)
  {
    forall j | 0 <= j < |stack| ensures FrameOk(p, after, t, j, stack[j]) {
      assert FrameOk(p, before, t, j, stack[j]);
      FrameStable(p, before, after, t, j, stack[j]);
    }
    hide FrameOk;
  }

  /** One thread's stack is replaced and the table advances: the rest stays fine. */
  lemma StacksAfter(p: Program, s: State, n: State, t: nat)
    requires t < |s.threads| && s.threads[t] != [] && StacksOk(p, s)
    requires |n.threads| == |s.threads| && n.threads == s.threads[t := n.threads[t]]
    requires Grows(s.table, n.table) && Completes(s.table, n.table, t, |s.threads[t]| - 1)
    requires StackOk(p, n.table, t, n.threads[t])
    ensures StacksOk(p, n)
  {
    forall u | 0 <= u < |n.threads| ensures StackOk(p, n.table, u, n.threads[u]) {
      if u != t {
        assert StackOk(p, s.table, u, s.threads[u]);
        StackStable(p, s.table, n.table, u, s.threads[u], t, |s.threads[t]| - 1);
      }
    }
    hide StackOk, Grows, Completes;
  }

  /** The part of the stack below the moving frame. */
  lemma BelowStable(p: Program, s: State, table: Table, t: nat)
    requires t < |s.threads| && s.threads[t] != [] && StackOk(p, s.table, t, s.threads[t])
    requires Grows(s.table, table) && Completes(s.table, table, t, |s.threads[t]| - 1)
    ensures StackOk(p, table, t, Pop(s.threads[t]))
  {
    var below := Pop(s.threads[t]);
    assert StackOk(p, s.table, t, below) by {
      hide FrameOk, Calls;
      assert forall j :: 0 <= j < |below| ==> below[j] == s.threads[t][j];
    }
    hide FrameOk, Calls, StackOk;
    StackStable(p, s.table, table, t, below, t, |s.threads[t]| - 1);
  }

  /** Replacing the top frame by one with the same key. */
  lemma RephaseOk(p: Program, s: State, table: Table, t: nat, phase: Phase)
    requires t < |s.threads| && s.threads[t] != [] && StackOk(p, s.table, t, s.threads[t])
    requires Grows(s.table, table) && Completes(s.table, table, t, |s.threads[t]| - 1)
    requires FrameOk(p, table, t, |s.threads[t]| - 1, Frame(Top(s.threads[t]).key, phase))
    ensures StackOk(p, table, t, Rephase(s.threads[t], phase))
  {
    var stack := s.threads[t];
    BelowStable(p, s, table, t);
    hide FrameOk, Grows, Completes;
    var next := Rephase(stack, phase);
    assert forall j :: 0 <= j < |stack| - 1 ==> next[j] == Pop(stack)[j] == stack[j];
    forall j | 0 <= j < |next| - 1 ensures Calls(p, next[j], next[j + 1]) {
      assert Calls(p, stack[j], stack[j + 1]);
    }
  }

  /** Handing a result down. */
  lemma DeliverOk(p: Program, s: State, table: Table, t: nat, r: PassResult)
    requires t < |s.threads| && s.threads[t] != [] && StackOk(p, s.table, t, s.threads[t])
    requires Grows(s.table, table) && Completes(s.table, table, t, |s.threads[t]| - 1)
    requires IsDone(table, Top(s.threads[t]).key) && table[Top(s.threads[t]).key].result == r
    ensures StackOk(p, table, t, Deliver(s.threads[t], r))
  {
    var stack := s.threads[t];
    var below := Pop(stack);
    BelowStable(p, s, table, t);
    hide Grows, Completes;
    if below != [] {
      assert Calls(p, stack[|below| - 1], stack[|below|]);
      var caller := Top(below);
      assert FrameOk(p, table, t, |below| - 1, caller);
      ReceivedOk(p, table, t, |below| - 1, caller, Top(stack).key, r);
      hide FrameOk, Received;
      var phase := Received(Top(stack).key, caller.phase, r);
      var next := Rephase(below, phase);
      forall j | 0 <= j < |next| - 1 ensures Calls(p, next[j], next[j + 1]) {
        assert Calls(p, below[j], below[j + 1]);
      }
    }
  }

  lemma ReceivedOk(p: Program, table: Table, t: nat, j: nat, caller: Frame, key: Key, r: PassResult)
    requires FrameOk(p, table, t, j, caller) && Calls(p, caller, Frame(key, Entering))
    requires IsDone(table, key) && table[key].result == r
    ensures FrameOk(p, table, t, j, Frame(caller.key, Received(key, caller.phase, r)))
  {
  }

  // ------------------------------------------------ pending executions and passes

  /** A phase that keeps the frame's hold on its execution. */
  ghost predicate KeepsHold(f: Frame, phase: Phase)
  {
    && (Owns(f) ==> Owns(Frame(f.key, phase)))
    && (f.phase.Finishing? ==> phase.Finishing?)
  }

  /** Stack `after` still has the frame that owned an execution at depth `j`, held as before. */
  ghost predicate HoldsAt(before: seq<Frame>, after: seq<Frame>, j: nat)
  {
    j < |before| ==> j < |after| && after[j].key == before[j].key && KeepsHold(before[j], after[j].phase)
  }

  lemma PendingAfter(before: seq<seq<Frame>>, table: Table, t: nat, stack: seq<Frame>, after: Table)
    requires t < |before| && PendingOk(before, table)
    requires forall k :: k in after && after[k].Pending? ==> k in table && table[k] == after[k]
    requires forall k :: k in after && after[k].Pending? && after[k].thread == t ==> HoldsAt(before[t], stack, after[k].depth)
    ensures PendingOk(before[t := stack], after)
  {
    var threads: seq<seq<Frame>> := before[t := stack];
    forall k | k in after && after[k].Pending?
      ensures after[k].thread < |threads| && after[k].depth < |threads[after[k].thread]|
      ensures threads[after[k].thread][after[k].depth].key == k && Owns(threads[after[k].thread][after[k].depth])
    {
      assert k in table && table[k].Pending?;
    }
  }

  lemma PassOverAfter(before: seq<seq<Frame>>, table: Table, t: nat, stack: seq<Frame>, after: Table, k: Key)
    requires t < |before| && PassOver(before, table, k)
    requires k in after && (after[k] == table[k] || after[k].Done?)
    requires after[k].Pending? && after[k].thread == t ==> HoldsAt(before[t], stack, after[k].depth)
    ensures PassOver(before[t := stack], after, k)
  {
  }

  /** The recorded passes stay over. */
  lemma PassesAfter(p: Program, s: State, n: State, t: nat)
    requires t < |s.threads| && PassesOk(p, s)
    requires |n.threads| == |s.threads| && n.threads == s.threads[t := n.threads[t]]
    requires n.passes == s.passes && Grows(s.table, n.table)
    requires forall k :: k in n.table && n.table[k].Pending? && n.table[k].thread == t && k in s.table ==>
               HoldsAt(s.threads[t], n.threads[t], n.table[k].depth)
    ensures PassesOk(p, n)
  {
    forall i | 0 <= i < |n.passes|
      ensures PassOver(n.threads, n.table, n.passes[i].key)
      ensures DepsDone(p, n.table, n.passes[i].key, |p.Deps(n.passes[i].key)|, n.passes[i].inputs)
    {
      var k := n.passes[i].key;
      assert PassOver(s.threads, s.table, k);
      PassOverAfter(s.threads, s.table, t, n.threads[t], n.table, k);
      DepsDoneStable(p, s.table, n.table, k, |p.Deps(k)|, n.passes[i].inputs);
      hide PassOver, DepsDone, HoldsAt, Grows;
    }
  }

  lemma HoldsRephase(stack: seq<Frame>, phase: Phase, j: nat)
    requires stack != [] && KeepsHold(Top(stack), phase)
    ensures HoldsAt(stack, Rephase(stack, phase), j)
  {
  }

  /** Delivering drops the top frame and moves a collecting frame on. */
  lemma HoldsDeliver(p: Program, table: Table, t: nat, stack: seq<Frame>, r: PassResult, j: nat)
    requires stack != [] && StackOk(p, table, t, stack) && j < |stack| - 1
    ensures HoldsAt(stack, Deliver(stack, r), j)
  {
    if j == |stack| - 2 {
      assert Calls(p, stack[j], stack[j + 1]);
    }
  }

  // --------------------------------------------------------------- each step

  /** What the logs and the table of one step must satisfy. */
  ghost predicate TableStep(s: State, n: State, t: nat)
    requires t < |s.threads| && s.threads[t] != []
  {
    && |n.threads| == |s.threads| && n.threads == s.threads[t := n.threads[t]]
    && Grows(s.table, n.table) && Completes(s.table, n.table, t, |s.threads[t]| - 1)
  }

  lemma RootsAfter(s: State, n: State, t: nat, roots: seq<Key>)
    requires t < |s.threads| && s.threads[t] != [] && RootsOk(s, roots) && TableStep(s, n, t)
    requires n.threads[t] != [] ==> n.threads[t][0].key == s.threads[t][0].key
    requires n.threads[t] == [] ==> IsDone(n.table, s.threads[t][0].key)
    ensures RootsOk(n, roots)
  {
  }

  lemma ReturnsAfter(before: Table, after: Table, returned: seq<Return>, k: Key)
    requires ReturnsOk(before, returned) && Grows(before, after) && IsDone(after, k)
    ensures ReturnsOk(after, returned) && ReturnsOk(after, returned + [Return(k, after[k].result)])
  {
  }

  lemma ReturnsGrow(before: Table, after: Table, returned: seq<Return>)
    requires ReturnsOk(before, returned) && Grows(before, after)
    ensures ReturnsOk(after, returned)
  {
  }

  /** A step that changes only the top frame's phase and leaves the table and the histories alone. */
  lemma RephaseInv(p: Program, s: State, t: nat, phase: Phase, roots: seq<Key>)
    requires Inv(p, s, roots) && t < |s.threads| && s.threads[t] != []
    requires KeepsHold(Top(s.threads[t]), phase)
    requires FrameOk(p, s.table, t, |s.threads[t]| - 1, Frame(Top(s.threads[t]).key, phase))
    ensures Inv(p, SetThread(s, t, Rephase(s.threads[t], phase)), roots)
  {
    var n := SetThread(s, t, Rephase(s.threads[t], phase));
    assert Grows(s.table, n.table) && Completes(s.table, n.table, t, |s.threads[t]| - 1);
    assert StackOk(p, s.table, t, s.threads[t]);
    hide Grows, Completes, FrameOk, StackOk, PassesOk, PendingOk, ReturnsOk, StartedOk, StacksOk, RootsOk, HoldsAt, Owns;
    RephaseOk(p, s, s.table, t, phase);
    StacksAfter(p, s, n, t);
    forall j: nat ensures HoldsAt(s.threads[t], n.threads[t], j) {
      HoldsRephase(s.threads[t], phase, j);
    }
    PendingAfter(s.threads, s.table, t, n.threads[t], s.table);
    PassesAfter(p, s, n, t);
    RootsAfter(s, n, t, roots);
  }

  /** Claiming a key nobody has asked for yet. */
  lemma ClaimInv(p: Program, s: State, t: nat, roots: seq<Key>)
    requires Inv(p, s, roots) && t < |s.threads| && s.threads[t] != []
    requires Top(s.threads[t]).phase.Entering? && Top(s.threads[t]).key !in s.table
    ensures Inv(p, EnterStep(s, t), roots)
  {
    var n := EnterStep(s, t);
    var k := Top(s.threads[t]).key;
    var claimed := s.table[k := Pending(t, |s.threads[t]| - 1)];
    assert Grows(s.table, claimed) && Completes(s.table, claimed, t, |s.threads[t]| - 1);
    assert StackOk(p, s.table, t, s.threads[t]);
    assert FrameOk(p, claimed, t, |s.threads[t]| - 1, Frame(k, Starting));
    assert StartedOk(n.table, n.started);
    ClaimPending(s, t);
    hide Grows, Completes, FrameOk, StackOk, PassesOk, PendingOk, ReturnsOk, StartedOk, StacksOk, RootsOk, HoldsAt;
    RephaseOk(p, s, claimed, t, Starting);
    StacksAfter(p, s, n, t);
    forall j: nat ensures HoldsAt(s.threads[t], n.threads[t], j) {
      HoldsRephase(s.threads[t], Starting, j);
    }
    PassesAfter(p, s, n, t);
    RootsAfter(s, n, t, roots);
    ReturnsGrow(s.table, claimed, s.returned);
  }

  lemma ClaimPending(s: State, t: nat)
    requires t < |s.threads| && s.threads[t] != [] && PendingOk(s.threads, s.table)
    requires Top(s.threads[t]).phase.Entering? && Top(s.threads[t]).key !in s.table
    ensures PendingOk(EnterStep(s, t).threads, EnterStep(s, t).table)
  {
    var n := EnterStep(s, t);
    forall k | k in n.table && n.table[k].Pending?
      ensures n.table[k].thread < |n.threads| && n.table[k].depth < |n.threads[n.table[k].thread]|
      ensures n.threads[n.table[k].thread][n.table[k].depth].key == k && Owns(n.threads[n.table[k].thread][n.table[k].depth])
    {
      if k != Top(s.threads[t]).key {
        assert k in s.table && s.table[k].Pending?;
        HoldsRephase(s.threads[t], Starting, n.table[k].depth);
      }
    }
  }

  /** Calling execute for the next dependency. */
  lemma PushInv(p: Program, s: State, t: nat, roots: seq<Key>)
    requires Inv(p, s, roots) && t < |s.threads| && s.threads[t] != []
    requires Top(s.threads[t]).phase.Collecting? && Top(s.threads[t]).phase.next < |p.Deps(Top(s.threads[t]).key)|
    ensures Inv(p, CollectStep(p, s, t), roots)
  {
    var n := CollectStep(p, s, t);
    assert Grows(s.table, n.table) && Completes(s.table, n.table, t, |s.threads[t]| - 1);
    assert StackOk(p, s.table, t, s.threads[t]);
    PushStack(p, s.table, t, s.threads[t]);
    forall j: nat ensures HoldsAt(s.threads[t], n.threads[t], j) {
    }
    hide Grows, Completes, FrameOk, StackOk, PassesOk, PendingOk, ReturnsOk, StartedOk, StacksOk, RootsOk, HoldsAt, Owns;
    StacksAfter(p, s, n, t);
    PendingAfter(s.threads, s.table, t, n.threads[t], s.table);
    PassesAfter(p, s, n, t);
    RootsAfter(s, n, t, roots);
  }

  lemma PushStack(p: Program, table: Table, t: nat, stack: seq<Frame>)
    requires stack != [] && StackOk(p, table, t, stack)
    requires Top(stack).phase.Collecting? && Top(stack).phase.next < |p.Deps(Top(stack).key)|
    ensures StackOk(p, table, t, stack + [Frame(p.Deps(Top(stack).key)[Top(stack).phase.next], Entering)])
  {
    var callee := Frame(p.Deps(Top(stack).key)[Top(stack).phase.next], Entering);
    assert FrameOk(p, table, t, |stack|, callee);
    assert Calls(p, Top(stack), callee);
    hide FrameOk, Calls;
    var next := stack + [callee];
    forall j | 0 <= j < |next| - 1 ensures Calls(p, next[j], next[j + 1]) {
      if j < |stack| - 1 {
        assert Calls(p, stack[j], stack[j + 1]);
      }
    }
  }

  /** A call returns the result recorded in the table. */
  lemma DeliverInv(p: Program, s: State, n: State, t: nat, roots: seq<Key>)
    requires Inv(p, s, roots) && t < |s.threads| && s.threads[t] != [] && TableStep(s, n, t)
    requires var k := Top(s.threads[t]).key;
      && IsDone(n.table, k) && n.threads[t] == Deliver(s.threads[t], n.table[k].result)
      && n.returned == s.returned + [Return(k, n.table[k].result)]
      && n.passes == s.passes && n.started == s.started && n.table.Keys == s.table.Keys
    requires forall k :: k in n.table && n.table[k].Pending? ==> k in s.table && s.table[k] == n.table[k]
    requires Owns(Top(s.threads[t])) || n.table == s.table
    ensures Inv(p, n, roots)
  {
    var k := Top(s.threads[t]).key;
    var r := n.table[k].result;
    assert StackOk(p, s.table, t, s.threads[t]);
    assert StartedOk(n.table, n.started);
    forall q | q in n.table && n.table[q].Pending? && n.table[q].thread == t
      ensures HoldsAt(s.threads[t], n.threads[t], n.table[q].depth)
    {
      BelowTop(s, n, t, q);
      HoldsDeliver(p, s.table, t, s.threads[t], r, n.table[q].depth);
    }
    hide Grows, Completes, FrameOk, StackOk, PassesOk, PendingOk, ReturnsOk, StartedOk, StacksOk, RootsOk, HoldsAt, Owns, Received;
    DeliverOk(p, s, n.table, t, r);
    StacksAfter(p, s, n, t);
    PendingAfter(s.threads, s.table, t, n.threads[t], n.table);
    PassesAfter(p, s, n, t);
    RootsAfter(s, n, t, roots);
    ReturnsAfter(s.table, n.table, s.returned, k);
  }

  /** An execution still pending after a return is owned below the returning frame. */
  lemma BelowTop(s: State, n: State, t: nat, q: Key)
    requires t < |s.threads| && s.threads[t] != [] && PendingOk(s.threads, s.table)
    requires IsDone(n.table, Top(s.threads[t]).key)
    requires q in n.table && n.table[q].Pending? && n.table[q].thread == t
    requires q in s.table && s.table[q] == n.table[q]
    ensures n.table[q].depth < |s.threads[t]| - 1
  {
    assert s.threads[t][n.table[q].depth].key == q;
  }

  lemma FinishInv(p: Program, s: State, t: nat, roots: seq<Key>)
    requires Inv(p, s, roots) && t < |s.threads| && s.threads[t] != [] && Top(s.threads[t]).phase.Finishing?
    ensures Inv(p, FinishStep(s, t), roots)
  {
    var n := FinishStep(s, t);
    var f := Top(s.threads[t]);
    assert StackOk(p, s.table, t, s.threads[t]);
    assert FrameOk(p, s.table, t, |s.threads[t]| - 1, f);
    assert OwnedAt(s.table, f.key, t, |s.threads[t]| - 1);
    hide FrameOk, StackOk, PassesOk, PendingOk, ReturnsOk, StartedOk, StacksOk, RootsOk, HoldsAt, Deliver;
    assert n.table.Keys == s.table.Keys;
    DeliverInv(p, s, n, t, roots);
  }

  lemma WaitInv(p: Program, s: State, t: nat, roots: seq<Key>)
    requires Inv(p, s, roots) && Enabled(s, t) && Top(s.threads[t]).phase.Waiting?
    ensures Inv(p, WaitStep(s, t), roots)
  {
    hide FrameOk, StackOk, PassesOk, PendingOk, ReturnsOk, StartedOk, StacksOk, RootsOk, HoldsAt, Deliver;
    DeliverInv(p, s, WaitStep(s, t), t, roots);
  }

  /** Running the pass, once. */
  lemma PassInv(p: Program, s: State, t: nat, out: PassResult, roots: seq<Key>)
    requires Inv(p, s, roots) && t < |s.threads| && s.threads[t] != [] && Top(s.threads[t]).phase.Passing?
    ensures Inv(p, PassStep(s, t, out), roots)
  {
    var f := Top(s.threads[t]);
    var m := SetThread(s, t, Rephase(s.threads[t], Finishing(out)));
    assert StackOk(p, s.table, t, s.threads[t]);
    assert FrameOk(p, s.table, t, |s.threads[t]| - 1, f);
    assert OwnedAt(s.table, f.key, t, |s.threads[t]| - 1);
    FirstPass(p, s, t);
    RephaseInv(p, s, t, Finishing(out), roots);
    assert PassOver(m.threads, m.table, f.key);
    hide FrameOk, StackOk, PendingOk, ReturnsOk, StartedOk, StacksOk, RootsOk, DepsDone, PassOver;
    assert PassesOk(p, PassStep(s, t, out));
    assert StacksOk(p, PassStep(s, t, out)) by { SameThreads(p, m, PassStep(s, t, out), roots); }
    SameThreads(p, m, PassStep(s, t, out), roots);
  }

  lemma SameThreads(p: Program, m: State, n: State, roots: seq<Key>)
    requires StacksOk(p, m) && RootsOk(m, roots) && n.threads == m.threads && n.table == m.table
    ensures StacksOk(p, n) && RootsOk(n, roots)
  {
    hide StackOk;
  }

  /** A key whose pass is about to run has no recorded pass. */
  lemma FirstPass(p: Program, s: State, t: nat)
    requires PassesOk(p, s) && t < |s.threads| && s.threads[t] != [] && Top(s.threads[t]).phase.Passing?
    requires OwnedAt(s.table, Top(s.threads[t]).key, t, |s.threads[t]| - 1)
    ensures forall i :: 0 <= i < |s.passes| ==> s.passes[i].key != Top(s.threads[t]).key
  {
    forall i | 0 <= i < |s.passes| ensures s.passes[i].key != Top(s.threads[t]).key {
      assert PassOver(s.threads, s.table, s.passes[i].key);
    }
  }

  lemma StartInv(p: Program, s: State, t: nat, roots: seq<Key>)
    requires Inv(p, s, roots) && t < |s.threads| && s.threads[t] != [] && Top(s.threads[t]).phase.Starting?
    ensures Inv(p, StartStep(s, t), roots)
  {
    TopOk(p, s, t);
    RephaseInv(p, s, t, if s.cancelled then Finishing(PassResult(0, Some(Cancelled))) else Collecting(0, []), roots);
  }

  lemma TopOk(p: Program, s: State, t: nat)
    requires StacksOk(p, s) && t < |s.threads| && s.threads[t] != []
    ensures FrameOk(p, s.table, t, |s.threads[t]| - 1, Top(s.threads[t]))
  {
    assert StackOk(p, s.table, t, s.threads[t]);
  }

  lemma CollectInv(p: Program, s: State, t: nat, roots: seq<Key>)
    requires Inv(p, s, roots) && t < |s.threads| && s.threads[t] != [] && Top(s.threads[t]).phase.Collecting?
    ensures Inv(p, CollectStep(p, s, t), roots)
  {
    TopOk(p, s, t);
    var f := Top(s.threads[t]);
    if f.phase.next < |p.Deps(f.key)| {
      PushInv(p, s, t, roots);
    } else {
      RephaseInv(p, s, t, if p.Skips(f.key) then Finishing(PassResult(0, None)) else Passing(f.phase.inputs), roots);
    }
  }

  lemma EnterInv(p: Program, s: State, t: nat, roots: seq<Key>)
    requires Inv(p, s, roots) && t < |s.threads| && s.threads[t] != [] && Top(s.threads[t]).phase.Entering?
    ensures Inv(p, EnterStep(s, t), roots)
  {
    if Top(s.threads[t]).key in s.table {
      RephaseInv(p, s, t, Waiting, roots);
    } else {
      ClaimInv(p, s, t, roots);
    }
  }

  /** Every atomic step, and cancellation, keeps the invariant. */
  lemma TakeInv(p: Program, s: State, c: Choice, roots: seq<Key>)
    requires Inv(p, s, roots) && Allowed(s, c)
    ensures Inv(p, Take(p, s, c), roots)
  {
    hide Inv, EnterStep, StartStep, CollectStep, PassStep, FinishStep, WaitStep;
    if c.Cancel? {
      CancelInv(p, s, roots);
    } else {
      match Top(s.threads[c.thread]).phase
      case Entering => EnterInv(p, s, c.thread, roots);
      case Waiting => WaitInv(p, s, c.thread, roots);
      case Starting => StartInv(p, s, c.thread, roots);
      case Collecting(_, _) => CollectInv(p, s, c.thread, roots);
      case Passing(_) => PassInv(p, s, c.thread, c.out, roots);
      case Finishing(_) => FinishInv(p, s, c.thread, roots);
    }
  }

  lemma CancelInv(p: Program, s: State, roots: seq<Key>)
    requires Inv(p, s, roots)
    ensures Inv(p, s.(cancelled := true), roots)
  {
    hide FrameOk, StackOk, PassOver, DepsDone;
  }

  lemma {:induction false} RunInv(p: Program, s: State, schedule: seq<Choice>, last: State, roots: seq<Key>)
    requires Inv(p, s, roots) && Runs(p, s, schedule, last)
    ensures Inv(p, last, roots)
    decreases |schedule|
  {
    if schedule != [] {
      TakeInv(p, s, schedule[0], roots);
      hide Inv, Take;
      RunInv(p, Take(p, s, schedule[0]), schedule[1..], last, roots);
    }
  }
}
