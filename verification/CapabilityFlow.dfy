/** The all-paths proof of internal/features/analyzer/capability_flow.go. */
module CapabilityFlow {
  import opened Common

  const BUDGET: nat := 256

  /**
   * A basic block under the forced facts: whether each of its return
   * instructions is accepted, its successors, and the truth of its branch
   * condition when the facts decide it.
   */
  datatype Block = Block(verdicts: seq<bool>, successors: seq<nat>, decided: Option<bool>)

  type Graph = seq<Block>

  ghost predicate WellFormed(g: Graph)
  {
    forall b :: 0 <= b < |g| ==>
      && (forall i :: 0 <= i < |g[b].successors| ==> g[b].successors[i] < |g|)
      && (g[b].decided.Some? ==> |g[b].successors| >= 2)
  }

  /** The successors that the forced facts leave open: lines 245 to 260. */
  function Next(b: Block): seq<nat>
    requires b.decided.Some? ==> |b.successors| >= 2
  {
    if b.decided.None? then b.successors
    else [b.successors[if b.decided.value then 0 else 1]]
  }

  predicate Accepts(b: Block)
  {
    forall i :: 0 <= i < |b.verdicts| ==> b.verdicts[i]
  }

  /** Control can go from `a` to `b`: a branch that the facts decide goes to its first successor when true, else to its second. */
  ghost predicate Edge(g: Graph, a: nat, b: nat)
    requires WellFormed(g)
  {
    a < |g| &&
    match g[a].decided
    case None => b in g[a].successors
    case Some(true) => b == g[a].successors[0]
    case Some(false) => b == g[a].successors[1]
  }

  /** `path` is a control-flow path from the entry block. */
  ghost predicate IsPath(g: Graph, path: seq<nat>)
    requires WellFormed(g)
  {
    path != [] && path[0] == 0 && forall i :: 0 <= i < |path| - 1 ==> Edge(g, path[i], path[i + 1])
  }

  ghost predicate Reachable(g: Graph, b: nat)
    requires WellFormed(g)
  {
    exists path: seq<nat> :: IsPath(g, path) && path[|path| - 1] == b
  }

  /** No path from the entry repeats a block, so nothing reachable lies on a cycle. */
  ghost predicate Acyclic(g: Graph)
    requires WellFormed(g)
  {
    forall path: seq<nat> :: IsPath(g, path) ==> Distinct(path)
  }

  ghost predicate AllAccepted(g: Graph)
    requires WellFormed(g)
  {
    forall b: nat :: b < |g| && Reachable(g, b) ==> false !in g[b].verdicts
  }

  /** At most 256 blocks are reachable. */
  ghost predicate Small(g: Graph)
    requires WellFormed(g)
  {
    forall s: seq<nat> :: Distinct(s) && (forall i :: 0 <= i < |s| ==> Reachable(g, s[i])) ==> |s| <= 256
  }

  ghost predicate Proven(g: Graph)
    requires WellFormed(g)
  {
    Acyclic(g) && AllAccepted(g) && Small(g)
  }

  // --------------------------------------------------------------- invariants

  /** Blocks in the order in which they were finished: successors come before their predecessors. */
  ghost predicate PostOrder(g: Graph, finished: seq<nat>)
    requires WellFormed(g)
  {
    && Distinct(finished)
    && (forall k :: 0 <= k < |finished| ==> finished[k] < |g| && Accepts(g[finished[k]]) && Reachable(g, finished[k]))
    && (forall k, b :: 0 <= k < |finished| && b in Next(g[finished[k]]) ==> b in finished[..k])
  }

  lemma DistinctWithin(s: seq<nat>, t: seq<nat>)
    requires Distinct(s) && Distinct(t) && forall i :: 0 <= i < |s| ==> s[i] in t
    ensures |s| <= |t|
  {
    ListsSize(s, Members(s));
    ListsSize(t, Members(t));
    SubsetSize(Members(s), Members(t));
  }

  /** Every path stays inside a finished entry's blocks, at falling positions. */
  lemma {:induction false} PathFalls(g: Graph, finished: seq<nat>, path: seq<nat>, i: nat) returns (k: nat)
    requires WellFormed(g) && PostOrder(g, finished) && 0 in finished && IsPath(g, path) && i < |path|
    ensures k < |finished| && finished[k] == path[i]
    ensures forall j, q :: 0 <= j < i && 0 <= q < |finished| && finished[q] == path[j] ==> k < q
    decreases i
  {
    if i == 0 {
      k :| 0 <= k < |finished| && finished[k] == 0;
    } else {
      var before := PathFalls(g, finished, path, i - 1);
      assert Edge(g, path[i - 1], path[i]);
      assert path[i] in finished[..before];
      k :| 0 <= k < before && finished[k] == path[i];
      forall j, q | 0 <= j < i && 0 <= q < |finished| && finished[q] == path[j] ensures k < q {
        if j == i - 1 {
          assert finished[q] == finished[before];
          assert q == before;
        } else {
          assert before < q;
        }
      }
    }
  }

  lemma FinishedAcyclic(g: Graph, finished: seq<nat>, path: seq<nat>)
    requires WellFormed(g) && PostOrder(g, finished) && 0 in finished && IsPath(g, path)
    ensures Distinct(path)
  {
    forall i, j | 0 <= i < j < |path| ensures path[i] != path[j] {
      var first := PathFalls(g, finished, path, i);
      var second := PathFalls(g, finished, path, j);
      assert second < first;
    }
  }

  lemma ReachableFinished(g: Graph, finished: seq<nat>, b: nat)
    requires WellFormed(g) && PostOrder(g, finished) && 0 in finished && Reachable(g, b)
    ensures b in finished
  {
    var path: seq<nat> :| IsPath(g, path) && path[|path| - 1] == b;
    var k := PathFalls(g, finished, path, |path| - 1);
  }

  /** Finishing the entry within the budget proves the requirement. */
  lemma FinishedProves(g: Graph, finished: seq<nat>)
    requires WellFormed(g) && PostOrder(g, finished) && 0 in finished && |finished| <= BUDGET
    ensures Proven(g)
  {
    forall path: seq<nat> | IsPath(g, path) ensures Distinct(path) {
      FinishedAcyclic(g, finished, path);
    }
    forall b: nat | b < |g| && Reachable(g, b) ensures false !in g[b].verdicts {
      ReachableFinished(g, finished, b);
      assert Accepts(g[b]);
    }
    forall s: seq<nat> | Distinct(s) && (forall i :: 0 <= i < |s| ==> Reachable(g, s[i])) ensures |s| <= BUDGET {
      forall i | 0 <= i < |s| ensures s[i] in finished {
        ReachableFinished(g, finished, s[i]);
      }
      DistinctWithin(s, finished);
    }
  }

  // ---------------------------------------------------------------- the search

  /** `stack` is the path from the entry to the block being visited. */
  ghost predicate SearchState(g: Graph, stack: seq<nat>, finished: seq<nat>, budget: nat)
    requires WellFormed(g)
  {
    && (stack == [] || IsPath(g, stack))
    && PostOrder(g, finished)
    && Distinct(stack + finished)
    && (forall i :: 0 <= i < |stack| ==> stack[i] < |g|)
    && |stack| + |finished| + budget == BUDGET
  }

  /** `b` may be visited next. */
  ghost predicate Enters(g: Graph, stack: seq<nat>, b: nat)
    requires WellFormed(g)
  {
    b < |g| && if stack == [] then b == 0 else Edge(g, stack[|stack| - 1], b)
  }

  lemma PathGrows(g: Graph, stack: seq<nat>, b: nat)
    requires WellFormed(g) && (stack == [] || IsPath(g, stack)) && Enters(g, stack, b)
    ensures IsPath(g, stack + [b]) && Reachable(g, b)
  {
    var path := stack + [b];
    forall i | 0 <= i < |path| - 1 ensures Edge(g, path[i], path[i + 1]) {
      if i < |stack| - 1 {
        assert Edge(g, stack[i], stack[i + 1]);
      }
    }
    assert path[|path| - 1] == b;
  }

  /** Line 232: meeting an active block shows a cycle. */
  lemma ActiveRefutes(g: Graph, stack: seq<nat>, b: nat)
    requires WellFormed(g) && (stack == [] || IsPath(g, stack)) && Enters(g, stack, b) && b in stack
    ensures !Proven(g)
  {
    PathGrows(g, stack, b);
    var path := stack + [b];
    var i :| 0 <= i < |stack| && stack[i] == b;
    assert path[i] == path[|stack|];
    assert !Distinct(path);
  }

  /** Every block on a path is reachable. */
  lemma OnPathReachable(g: Graph, path: seq<nat>, i: nat)
    requires WellFormed(g) && IsPath(g, path) && i < |path|
    ensures Reachable(g, path[i])
  {
    var prefix := path[..i + 1];
    forall k | 0 <= k < |prefix| - 1 ensures Edge(g, prefix[k], prefix[k + 1]) {
      assert Edge(g, path[k], path[k + 1]);
    }
    assert IsPath(g, prefix) && prefix[|prefix| - 1] == path[i];
  }

  /** Line 232: an exhausted budget shows more than BUDGET reachable blocks. */
  lemma ExhaustedRefutes(g: Graph, stack: seq<nat>, finished: seq<nat>, b: nat)
    requires WellFormed(g) && SearchState(g, stack, finished, 0) && Enters(g, stack, b)
    requires b !in stack && b !in finished
    ensures !Proven(g)
  {
    PathGrows(g, stack, b);
    var s := (stack + finished) + [b];
    forall i | 0 <= i < |s| ensures Reachable(g, s[i]) {
      if i < |stack| {
        OnPathReachable(g, stack, i);
        assert s[i] == stack[i];
      } else if i < |stack| + |finished| {
        assert s[i] == finished[i - |stack|];
      }
    }
    assert Distinct(s);
    assert |s| == BUDGET + 1;
  }

  lemma RejectedRefutes(g: Graph, stack: seq<nat>, b: nat)
    requires WellFormed(g) && (stack == [] || IsPath(g, stack)) && Enters(g, stack, b) && !Accepts(g[b])
    ensures !Proven(g)
  {
    PathGrows(g, stack, b);
    assert false in g[b].verdicts;
  }

  lemma Descend(g: Graph, stack: seq<nat>, finished: seq<nat>, budget: nat, b: nat)
    requires WellFormed(g) && SearchState(g, stack, finished, budget) && Enters(g, stack, b)
    requires budget > 0 && b !in stack && b !in finished
    ensures SearchState(g, stack + [b], finished, budget - 1)
  {
    PathGrows(g, stack, b);
    hide PostOrder, IsPath;
    DistinctInsert(stack, finished, b);
  }

  lemma DistinctInsert(s: seq<nat>, t: seq<nat>, b: nat)
    requires Distinct(s + t) && b !in s && b !in t
    ensures Distinct(s + [b] + t)
  {
    var u, v := s + t, s + [b] + t;
    forall i, j | 0 <= i < j < |v| ensures v[i] != v[j] {
      if i != |s| && j != |s| {
        var i', j' := if i < |s| then i else i - 1, if j < |s| then j else j - 1;
        assert v[i] == u[i'] && v[j] == u[j'];
      }
    }
  }

  /** Lines 255 and 265: all successors are done, so the block is done. */
  lemma Ascend(g: Graph, stack: seq<nat>, finished: seq<nat>, budget: nat, b: nat)
    requires WellFormed(g) && SearchState(g, stack + [b], finished, budget) && b < |g| && Accepts(g[b])
    requires forall s :: s in Next(g[b]) ==> s in finished
    ensures SearchState(g, stack, finished + [b], budget)
  {
    var path, after := stack + [b], finished + [b];
    OnPathReachable(g, path, |stack|);
    assert path[|stack|] == b;
    if stack != [] {
      forall i | 0 <= i < |stack| - 1 ensures Edge(g, stack[i], stack[i + 1]) {
        assert Edge(g, path[i], path[i + 1]);
      }
    }
    NotInBoth(path, finished, |stack|);
    PostOrderGrows(g, finished, b);
    hide PostOrder, Edge;
    DistinctMove(stack, finished, b);
    forall i | 0 <= i < |stack| ensures stack[i] < |g| {
      assert path[i] == stack[i];
    }
  }

  lemma NotInBoth(s: seq<nat>, t: seq<nat>, i: nat)
    requires Distinct(s + t) && i < |s|
    ensures s[i] !in t
  {
    forall k | 0 <= k < |t| ensures t[k] != s[i] {
      assert (s + t)[i] == s[i] && (s + t)[|s| + k] == t[k];
    }
  }

  lemma PostOrderGrows(g: Graph, finished: seq<nat>, b: nat)
    requires WellFormed(g) && PostOrder(g, finished) && b < |g| && Accepts(g[b]) && Reachable(g, b)
    requires b !in finished && forall s :: s in Next(g[b]) ==> s in finished
    ensures PostOrder(g, finished + [b])
  {
    hide Accepts, Reachable, Next;
    var after := finished + [b];
    forall k, s | 0 <= k < |after| && s in Next(g[after[k]]) ensures s in after[..k] {
      if k < |finished| {
        assert after[..k] == finished[..k];
      } else {
        assert after[..k] == finished;
      }
    }
  }

  lemma DistinctMove(s: seq<nat>, t: seq<nat>, b: nat)
    requires Distinct(s + [b] + t)
    ensures Distinct(s + (t + [b]))
  {
    var u, v := s + [b] + t, s + (t + [b]);
    forall i, j | 0 <= i < j < |v| ensures v[i] != v[j] {
      var i' := if i < |s| then i else i + 1;
      var j' := if j < |s| then j else if j == |v| - 1 then |s| else j + 1;
      assert v[i] == u[i'] && v[j] == u[j'];
    }
  }

  class Search {
    const graph: Graph
    var active: set<nat>
    var done: set<nat>
    var budget: nat
    ghost var stack: seq<nat>
    ghost var finished: seq<nat>

    constructor (graph: Graph)
      ensures this.graph == graph && active == {} && done == {} && budget == BUDGET && stack == [] && finished == []
    {
      this.graph, active, done, budget, stack, finished := graph, {}, {}, BUDGET, [], [];
    }

    ghost predicate Valid()
      reads this
    {
      && WellFormed(graph) && SearchState(graph, stack, finished, budget)
      && active == Members(stack) && done == Members(finished)
    }

    /** Lines 228 to 267. */
    method Visit(block: nat) returns (ok: bool)
      requires Valid() && Enters(graph, stack, block)
      modifies this
      ensures budget <= old(budget)
      ensures ok ==> Valid() && stack == old(stack) && block in finished && old(done) <= done
      ensures !ok ==> !Proven(graph)
      decreases budget, 0
    {
      if block in done {
        return true;
      }
      if block in active || budget == 0 {
        if block in active {
          ActiveRefutes(graph, stack, block);
        } else {
          ExhaustedRefutes(graph, stack, finished, block);
        }
        return false;
      }
      Descend(graph, stack, finished, budget, block);
      budget := budget - 1;
      active := active + {block};
      stack := stack + [block];
      var accepted := CheckReturns(graph[block]);
      if !accepted {
        RejectedRefutes(graph, old(stack), block);
        active := active - {block};
        return false;
      }
      ok := VisitAll(block, Next(graph[block]));
      if !ok {
        active := active - {block};
        return;
      }
      Ascend(graph, old(stack), finished, budget, block);
      Leave(block);
    }

    /** The end of a successful visit: done, and no longer active. */
    method Leave(block: nat)
      requires WellFormed(graph) && stack != [] && stack[|stack| - 1] == block
      requires SearchState(graph, stack[..|stack| - 1], finished + [block], budget)
      requires active == Members(stack) && done == Members(finished)
      modifies this
      ensures Valid() && budget == old(budget)
      ensures stack == old(stack)[..|old(stack)| - 1] && block in finished && old(done) <= done
    {
      ghost var before := stack;
      done := done + {block};
      active := active - {block};
      finished := finished + [block];
      stack := stack[..|stack| - 1];
      MembersStep(graph, before, stack, finished, budget, block);
    }

    /** Lines 260 to 264, and line 252 for a decided branch. */
    method VisitAll(block: nat, successors: seq<nat>) returns (ok: bool)
      requires Valid() && stack != [] && stack[|stack| - 1] == block && block < |graph|
      requires successors == Next(graph[block])
      modifies this
      ensures budget <= old(budget)
      ensures ok ==> Valid() && stack == old(stack) && old(done) <= done
      ensures ok ==> forall s :: s in successors ==> s in finished
      ensures !ok ==> !Proven(graph)
      decreases budget, 1
    {
      for i := 0 to |successors|
        invariant budget <= old(budget) && Valid() && stack == old(stack) && old(done) <= done
        invariant forall k :: 0 <= k < i ==> successors[k] in done
      {
        SuccessorEnters(graph, stack, block, i);
        hide SearchState, Proven, Enters;
        ok := Visit(successors[i]);
        if !ok {
          return false;
        }
      }
      ok := true;
    }
  }

  lemma SuccessorEnters(g: Graph, stack: seq<nat>, block: nat, i: nat)
    requires WellFormed(g) && stack != [] && stack[|stack| - 1] == block && block < |g| && i < |Next(g[block])|
    ensures Enters(g, stack, Next(g[block])[i])
  {
  }

  lemma MembersStep(g: Graph, before: seq<nat>, stack: seq<nat>, finished: seq<nat>, budget: nat, b: nat)
    requires WellFormed(g) && SearchState(g, stack, finished, budget) && before == stack + [b]
    requires finished != [] && finished[|finished| - 1] == b
    ensures Members(stack) == Members(before) - {b}
    ensures Members(finished) == Members(finished[..|finished| - 1]) + {b}
  {
    var all := stack + finished;
    assert all[|all| - 1] == b;
    forall i | 0 <= i < |stack| ensures stack[i] != b {
      assert all[i] == stack[i];
    }
    assert finished == finished[..|finished| - 1] + [b];
  }

  /** Lines 238 to 244. */
  method CheckReturns(block: Block) returns (ok: bool)
    ensures ok == Accepts(block)
  {
    for i := 0 to |block.verdicts|
      invariant forall k :: 0 <= k < i ==> block.verdicts[k]
    {
      if !block.verdicts[i] {
        return false;
      }
    }
    ok := true;
  }

  /**
   * initRequiresCapability answers true exactly when there are blocks and
   * forced facts, nothing reachable lies on a cycle, every reachable return
   * is accepted and at most 256 blocks are reachable.
   */
  method RequiresCapability(g: Graph, anyFacts: bool) returns (ok: bool)
    requires WellFormed(g)
    ensures ok <==> g != [] && anyFacts && Proven(g)
  {
    if g == [] || !anyFacts {
      return false;
    }
    var search := new Search(g);
    ok := search.Visit(0);
    if ok {
      FinishedProves(g, search.finished);
    }
  }
}
