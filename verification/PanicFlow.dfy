/** The pending-defer worklist of internal/features/analyzer/device_source_rules.go. */
module PanicFlow {
  import opened Common

  /** What a statement of a block means to the rule; a panic carries its position. */
  datatype Node = Defer | Panic(pos: int) | Other

  datatype Block = Block(nodes: seq<Node>, successors: seq<nat>)

  type Graph = seq<Block>

  ghost predicate WellFormed(g: Graph)
  {
    g != [] && forall b, i :: 0 <= b < |g| && 0 <= i < |g[b].successors| ==> g[b].successors[i] < |g|
  }

  ghost predicate IsPath(g: Graph, path: seq<nat>)
    requires WellFormed(g)
  {
    && path != [] && path[0] == 0
    && (forall i :: 0 <= i < |path| ==> path[i] < |g|)
    && (forall i :: 0 <= i < |path| - 1 ==> path[i + 1] in g[path[i]].successors)
  }

  ghost predicate HasDefer(nodes: seq<Node>)
  {
    exists i :: 0 <= i < |nodes| && nodes[i].Defer?
  }

  /** Some block of the path holds a defer. */
  ghost predicate DeferOn(g: Graph, path: seq<nat>)
  {
    exists i :: 0 <= i < |path| && path[i] < |g| && HasDefer(g[path[i]].nodes)
  }

  /**
   * Some control-flow path from the entry reaches this panic after passing a
   * defer: in an earlier block of the path, or earlier in its last block.
   */
  ghost predicate Exposed(g: Graph, pos: int)
    requires WellFormed(g)
  {
    exists path: seq<nat>, n: nat :: ExposedBy(g, path, n, pos)
  }

  ghost predicate ExposedBy(g: Graph, path: seq<nat>, n: nat, pos: int)
    requires WellFormed(g)
  {
    && IsPath(g, path)
    && n < |g[path[|path| - 1]].nodes| && g[path[|path| - 1]].nodes[n] == Panic(pos)
    && (DeferOn(g, path[..|path| - 1]) || HasDefer(g[path[|path| - 1]].nodes[..n]))
  }

  // --------------------------------------------------------------- the states

  datatype State = State(block: nat, pending: bool)

  /** Some path ends where the state's block begins, with a defer passed iff the state says so. */
  ghost predicate Arrives(g: Graph, s: State)
    requires WellFormed(g)
  {
    exists path: seq<nat> :: ArrivesBy(g, s, path)
  }

  ghost predicate ArrivesBy(g: Graph, s: State, path: seq<nat>)
    requires WellFormed(g)
  {
    IsPath(g, path) && path[|path| - 1] == s.block && (s.pending <==> DeferOn(g, path[..|path| - 1]))
  }

  /** Whether a defer is pending after the block. */
  ghost predicate PendingAfter(g: Graph, s: State)
  {
    s.pending || (s.block < |g| && HasDefer(g[s.block].nodes))
  }

  /** Among the first `limit` statements a panic at `pos` comes after a defer, or one was pending before. */
  ghost predicate PanicIn(nodes: seq<Node>, pending: bool, limit: nat, pos: int)
    requires limit <= |nodes|
  {
    exists n :: 0 <= n < limit && nodes[n] == Panic(pos) && (pending || HasDefer(nodes[..n]))
  }

  /** A panic that the block reports when it is entered in this state. */
  ghost predicate ReportedIn(g: Graph, s: State, pos: int)
  {
    s.block < |g| && PanicIn(g[s.block].nodes, s.pending, |g[s.block].nodes|, pos)
  }

  lemma ArrivesStart(g: Graph)
    requires WellFormed(g)
    ensures Arrives(g, State(0, false))
  {
    var path: seq<nat> := [0];
    assert path[..0] == [];
    assert ArrivesBy(g, State(0, false), path);
  }

  lemma ArrivesNext(g: Graph, s: State, b: nat)
    requires WellFormed(g) && Arrives(g, s) && s.block < |g| && b in g[s.block].successors
    ensures b < |g| && Arrives(g, State(b, PendingAfter(g, s)))
  {
    var path: seq<nat> :| ArrivesBy(g, s, path);
    var longer := path + [b];
    PathGrows(g, path, b);
    assert longer[..|longer| - 1] == path;
    DeferSnoc(g, path);
    assert ArrivesBy(g, State(b, PendingAfter(g, s)), longer);
  }

  lemma PathGrows(g: Graph, path: seq<nat>, b: nat)
    requires WellFormed(g) && IsPath(g, path) && b in g[path[|path| - 1]].successors
    ensures IsPath(g, path + [b])
  {
    var longer := path + [b];
    forall i | 0 <= i < |longer| - 1 ensures longer[i + 1] in g[longer[i]].successors {
      if i < |path| - 1 {
        assert path[i + 1] in g[path[i]].successors;
      }
    }
  }

  /** A defer on a path is in its last block or before. */
  lemma DeferSnoc(g: Graph, path: seq<nat>)
    requires path != [] && path[|path| - 1] < |g|
    ensures DeferOn(g, path) <==> DeferOn(g, path[..|path| - 1]) || HasDefer(g[path[|path| - 1]].nodes)
  {
    var before := path[..|path| - 1];
    if DeferOn(g, path) {
      var i :| 0 <= i < |path| && path[i] < |g| && HasDefer(g[path[i]].nodes);
      if i < |before| {
        assert before[i] == path[i];
      }
    }
    if DeferOn(g, before) {
      var i :| 0 <= i < |before| && before[i] < |g| && HasDefer(g[before[i]].nodes);
      assert path[i] == before[i];
    }
  }

  /** What a state reports is exposed by a path. */
  lemma ReportsAreExposed(g: Graph, s: State, pos: int)
    requires WellFormed(g) && Arrives(g, s) && ReportedIn(g, s, pos)
    ensures Exposed(g, pos)
  {
    var path: seq<nat> :| ArrivesBy(g, s, path);
    var n: nat :| n < |g[s.block].nodes| && g[s.block].nodes[n] == Panic(pos)
      && (s.pending || HasDefer(g[s.block].nodes[..n]));
    assert ExposedBy(g, path, n, pos);
  }

  // ------------------------------------------------------------ the search set

  /** The visited states are closed under successors, up to what is still queued. */
  ghost predicate Closed(g: Graph, seen: set<State>, queue: seq<State>)
  {
    && (State(0, false) in seen || State(0, false) in queue)
    && (forall s, b :: s in seen && s.block < |g| && b in g[s.block].successors ==>
          State(b, PendingAfter(g, s)) in seen || State(b, PendingAfter(g, s)) in queue)
  }

  /** When the queue is empty every arrival has been visited. */
  lemma {:induction false} ArrivalsSeen(g: Graph, seen: set<State>, path: seq<nat>)
    requires WellFormed(g) && Closed(g, seen, []) && IsPath(g, path)
    ensures State(path[|path| - 1], DeferOn(g, path[..|path| - 1])) in seen
    decreases |path|
  {
    var before := path[..|path| - 1];
    if |path| == 1 {
      assert before == [];
    } else {
      assert IsPath(g, before) by {
        forall i | 0 <= i < |before| - 1 ensures before[i + 1] in g[before[i]].successors {
          assert path[i + 1] in g[path[i]].successors;
        }
      }
      ArrivalsSeen(g, seen, before);
      DeferSnoc(g, before);
      var s := State(before[|before| - 1], DeferOn(g, before[..|before| - 1]));
      assert path[|before|] in g[path[|before| - 1]].successors;
    }
  }

  ghost predicate ReportsOf(g: Graph, seen: set<State>, reported: set<int>)
  {
    forall pos :: pos in reported <==> exists s :: s in seen && ReportedIn(g, s, pos)
  }

  /** With every arrival visited, exactly the exposed panics have been reported. */
  lemma ReportsExact(g: Graph, seen: set<State>, reported: set<int>)
    requires WellFormed(g) && Closed(g, seen, []) && ReportsOf(g, seen, reported)
    requires forall s :: s in seen ==> Arrives(g, s)
    ensures forall pos :: pos in reported <==> Exposed(g, pos)
  {
    forall pos ensures pos in reported <==> Exposed(g, pos) {
      if pos in reported {
        var s :| s in seen && ReportedIn(g, s, pos);
        ReportsAreExposed(g, s, pos);
      }
      if Exposed(g, pos) {
        var path: seq<nat>, n: nat :| ExposedBy(g, path, n, pos);
        ArrivalsSeen(g, seen, path);
        assert ReportedIn(g, State(path[|path| - 1], DeferOn(g, path[..|path| - 1])), pos);
      }
    }
  }

  /** All states: two for every block. */
  ghost function AllStates(n: nat): set<State>
  {
    if n == 0 then {} else AllStates(n - 1) + {State(n - 1, false), State(n - 1, true)}
  }

  lemma {:induction false} AllStatesMembers(n: nat)
    ensures forall s :: s in AllStates(n) <==> s.block < n
  {
    if n > 0 {
      AllStatesMembers(n - 1);
    }
  }

  lemma {:induction false} AllStatesSize(n: nat)
    ensures |AllStates(n)| == 2 * n
  {
    if n > 0 {
      AllStatesStep(n);
      AllStatesMembers(n - 1);
      hide AllStates;
      AllStatesSize(n - 1);
      var fewer := AllStates(n - 1);
      assert State(n - 1, false) !in fewer && State(n - 1, true) !in fewer;
      TwoMore(fewer, State(n - 1, false), State(n - 1, true));
    }
  }

  lemma AllStatesStep(n: nat)
    requires n > 0
    ensures AllStates(n) == AllStates(n - 1) + {State(n - 1, false), State(n - 1, true)}
  {
  }

  lemma TwoMore(a: set<State>, x: State, y: State)
    requires x !in a && y !in a && x != y
    ensures |a + {x, y}| == |a| + 2
  {
    assert a + {x, y} == (a + {x}) + {y};
  }

  // ------------------------------------------------------------- the worklist

  /** Lines 58 to 79: one block, entered in one state. */
  method Scan(nodes: seq<Node>, pending: bool, reported: set<int>) returns (after: bool, now: set<int>)
    ensures after <==> pending || HasDefer(nodes)
    ensures forall pos :: pos in now <==> pos in reported || PanicIn(nodes, pending, |nodes|, pos)
  {
    after, now := pending, reported;
    for i := 0 to |nodes|
      invariant after <==> pending || HasDefer(nodes[..i])
      invariant forall pos :: pos in now <==> pos in reported || PanicIn(nodes, pending, i, pos)
    {
      ghost var before := after;
      HasDeferSnoc(nodes, i);
      if nodes[i].Defer? {
        after := true;
      } else if nodes[i].Panic? && after && nodes[i].pos !in now {
        now := now + {nodes[i].pos};
      }
    }
    assert nodes[..|nodes|] == nodes;
  }

  lemma HasDeferSnoc(nodes: seq<Node>, i: nat)
    requires i < |nodes|
    ensures HasDefer(nodes[..i + 1]) <==> HasDefer(nodes[..i]) || nodes[i].Defer?
  {
    if HasDefer(nodes[..i + 1]) {
      var k :| 0 <= k < i + 1 && nodes[..i + 1][k].Defer?;
      if k < i {
        assert nodes[..i][k].Defer?;
      }
    }
    if HasDefer(nodes[..i]) {
      var k :| 0 <= k < i && nodes[..i][k].Defer?;
      assert nodes[..i + 1][k].Defer?;
    }
    if nodes[i].Defer? {
      assert nodes[..i + 1][i].Defer?;
    }
  }

  /** The worklist's invariant. */
  ghost predicate Progressing(g: Graph, queue: seq<State>, seen: set<State>, reported: set<int>)
    requires WellFormed(g)
  {
    && (forall s :: s in queue ==> s.block < |g| && Arrives(g, s))
    && (forall s :: s in seen ==> s.block < |g| && Arrives(g, s))
    && Closed(g, seen, queue) && ReportsOf(g, seen, reported)
  }

  function Successors(blocks: seq<nat>, pending: bool): seq<State>
  {
    seq(|blocks|, i requires 0 <= i < |blocks| => State(blocks[i], pending))
  }

  lemma SkipSeen(g: Graph, queue: seq<State>, seen: set<State>, reported: set<int>)
    requires WellFormed(g) && Progressing(g, queue, seen, reported) && queue != [] && queue[0] in seen
    ensures Progressing(g, queue[1..], seen, reported)
  {
    hide Arrives, ReportsOf, PendingAfter;
    assert forall s :: s in queue ==> s == queue[0] || s in queue[1..];
  }

  lemma VisitState(g: Graph, queue: seq<State>, seen: set<State>, reported: set<int>, after: bool, now: set<int>)
    requires WellFormed(g) && Progressing(g, queue, seen, reported) && queue != []
    requires after <==> PendingAfter(g, queue[0])
    requires forall pos :: pos in now <==> pos in reported || ReportedIn(g, queue[0], pos)
    ensures Progressing(g, queue[1..] + Successors(g[queue[0].block].successors, after), seen + {queue[0]}, now)
  {
    var s := queue[0];
    var added := Successors(g[s.block].successors, after);
    forall b | b in g[s.block].successors ensures b < |g| && Arrives(g, State(b, after)) && State(b, after) in added {
      ArrivesNext(g, s, b);
      var i :| 0 <= i < |added| && g[s.block].successors[i] == b;
      assert added[i] == State(b, after);
    }
    assert ReportsOf(g, seen + {s}, now) by {
      hide ReportedIn;
    }
    hide Arrives, ReportsOf, PendingAfter, ReportedIn;
    assert forall t :: t in queue ==> t == s || t in queue[1..];
    assert forall t :: t in added ==> t.block in g[s.block].successors && t == State(t.block, after);
  }

  /**
   * reportPendingDeferPanic visits each state at most once, at most two per
   * block, and reports a panic exactly when some path from the entry reaches
   * it with a defer passed before.
   */
  method ReportPendingDeferPanic(g: Graph) returns (reported: set<int>, visits: nat)
    requires WellFormed(g)
    ensures forall pos :: pos in reported <==> Exposed(g, pos)
    ensures visits <= 2 * |g|
  {
    var queue := [State(0, false)];
    var seen: set<State> := {};
    reported, visits := {}, 0;
    ArrivesStart(g);
    AllStatesSize(|g|);
    ghost var all := AllStates(|g|);
    hide AllStates, HasDefer, Arrives, Exposed, ReportsOf;
    while queue != []
      invariant Progressing(g, queue, seen, reported)
      invariant visits == |seen| && seen <= all && visits <= |all|
      decreases |all| - visits, |queue|
    {
      hide Progressing;
      var current := queue[0];
      HeadKnown(g, queue, seen, reported);
      if current in seen {
        SkipSeen(g, queue, seen, reported);
        queue := queue[1..];
        continue;
      }
      var after, now := Scan(g[current.block].nodes, current.pending, reported);
      VisitState(g, queue, seen, reported, after, now);
      queue := queue[1..] + Successors(g[current.block].successors, after);
      seen := seen + {current};
      reported, visits := now, visits + 1;
      SubsetSize(seen, all);
    }
    ReportsExact(g, seen, reported);
  }

  lemma HeadKnown(g: Graph, queue: seq<State>, seen: set<State>, reported: set<int>)
    requires WellFormed(g) && Progressing(g, queue, seen, reported) && queue != []
    ensures queue[0].block < |g| && queue[0] in AllStates(|g|)
  {
    assert queue[0] in queue;
    AllStatesMembers(|g|);
  }
}
