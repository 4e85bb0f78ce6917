/**
 * The memoising executor of internal/features/analyzer/registry.go: goroutines
 * taking atomic steps over one table of executions.
 */
module ExecutorModel {
  import opened Common

  /** One analyzer on one package. */
  datatype Key = Key(analyzer: nat, pkg: nat)

  datatype Error = Cancelled | DependencyFailed(key: Key) | PassFailed(code: int)

  /** A pass's result value and diagnostics, as one opaque number, and its error. */
  datatype PassResult = PassResult(value: int, error: Option<Error>)

  /** The analyzers and packages of one run. `imports` lists a package's imports in identifier order. */
  datatype Program = Program(
    needs: nat -> seq<nat>,
    imports: nat -> seq<nat>,
    hasFacts: nat -> bool,
    isOwnership: nat -> bool,
    deep: bool,
    illTyped: nat -> bool,
    runsDespiteErrors: nat -> bool)
  {
    /** Lines 284 and 285. */
    predicate Traverses(analyzer: nat)
    {
      hasFacts(analyzer) && (!isOwnership(analyzer) || deep)
    }

    /** The executions run asks for, in order: required analyzers, then imports. */
    function Deps(k: Key): seq<Key>
    {
      OnPackage(needs(k.analyzer), k.pkg) + if Traverses(k.analyzer) then OnImports(k.analyzer, imports(k.pkg)) else []
    }

    /** Line 298. */
    predicate Skips(k: Key)
    {
      illTyped(k.pkg) && !runsDespiteErrors(k.analyzer)
    }
  }

  function OnPackage(analyzers: seq<nat>, pkg: nat): (r: seq<Key>)
    ensures |r| == |analyzers|
  {
    seq(|analyzers|, i requires 0 <= i < |analyzers| => Key(analyzers[i], pkg))
  }

  function OnImports(analyzer: nat, pkgs: seq<nat>): (r: seq<Key>)
    ensures |r| == |pkgs|
  {
    seq(|pkgs|, i requires 0 <= i < |pkgs| => Key(analyzer, pkgs[i]))
  }

  /**
   * Where one call of execute or run stands. A frame that is not on top of its
   * stack is Collecting and waits for the call above it.
   */
  datatype Phase =
    | Entering
    | Waiting
    | Starting
    | Collecting(next: nat, inputs: seq<int>)
    | Passing(inputs: seq<int>)
    | Finishing(result: PassResult)

  datatype Frame = Frame(key: Key, phase: Phase)

  /** The call that created the entry (by thread and depth) is a history variable; Done is a closed ready channel. */
  datatype Entry = Pending(thread: nat, depth: nat) | Done(result: PassResult)

  type Table = map<Key, Entry>

  /** A pass that ran: what it was given, and what came out of it. */
  datatype Pass = Pass(key: Key, inputs: seq<int>, out: PassResult)

  datatype Return = Return(key: Key, result: PassResult)

  /** Stacks have their top last. `started`, `passes` and `returned` are histories. */
  datatype State = State(
    threads: seq<seq<Frame>>,
    table: Table,
    cancelled: bool,
    started: seq<Key>,
    passes: seq<Pass>,
    returned: seq<Return>)

  function Initial(roots: seq<Key>): State
  {
    State(seq(|roots|, i requires 0 <= i < |roots| => [Frame(roots[i], Entering)]), map[], false, [], [], [])
  }

  function Top(stack: seq<Frame>): Frame
    requires stack != []
  {
    stack[|stack| - 1]
  }

  function Pop(stack: seq<Frame>): (r: seq<Frame>)
    requires stack != []
    ensures |r| == |stack| - 1
  {
    stack[..|stack| - 1]
  }

  function Rephase(stack: seq<Frame>, phase: Phase): (r: seq<Frame>)
    requires stack != []
    ensures |r| == |stack|
  {
    Pop(stack) + [Frame(Top(stack).key, phase)]
  }

  predicate IsDone(table: Table, k: Key)
  {
    k in table && table[k].Done?
  }

  /** A goroutine blocks only on an unready execution. */
  predicate Enabled(s: State, t: nat)
  {
    t < |s.threads| && s.threads[t] != [] &&
    (Top(s.threads[t]).phase.Waiting? ==> IsDone(s.table, Top(s.threads[t]).key))
  }

  /** What a caller does with a dependency's result. */
  function Received(key: Key, phase: Phase, r: PassResult): Phase
  {
    if !phase.Collecting? then phase
    else if r.error.Some? then Finishing(PassResult(0, Some(DependencyFailed(key))))
    else Collecting(phase.next + 1, phase.inputs + [r.value])
  }

  /** Pops a finished call and hands its result to the caller below. */
  function Deliver(stack: seq<Frame>, r: PassResult): seq<Frame>
    requires stack != []
  {
    var below := Pop(stack);
    if below == [] then [] else Rephase(below, Received(Top(stack).key, Top(below).phase, r))
  }

  function SetThread(s: State, t: nat, stack: seq<Frame>): State
    requires t < |s.threads|
  {
    s.(threads := s.threads[t := stack])
  }

  /** Lines 250 to 258: look the key up, or claim it. */
  function EnterStep(s: State, t: nat): State
    requires t < |s.threads| && s.threads[t] != []
  {
    var k := Top(s.threads[t]).key;
    if k in s.table then SetThread(s, t, Rephase(s.threads[t], Waiting))
    else SetThread(s, t, Rephase(s.threads[t], Starting)).(
      table := s.table[k := Pending(t, |s.threads[t]| - 1)], started := s.started + [k])
  }

  /** Lines 253 and 254: the ready channel is closed. */
  function WaitStep(s: State, t: nat): State
    requires Enabled(s, t) && Top(s.threads[t]).phase.Waiting?
  {
    var k := Top(s.threads[t]).key;
    var r := s.table[k].result;
    SetThread(s, t, Deliver(s.threads[t], r)).(returned := s.returned + [Return(k, r)])
  }

  /** Lines 268 to 271. */
  function StartStep(s: State, t: nat): State
    requires t < |s.threads| && s.threads[t] != []
  {
    SetThread(s, t, Rephase(s.threads[t],
      if s.cancelled then Finishing(PassResult(0, Some(Cancelled))) else Collecting(0, [])))
  }

  /** Lines 273 to 300: ask for the next dependency, or go on to the pass. */
  function CollectStep(p: Program, s: State, t: nat): State
    requires t < |s.threads| && s.threads[t] != [] && Top(s.threads[t]).phase.Collecting?
  {
    var f := Top(s.threads[t]);
    var deps := p.Deps(f.key);
    if f.phase.next < |deps| then SetThread(s, t, s.threads[t] + [Frame(deps[f.phase.next], Entering)])
    else SetThread(s, t, Rephase(s.threads[t],
      if p.Skips(f.key) then Finishing(PassResult(0, None)) else Passing(f.phase.inputs)))
  }

  /** Lines 301 to 318: the pass itself, with any outcome. */
  function PassStep(s: State, t: nat, out: PassResult): State
    requires t < |s.threads| && s.threads[t] != [] && Top(s.threads[t]).phase.Passing?
  {
    var f := Top(s.threads[t]);
    SetThread(s, t, Rephase(s.threads[t], Finishing(out))).(passes := s.passes + [Pass(f.key, f.phase.inputs, out)])
  }

  /** Lines 260 to 264: publish the result, close the channel and return. */
  function FinishStep(s: State, t: nat): State
    requires t < |s.threads| && s.threads[t] != [] && Top(s.threads[t]).phase.Finishing?
  {
    var f := Top(s.threads[t]);
    SetThread(s, t, Deliver(s.threads[t], f.phase.result)).(
      table := s.table[f.key := Done(f.phase.result)],
      returned := s.returned + [Return(f.key, f.phase.result)])
  }

  function Advance(p: Program, s: State, t: nat, out: PassResult): State
    requires Enabled(s, t)
  {
    match Top(s.threads[t]).phase
    case Entering => EnterStep(s, t)
    case Waiting => WaitStep(s, t)
    case Starting => StartStep(s, t)
    case Collecting(_, _) => CollectStep(p, s, t)
    case Passing(_) => PassStep(s, t, out)
    case Finishing(_) => FinishStep(s, t)
  }

  /** One choice of the Go scheduler, or the cancellation of the context. */
  datatype Choice = Go(thread: nat, out: PassResult) | Cancel

  predicate Allowed(s: State, c: Choice)
  {
    if c.Cancel? then !s.cancelled else Enabled(s, c.thread)
  }

  function Take(p: Program, s: State, c: Choice): State
    requires Allowed(s, c)
  {
    if c.Cancel? then s.(cancelled := true) else Advance(p, s, c.thread, c.out)
  }

  /** `schedule` is an interleaving from `s`, and `last` where it ends. */
  ghost predicate Runs(p: Program, s: State, schedule: seq<Choice>, last: State)
    decreases |schedule|
  {
    if schedule == [] then last == s
    else Allowed(s, schedule[0]) && Runs(p, Take(p, s, schedule[0]), schedule[1..], last)
  }

  predicate Finished(s: State)
  {
    forall t :: 0 <= t < |s.threads| ==> s.threads[t] == []
  }
}
