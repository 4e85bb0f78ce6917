/** The shortest-witness fixpoint of internal/features/analyzer/device_reachability.go. */
module Reachability {
  import opened Common
  import opened PathOrder

  type Func = int
  type Rule = int

  /** A resolved callee: line 263, line 266, lines 269 and 272, lines 275 to 283. */
  datatype Callee =
    | Forbidden(rule: Rule, name: Name)
    | Boundary
    | Declared(func: Func)
    | Foreign(facts: map<Rule, Path>)

  /** `causes` are the forbidden features in the function itself. */
  datatype Function = Function(name: Name, calls: seq<Callee>, causes: map<Rule, Name>)

  type Package = map<Func, Function>

  type Found = map<Func, map<Rule, Path>>

  /** Imported facts were exported by this analysis, so their paths are not empty. */
  ghost predicate WellFormed(p: Package)
  {
    forall f, i, r :: f in p && 0 <= i < |p[f].calls| && p[f].calls[i].Foreign? && r in p[f].calls[i].facts ==>
      p[f].calls[i].facts[r] != []
  }

  // ------------------------------------------------------------------- chains

  /** `path` is a call chain from `f` to a forbidden feature under `r`. */
  ghost predicate IsChain(p: Package, f: Func, r: Rule, path: Path)
    decreases |path|, 0
  {
    f in p && path != [] && path[0] == p[f].name &&
    ((r in p[f].causes && path[1..] == [p[f].causes[r]]) ||
     exists i :: 0 <= i < |p[f].calls| && CalleeChain(p, p[f].calls[i], r, path[1..]))
  }

  ghost predicate CalleeChain(p: Package, c: Callee, r: Rule, path: Path)
    decreases |path|, 1
  {
    match c
    case Forbidden(rule, name) => r == rule && path == [name]
    case Boundary => false
    case Declared(g) => IsChain(p, g, r, path)
    case Foreign(facts) => r in facts && path == facts[r]
  }

  /** `path` is the least chain of `f` under `r`. */
  ghost predicate LeastChain(p: Package, f: Func, r: Rule, path: Path)
  {
    IsChain(p, f, r, path) && forall other :: IsChain(p, f, r, other) ==> AtMost(path, other)
  }

  lemma LeastChainUnique(p: Package, f: Func, r: Rule, a: Path, b: Path)
    requires LeastChain(p, f, r, a) && LeastChain(p, f, r, b)
    ensures a == b
  {
    AtMostAntisymmetric(a, b);
  }

  // ------------------------------------------------------------ the algorithm

  /** importedOrLocalPaths */
  function CalleePaths(found: Found, c: Callee): map<Rule, Path>
  {
    match c
    case Forbidden(rule, name) => map[rule := [name]]
    case Boundary => map[]
    case Declared(g) => if g in found then found[g] else map[]
    case Foreign(facts) => facts
  }

  function At(paths: map<Rule, Path>, r: Rule): Path
  {
    if r in paths then paths[r] else []
  }

  /** Lines 93 to 95. */
  function OwnPaths(f: Function): map<Rule, Path>
  {
    map r | r in f.causes :: [f.name, f.causes[r]]
  }

  function Initial(p: Package): Found
  {
    map f | f in p :: OwnPaths(p[f])
  }

  function Candidate(p: Package, found: Found, f: Func, i: nat, r: Rule): Path
    requires f in p && i < |p[f].calls| && r in CalleePaths(found, p[f].calls[i])
  {
    [p[f].name] + CalleePaths(found, p[f].calls[i])[r]
  }

  // -------------------------------------------------------------- correctness

  ghost predicate Covers(p: Package, found: Found, f: Func)
    requires f in p && f in found
  {
    forall r :: r in p[f].causes ==> r in found[f] && AtMost(found[f][r], [p[f].name, p[f].causes[r]])
  }

  ghost predicate Sound(p: Package, found: Found, f: Func)
    requires f in found
  {
    forall r :: r in found[f] ==> IsChain(p, f, r, found[f][r])
  }

  /** Every path found is a chain, and no worse than the function's own feature. */
  ghost predicate Correct(p: Package, found: Found)
  {
    found.Keys == p.Keys && forall f :: f in p ==> Sound(p, found, f) && Covers(p, found, f)
  }

  /** Another look at call `i` of `f` under `r` would change nothing. */
  ghost predicate Settled(p: Package, found: Found, f: Func, i: nat, r: Rule)
    requires f in p && f in found && i < |p[f].calls|
  {
    r in CalleePaths(found, p[f].calls[i]) ==>
      r in found[f] && AtMost(found[f][r], Candidate(p, found, f, i, r))
  }

  ghost predicate CallSettled(p: Package, found: Found, f: Func, i: nat)
    requires f in p && f in found && i < |p[f].calls|
  {
    forall r :: Settled(p, found, f, i, r)
  }

  ghost predicate FunctionSettled(p: Package, found: Found, f: Func)
    requires f in p && f in found
  {
    forall i :: 0 <= i < |p[f].calls| ==> CallSettled(p, found, f, i)
  }

  lemma InitialCorrect(p: Package)
    ensures Correct(p, Initial(p))
  {
    var found := Initial(p);
    forall f | f in p ensures Sound(p, found, f) && Covers(p, found, f) {
      forall r | r in found[f] ensures IsChain(p, f, r, found[f][r]) {
        assert found[f][r][1..] == [p[f].causes[r]];
      }
    }
  }

  /** A candidate is a chain. */
  lemma CandidateIsChain(p: Package, found: Found, f: Func, i: nat, r: Rule)
    requires Correct(p, found) && f in p && i < |p[f].calls| && r in CalleePaths(found, p[f].calls[i])
    ensures IsChain(p, f, r, Candidate(p, found, f, i, r))
  {
    var c := p[f].calls[i];
    var tail := CalleePaths(found, c)[r];
    assert CalleeChain(p, c, r, tail) by {
      if c.Declared? {
        assert Sound(p, found, c.func);
      }
    }
    assert Candidate(p, found, f, i, r)[1..] == tail;
  }

  lemma CandidateLong(p: Package, found: Found, f: Func, i: nat, r: Rule)
    requires WellFormed(p) && Correct(p, found) && f in p && i < |p[f].calls| && r in CalleePaths(found, p[f].calls[i])
    ensures |Candidate(p, found, f, i, r)| > 1
  {
    var c := p[f].calls[i];
    if c.Declared? {
      assert Sound(p, found, c.func);
    }
  }

  /** When everything is settled, each chain is matched by a path found that is at most as great. */
  lemma {:induction false} ChainsMatched(p: Package, found: Found, f: Func, r: Rule, path: Path)
    requires Correct(p, found) && (forall g :: g in p ==> FunctionSettled(p, found, g))
    requires IsChain(p, f, r, path)
    ensures r in found[f] && AtMost(found[f][r], path)
    decreases |path|
  {
    if r in p[f].causes && path[1..] == [p[f].causes[r]] {
      assert path == [p[f].name, p[f].causes[r]];
      assert Covers(p, found, f);
    } else {
      var i :| 0 <= i < |p[f].calls| && CalleeChain(p, p[f].calls[i], r, path[1..]);
      var c := p[f].calls[i];
      assert path == [p[f].name] + path[1..];
      if c.Declared? {
        ChainsMatched(p, found, c.func, r, path[1..]);
      }
      hide Correct, Covers;
      assert r in CalleePaths(found, c) && AtMost(CalleePaths(found, c)[r], path[1..]);
      assert FunctionSettled(p, found, f);
      assert CallSettled(p, found, f, i);
      assert Settled(p, found, f, i, r);
      hide AtMost, Less;
      PrependAtMost(p[f].name, CalleePaths(found, c)[r], path[1..]);
      AtMostTransitive(found[f][r], Candidate(p, found, f, i, r), path);
    }
  }

  lemma PrependAtMost(name: Name, a: Path, b: Path)
    requires AtMost(a, b)
    ensures AtMost([name] + a, [name] + b)
  {
    if a != b {
      PrependMonotone(name, a, b);
    }
  }

  /** A settled result holds exactly the least chains. */
  ghost predicate Exact(p: Package, found: Found)
  {
    && found.Keys == p.Keys
    && (forall f, r :: f in p && r in found[f] ==> LeastChain(p, f, r, found[f][r]))
    && (forall f, r, path :: IsChain(p, f, r, path) ==> r in found[f])
  }

  lemma SettledExact(p: Package, found: Found)
    requires Correct(p, found) && (forall g :: g in p ==> FunctionSettled(p, found, g))
    ensures Exact(p, found)
  {
    forall f, r, path | IsChain(p, f, r, path)
      ensures r in found[f] && AtMost(found[f][r], path)
    {
      ChainsMatched(p, found, f, r, path);
    }
    forall f, r | f in p && r in found[f] ensures LeastChain(p, f, r, found[f][r]) {
      assert Sound(p, found, f);
    }
  }

  /** Exact results agree, so the order of iteration does not matter. */
  lemma ExactUnique(p: Package, a: Found, b: Found)
    requires Exact(p, a) && Exact(p, b)
    ensures a == b
  {
    forall f | f in p ensures a[f] == b[f] {
      forall r | r in a[f] ensures r in b[f] && a[f][r] == b[f][r] {
        assert LeastChain(p, f, r, a[f][r]);
        LeastChainUnique(p, f, r, a[f][r], b[f][r]);
      }
      forall r | r in b[f] ensures r in a[f] {
        assert LeastChain(p, f, r, b[f][r]);
      }
      assert a[f].Keys == b[f].Keys;
    }
  }

  // -------------------------------------------------------------- termination

  ghost function Names(p: Package): set<Name>
  {
    (set f | f in p :: p[f].name)
    + (set f, r | f in p && r in p[f].causes :: p[f].causes[r])
    + (set f, i | f in p && 0 <= i < |p[f].calls| && p[f].calls[i].Forbidden? :: p[f].calls[i].name)
    + (set f, i, r, k | f in p && 0 <= i < |p[f].calls| && p[f].calls[i].Foreign?
                        && r in p[f].calls[i].facts && 0 <= k < |p[f].calls[i].facts[r]|
                      :: p[f].calls[i].facts[r][k])
  }

  ghost function Rules(p: Package): set<Rule>
  {
    (set f, r | f in p && r in p[f].causes :: r)
    + (set f, i | f in p && 0 <= i < |p[f].calls| && p[f].calls[i].Forbidden? :: p[f].calls[i].rule)
    + (set f, i, r | f in p && 0 <= i < |p[f].calls| && p[f].calls[i].Foreign? && r in p[f].calls[i].facts :: r)
  }

  ghost predicate Over(names: set<Name>, path: Path)
  {
    forall k :: 0 <= k < |path| ==> path[k] in names
  }

  /** All paths over some names up to a length. */
  ghost function PathsUpTo(names: set<Name>, length: nat): set<Path>
  {
    if length == 0 then {[]}
    else {[]} + set name, path | name in names && path in PathsUpTo(names, length - 1) :: [name] + path
  }

  lemma {:induction false} InPathsUpTo(names: set<Name>, length: nat, path: Path)
    requires Over(names, path) && |path| <= length
    ensures path in PathsUpTo(names, length)
    decreases length
  {
    if path != [] {
      InPathsUpTo(names, length - 1, path[1..]);
      assert path == [path[0]] + path[1..];
    }
  }

  ghost predicate Fits(p: Package, limit: nat, r: Rule, path: Path)
  {
    r in Rules(p) && Over(Names(p), path) && |path| <= limit
  }

  ghost predicate AllFit(p: Package, limit: nat, paths: map<Rule, Path>)
  {
    forall r :: r in paths ==> Fits(p, limit, r, paths[r])
  }

  /** Every path found uses the package's names and rules and is at most `limit` long. */
  ghost predicate Bounded(p: Package, found: Found, limit: nat)
  {
    found.Keys == p.Keys && forall f :: f in p ==> AllFit(p, limit, found[f])
  }

  ghost function Absent(p: Package, found: Found): set<(Func, Rule)>
    requires found.Keys == p.Keys
  {
    set f, r | f in p && r in Rules(p) && r !in found[f] :: (f, r)
  }

  /** The improvements that are still possible. */
  ghost function Better(p: Package, found: Found, limit: nat): set<(Func, Rule, Path)>
    requires found.Keys == p.Keys
  {
    set f, r, q | f in p && r in Rules(p) && q in PathsUpTo(Names(p), limit) && r in found[f] && Less(q, found[f][r]) :: (f, r, q)
  }

  /** `b` is nearer to the end than `a`. */
  ghost predicate Nearer(p: Package, a: Found, aLimit: nat, b: Found, bLimit: nat)
    requires a.Keys == p.Keys && b.Keys == p.Keys
  {
    || Absent(p, b) < Absent(p, a)
    || (Absent(p, b) == Absent(p, a) && aLimit == bLimit && Better(p, b, bLimit) < Better(p, a, aLimit))
  }

  lemma NearerTransitive(p: Package, a: Found, al: nat, b: Found, bl: nat, c: Found, cl: nat)
    requires a.Keys == p.Keys && b.Keys == p.Keys && c.Keys == p.Keys
    requires Nearer(p, a, al, b, bl) && Nearer(p, b, bl, c, cl)
    ensures Nearer(p, a, al, c, cl)
  {
  }

  lemma InitialBounded(p: Package)
    ensures Bounded(p, Initial(p), 2)
  {
    var found := Initial(p);
    forall f | f in p ensures AllFit(p, 2, found[f]) {
      forall r | r in found[f] ensures Fits(p, 2, r, found[f][r]) {
        assert r in p[f].causes && found[f][r] == [p[f].name, p[f].causes[r]];
      }
    }
  }

  lemma CandidateOver(p: Package, found: Found, limit: nat, f: Func, i: nat, r: Rule)
    requires Bounded(p, found, limit) && f in p && i < |p[f].calls| && r in CalleePaths(found, p[f].calls[i])
    ensures r in Rules(p) && Over(Names(p), Candidate(p, found, f, i, r))
  {
    var c := p[f].calls[i];
    assert p[f].name in Names(p);
    if c.Declared? {
      assert AllFit(p, limit, found[c.func]);
      assert Fits(p, limit, r, found[c.func][r]);
    } else if c.Forbidden? {
      assert c.name in Names(p);
    } else {
      forall k | 0 <= k < |c.facts[r]| ensures c.facts[r][k] in Names(p) {
        assert p[f].calls[i].facts[r][k] in Names(p);
      }
    }
  }

  /** Lines 106 to 111 for one call and rule. */
  function Improved(p: Package, found: Found, f: Func, i: nat, r: Rule): Found
    requires f in p && f in found && i < |p[f].calls| && r in CalleePaths(found, p[f].calls[i])
  {
    found[f := found[f][r := Choose(At(found[f], r), Candidate(p, found, f, i, r))]]
  }

  function LimitAfter(limit: nat, path: Path): nat
  {
    if |path| > limit then |path| else limit
  }

  lemma ImprovedCorrect(p: Package, found: Found, f: Func, i: nat, r: Rule)
    requires Correct(p, found) && f in p && i < |p[f].calls| && r in CalleePaths(found, p[f].calls[i])
    ensures Correct(p, Improved(p, found, f, i, r))
  {
    var candidate := Candidate(p, found, f, i, r);
    CandidateIsChain(p, found, f, i, r);
    ChooseLesser(At(found[f], r), candidate);
    var next := Improved(p, found, f, i, r);
    hide Choose, Candidate, CalleePaths, AtMost, CalleeChain;
    forall g | g in p ensures Sound(p, next, g) && Covers(p, next, g) {
      assert Sound(p, found, g) && Covers(p, found, g);
      if g == f && r in p[f].causes {
        assert IsChain(p, f, r, found[f][r]);
        assert found[f][r] != [];
        AtMostTransitive(next[f][r], found[f][r], [p[f].name, p[f].causes[r]]);
      }
    }
  }

  /** A change brings the fixpoint nearer. */
  lemma ImprovedNearer(p: Package, found: Found, limit: nat, f: Func, i: nat, r: Rule)
    requires Correct(p, found) && Bounded(p, found, limit)
    requires f in p && i < |p[f].calls| && r in CalleePaths(found, p[f].calls[i])
    requires Choose(At(found[f], r), Candidate(p, found, f, i, r)) != At(found[f], r)
    ensures var next := Improved(p, found, f, i, r);
            var nextLimit := LimitAfter(limit, next[f][r]);
            Bounded(p, next, nextLimit) && Nearer(p, found, limit, next, nextLimit)
  {
    var candidate := Candidate(p, found, f, i, r);
    CandidateOver(p, found, limit, f, i, r);
    ChooseLesser(At(found[f], r), candidate);
    var next := Improved(p, found, f, i, r);
    var chosen := next[f][r];
    hide Choose, Candidate, CalleePaths, Rules, Names, Less;
    assert next == With(found, f, r, chosen);
    assert chosen == candidate;
    if r in found[f] {
      assert |chosen| <= |found[f][r]| <= limit by {
        assert Sound(p, found, f);
        ShorterOrEqual(chosen, found[f][r]);
        assert AllFit(p, limit, found[f]);
      }
      InPathsUpTo(Names(p), limit, chosen);
      FewerBetter(p, found, limit, f, r, chosen);
    } else {
      FewerAbsent(p, found, f, r, chosen);
    }
    hide Improved, Absent, Better;
    WithBounded(p, found, limit, f, r, chosen);
  }

  lemma ShorterOrEqual(a: Path, b: Path)
    requires Less(a, b)
    ensures |a| <= |b|
  {
  }

  function With(found: Found, f: Func, r: Rule, path: Path): Found
    requires f in found
  {
    found[f := found[f][r := path]]
  }

  lemma WithBounded(p: Package, found: Found, limit: nat, f: Func, r: Rule, path: Path)
    requires Bounded(p, found, limit) && f in p && r in Rules(p) && Over(Names(p), path)
    ensures Bounded(p, With(found, f, r, path), LimitAfter(limit, path))
  {
    hide Rules, Names, Over;
    var next := With(found, f, r, path);
    var longer := LimitAfter(limit, path);
    forall g | g in p ensures AllFit(p, longer, next[g]) {
      assert AllFit(p, limit, found[g]);
      forall q | q in next[g] ensures Fits(p, longer, q, next[g][q]) {
        if g != f || q != r {
          assert Fits(p, limit, q, found[g][q]);
        }
      }
    }
  }

  lemma FewerAbsent(p: Package, found: Found, f: Func, r: Rule, path: Path)
    requires found.Keys == p.Keys && f in p && r in Rules(p) && r !in found[f]
    ensures Absent(p, With(found, f, r, path)) < Absent(p, found)
  {
    hide Rules;
    assert (f, r) in Absent(p, found) && (f, r) !in Absent(p, With(found, f, r, path));
  }

  lemma FewerBetter(p: Package, found: Found, limit: nat, f: Func, r: Rule, chosen: Path)
    requires found.Keys == p.Keys && f in p && r in Rules(p) && r in found[f]
    requires chosen in PathsUpTo(Names(p), limit) && Less(chosen, found[f][r])
    ensures var next := With(found, f, r, chosen);
            Absent(p, next) == Absent(p, found) && Better(p, next, limit) < Better(p, found, limit)
  {
    hide Rules, Names, PathsUpTo, Less;
    var next := With(found, f, r, chosen);
    LessIrreflexive(chosen);
    assert (f, r, chosen) in Better(p, found, limit) && (f, r, chosen) !in Better(p, next, limit);
    forall x | x in Better(p, next, limit) ensures x in Better(p, found, limit) {
      if x.0 == f && x.1 == r {
        LessTransitive(x.2, chosen, found[f][r]);
      }
    }
  }

  // ------------------------------------------------------------- the fixpoint

  /** The state of a pass over the functions that began with `start`. */
  ghost predicate Ongoing(p: Package, start: Found, startLimit: nat, now: Found, limit: nat, changed: bool)
  {
    && start.Keys == p.Keys
    && Correct(p, now) && Bounded(p, now, limit)
    && (if changed then Nearer(p, start, startLimit, now, limit) else now == start && limit == startLimit)
  }

  lemma OngoingStep(p: Package, start: Found, startLimit: nat, mid: Found, midLimit: nat, first: bool, now: Found, limit: nat, second: bool)
    requires Ongoing(p, start, startLimit, mid, midLimit, first) && Ongoing(p, mid, midLimit, now, limit, second)
    ensures Ongoing(p, start, startLimit, now, limit, first || second)
  {
    if first && second {
      hide Correct, Bounded, Nearer;
      NearerTransitive(p, start, startLimit, mid, midLimit, now, limit);
    }
  }

  lemma UnchangedSettled(p: Package, found: Found, f: Func, i: nat, r: Rule)
    requires f in p && f in found && i < |p[f].calls| && r in CalleePaths(found, p[f].calls[i])
    requires Choose(At(found[f], r), Candidate(p, found, f, i, r)) == At(found[f], r)
    ensures Settled(p, found, f, i, r)
  {
    ChooseLesser(At(found[f], r), Candidate(p, found, f, i, r));
  }

  lemma SameRules(p: Package, found: Found, f: Func, i: nat, r: Rule)
    requires f in p && f in found && i < |p[f].calls| && r in CalleePaths(found, p[f].calls[i])
    ensures CalleePaths(Improved(p, found, f, i, r), p[f].calls[i]).Keys == CalleePaths(found, p[f].calls[i]).Keys
  {
  }

  /** Lines 106 to 111. */
  method LookAtRule(p: Package, found: Found, f: Func, i: nat, r: Rule, ghost limit: nat)
    returns (next: Found, changed: bool, ghost nextLimit: nat)
    requires WellFormed(p) && Correct(p, found) && Bounded(p, found, limit)
    requires f in p && i < |p[f].calls| && r in CalleePaths(found, p[f].calls[i])
    ensures Ongoing(p, found, limit, next, nextLimit, changed)
    ensures !changed ==> Settled(p, found, f, i, r)
    ensures CalleePaths(next, p[f].calls[i]).Keys == CalleePaths(found, p[f].calls[i]).Keys
  {
    var candidate := [p[f].name] + CalleePaths(found, p[f].calls[i])[r];
    var selected := Choose(At(found[f], r), candidate);
    CandidateLong(p, found, f, i, r);
    JoinTellsChange(At(found[f], r), candidate);
    hide Correct, Bounded, Settled, Nearer, Choose, Join;
    if Join(selected) != Join(At(found[f], r)) {
      next, changed, nextLimit := found[f := found[f][r := selected]], true, LimitAfter(limit, selected);
      ImprovedCorrect(p, found, f, i, r);
      ImprovedNearer(p, found, limit, f, i, r);
      SameRules(p, found, f, i, r);
    } else {
      next, changed, nextLimit := found, false, limit;
      UnchangedSettled(p, found, f, i, r);
    }
  }

  /** Lines 104 to 112: one callee, its rules in any order. */
  method LookAtCall(p: Package, found: Found, f: Func, i: nat, ghost limit: nat)
    returns (now: Found, changed: bool, ghost nowLimit: nat)
    requires WellFormed(p) && Correct(p, found) && Bounded(p, found, limit)
    requires f in p && i < |p[f].calls|
    ensures Ongoing(p, found, limit, now, nowLimit, changed)
    ensures !changed ==> CallSettled(p, found, f, i)
  {
    assert found.Keys == p.Keys;
    hide Correct, Bounded, Settled, Nearer, CalleePaths;
    now, changed, nowLimit := found, false, limit;
    var todo := CalleePaths(found, p[f].calls[i]).Keys;
    while todo != {}
      invariant Ongoing(p, found, limit, now, nowLimit, changed)
      invariant todo <= CalleePaths(now, p[f].calls[i]).Keys
      invariant !changed ==> forall r :: r in CalleePaths(found, p[f].calls[i]) && r !in todo ==> Settled(p, found, f, i, r)
      decreases |todo|
    {
      var r := AnyOf(todo);
      ghost var mid, midLimit, first := now, nowLimit, changed;
      var second;
      now, second, nowLimit := LookAtRule(p, now, f, i, r, nowLimit);
      OngoingStep(p, found, limit, mid, midLimit, first, now, nowLimit, second);
      changed := changed || second;
      todo := todo - {r};
    }
    if !changed {
      forall r ensures Settled(p, found, f, i, r) {
        if r !in CalleePaths(found, p[f].calls[i]) {
          SettledTrivially(p, found, f, i, r);
        }
      }
    }
  }

  lemma SettledTrivially(p: Package, found: Found, f: Func, i: nat, r: Rule)
    requires f in p && f in found && i < |p[f].calls| && r !in CalleePaths(found, p[f].calls[i])
    ensures Settled(p, found, f, i, r)
  {
  }

  /** Lines 103 to 113: one function's callees in order. */
  method LookAtFunction(p: Package, found: Found, f: Func, ghost limit: nat)
    returns (now: Found, changed: bool, ghost nowLimit: nat)
    requires WellFormed(p) && Correct(p, found) && Bounded(p, found, limit) && f in p
    ensures Ongoing(p, found, limit, now, nowLimit, changed)
    ensures !changed ==> FunctionSettled(p, found, f)
  {
    assert found.Keys == p.Keys;
    hide Correct, Bounded, CallSettled, Nearer;
    now, changed, nowLimit := found, false, limit;
    for i := 0 to |p[f].calls|
      invariant Ongoing(p, found, limit, now, nowLimit, changed)
      invariant f in found && (!changed ==> forall k :: 0 <= k < i ==> CallSettled(p, found, f, k))
    {
      ghost var mid, midLimit, first := now, nowLimit, changed;
      var second;
      now, second, nowLimit := LookAtCall(p, now, f, i, nowLimit);
      OngoingStep(p, found, limit, mid, midLimit, first, now, nowLimit, second);
      changed := changed || second;
    }
  }

  /** Lines 101 to 114: one pass over the functions in any order. */
  method LookAtAll(p: Package, found: Found, ghost limit: nat)
    returns (now: Found, changed: bool, ghost nowLimit: nat)
    requires WellFormed(p) && Correct(p, found) && Bounded(p, found, limit)
    ensures Ongoing(p, found, limit, now, nowLimit, changed)
    ensures !changed ==> forall f :: f in p ==> FunctionSettled(p, found, f)
  {
    assert found.Keys == p.Keys;
    hide Correct, Bounded, FunctionSettled, Nearer;
    now, changed, nowLimit := found, false, limit;
    var todo := p.Keys;
    while todo != {}
      invariant Ongoing(p, found, limit, now, nowLimit, changed)
      invariant todo <= p.Keys && found.Keys == p.Keys
      invariant !changed ==> forall f :: f in p && f !in todo ==> FunctionSettled(p, found, f)
      decreases |todo|
    {
      var f := AnyOf(todo);
      ghost var mid, midLimit, first := now, nowLimit, changed;
      var second;
      now, second, nowLimit := LookAtFunction(p, now, f, nowLimit);
      OngoingStep(p, found, limit, mid, midLimit, first, now, nowLimit, second);
      changed := changed || second;
      todo := todo - {f};
    }
  }

  /**
   * Lines 93 to 115. The loop ends for every order of iteration, with exactly
   * the least chain for each function and rule that has a chain.
   */
  method Witnesses(p: Package) returns (found: Found)
    requires WellFormed(p)
    ensures Exact(p, found)
  {
    found := Initial(p);
    InitialCorrect(p);
    InitialBounded(p);
    ghost var limit := 2;
    var changed := true;
    hide Correct, Bounded, FunctionSettled, Absent, Better, Exact, Initial;
    while changed
      invariant found.Keys == p.Keys && Correct(p, found) && Bounded(p, found, limit)
      invariant !changed ==> forall f :: f in p ==> FunctionSettled(p, found, f)
      decreases Absent(p, found), Better(p, found, limit), changed
    {
      found, changed, limit := LookAtAll(p, found, limit);
    }
    SettledExact(p, found);
  }
}
