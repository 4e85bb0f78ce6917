/** The order on witness paths of internal/features/analyzer/device_reachability.go. */
module PathOrder {
  /** One byte of a name; names contain no NUL. */
  type Letter = x: int | 0 < x < 256 witness 1

  type Name = seq<Letter>

  type Path = seq<Name>

  /** strings.Join(path, "\x00") */
  function Join(path: Path): seq<int>
  {
    if path == [] then [] else if |path| == 1 then path[0] else path[0] + ([0] + Join(path[1..]))
  }

  /** Go's byte-wise string order. */
  predicate Before(a: seq<int>, b: seq<int>)
    decreases |a|
  {
    b != [] && (a == [] || a[0] < b[0] || (a[0] == b[0] && Before(a[1..], b[1..])))
  }

  /** The texts agree up to `k`, where `a` ends or has the smaller byte. */
  predicate DiffersAt(a: seq<int>, b: seq<int>, k: nat)
  {
    k <= |a| && k < |b| && a[..k] == b[..k] && (k == |a| || a[k] < b[k])
  }

  /** The order is the lexicographic one: the first difference decides, and a beginning comes first. */
  lemma {:induction false} BeforeExactly(a: seq<int>, b: seq<int>)
    ensures Before(a, b) <==> exists k: nat :: DiffersAt(a, b, k)
    decreases |a|
  {
    if a == [] || b == [] {
      if b != [] {
        assert DiffersAt(a, b, 0);
      }
    } else if a[0] == b[0] {
      BeforeExactly(a[1..], b[1..]);
      if Before(a, b) {
        var k: nat :| DiffersAt(a[1..], b[1..], k);
        assert a[..k + 1] == [a[0]] + a[1..][..k] && b[..k + 1] == [b[0]] + b[1..][..k];
        assert DiffersAt(a, b, k + 1);
      }
      if exists k: nat :: DiffersAt(a, b, k) {
        var k: nat :| DiffersAt(a, b, k);
        assert k > 0;
        assert a[1..][..k - 1] == a[..k][1..] && b[1..][..k - 1] == b[..k][1..];
        assert DiffersAt(a[1..], b[1..], k - 1);
      }
    } else {
      LaterDifference(a, b);
      if a[0] < b[0] {
        assert DiffersAt(a, b, 0);
      }
    }
  }

  lemma LaterDifference(a: seq<int>, b: seq<int>)
    requires a != [] && b != []
    ensures forall k: nat :: DiffersAt(a, b, k) && k > 0 ==> a[0] == b[0]
  {
    forall k: nat | DiffersAt(a, b, k) && k > 0 ensures a[0] == b[0] {
      assert a[..k][0] == b[..k][0];
    }
  }

  lemma {:induction false} BeforeIrreflexive(a: seq<int>)
    ensures !Before(a, a)
  {
    if a != [] {
      BeforeIrreflexive(a[1..]);
    }
  }

  lemma {:induction false} BeforeTransitive(a: seq<int>, b: seq<int>, c: seq<int>)
    requires Before(a, b) && Before(b, c)
    ensures Before(a, c)
    decreases |a|
  {
    if a != [] && a[0] == b[0] && b[0] == c[0] {
      BeforeTransitive(a[1..], b[1..], c[1..]);
    }
  }

  lemma {:induction false} BeforeTotal(a: seq<int>, b: seq<int>)
    requires a != b
    ensures Before(a, b) || Before(b, a)
    decreases |a|
  {
    if a != [] && b != [] && a[0] == b[0] {
      assert a == [a[0]] + a[1..] && b == [b[0]] + b[1..];
      BeforeTotal(a[1..], b[1..]);
    }
  }

  lemma {:induction false} BeforePrefix(c: seq<int>, a: seq<int>, b: seq<int>)
    ensures Before(c + a, c + b) <==> Before(a, b)
    decreases |c|
  {
    if c == [] {
      assert c + a == a && c + b == b;
    } else {
      assert (c + a)[1..] == c[1..] + a && (c + b)[1..] == c[1..] + b;
      BeforePrefix(c[1..], a, b);
    }
  }

  /** A name ends at its first NUL. */
  lemma SplitAtNul(x: Name, y: Name, s: seq<int>, t: seq<int>)
    requires x + ([0] + s) == y + ([0] + t)
    ensures x == y && s == t
  {
    var u: seq<int> := x + ([0] + s);
    assert u[|x|] == 0 && u[|y|] == 0;
    assert |x| == |y|;
    assert x == u[..|x|] && y == u[..|y|];
    assert s == u[|x| + 1..] && t == u[|y| + 1..];
  }

  lemma {:induction false} JoinInjective(a: Path, b: Path)
    requires |a| == |b| && Join(a) == Join(b)
    ensures a == b
    decreases |a|
  {
    if |a| == 1 {
      assert a == [a[0]] && b == [b[0]];
    } else if |a| > 1 {
      SplitAtNul(a[0], b[0], Join(a[1..]), Join(b[1..]));
      JoinInjective(a[1..], b[1..]);
      assert a == [a[0]] + a[1..] && b == [b[0]] + b[1..];
    }
  }

  /** Shorter paths first, then the joined texts in order. */
  predicate Less(a: Path, b: Path)
  {
    |a| < |b| || (|a| == |b| && Before(Join(a), Join(b)))
  }

  predicate AtMost(a: Path, b: Path)
  {
    a == b || Less(a, b)
  }

  lemma LessIrreflexive(a: Path)
    ensures !Less(a, a)
  {
    BeforeIrreflexive(Join(a));
  }

  lemma LessTransitive(a: Path, b: Path, c: Path)
    requires Less(a, b) && Less(b, c)
    ensures Less(a, c)
  {
    if |a| == |b| == |c| {
      BeforeTransitive(Join(a), Join(b), Join(c));
    }
  }

  lemma AtMostTransitive(a: Path, b: Path, c: Path)
    requires AtMost(a, b) && AtMost(b, c)
    ensures AtMost(a, c)
  {
    if a != b && b != c {
      LessTransitive(a, b, c);
    }
  }

  lemma LessTotal(a: Path, b: Path)
    requires !Less(a, b)
    ensures AtMost(b, a)
  {
    if |a| == |b| {
      if Join(a) == Join(b) {
        JoinInjective(a, b);
      } else {
        BeforeTotal(Join(a), Join(b));
      }
    }
  }

  lemma AtMostAntisymmetric(a: Path, b: Path)
    requires AtMost(a, b) && AtMost(b, a)
    ensures a == b
  {
    if a != b {
      LessTransitive(a, b, a);
      LessIrreflexive(a);
    }
  }

  /** Prepending one name to two paths keeps their order. */
  lemma PrependMonotone(name: Name, a: Path, b: Path)
    ensures Less([name] + a, [name] + b) <==> Less(a, b)
  {
    if |a| == |b| {
      if a == [] {
        assert [name] + a == [name] && [name] + b == [name];
        BeforeIrreflexive(Join([name]));
        BeforeIrreflexive(Join(a));
        assert a == b;
      } else {
        assert ([name] + a)[1..] == a && ([name] + b)[1..] == b;
        BeforePrefix(name, [0] + Join(a), [0] + Join(b));
        BeforePrefix([0], Join(a), Join(b));
      }
    }
  }

  /** chooseReachabilityPath; an absent path is empty. */
  function Choose(current: Path, candidate: Path): Path
  {
    if candidate == [] then current
    else if current == [] || |candidate| < |current|
            || (|candidate| == |current| && Before(Join(candidate), Join(current))) then candidate
    else current
  }

  /** The choice is the lesser of the two, and the current path only when it is not absent. */
  lemma ChooseLesser(current: Path, candidate: Path)
    requires candidate != []
    ensures var r := Choose(current, candidate);
            && r != [] && (r == current || r == candidate)
            && AtMost(r, candidate)
            && (current != [] ==> AtMost(r, current))
            && (r != current ==> current == [] || Less(r, current))
  {
    if current != [] && !Less(candidate, current) {
      LessTotal(candidate, current);
    }
  }

  /** Line 108 compares joined texts; that is the same as comparing the paths. */
  lemma JoinTellsChange(current: Path, candidate: Path)
    requires |candidate| > 1
    ensures Join(Choose(current, candidate)) != Join(current) <==> Choose(current, candidate) != current
  {
    if Choose(current, candidate) != current {
      if current == [] {
        assert |Join(candidate)| > 0;
      } else if Join(candidate) == Join(current) {
        if |candidate| == |current| {
          JoinInjective(candidate, current);
        } else {
          NulsCount(candidate);
          NulsCount(current);
        }
      }
    }
  }

  function Nuls(s: seq<int>): nat
  {
    if s == [] then 0 else (if s[0] == 0 then 1 else 0) + Nuls(s[1..])
  }

  lemma {:induction false} NulsAppend(a: Name, b: seq<int>)
    ensures Nuls(a + b) == Nuls(b)
  {
    if a == [] {
      assert a + b == b;
    } else {
      assert (a + b)[1..] == a[1..] + b;
      NulsAppend(a[1..], b);
    }
  }

  /** The joined text shows how many names it has. */
  lemma {:induction false} NulsCount(path: Path)
    requires path != []
    ensures Nuls(Join(path)) == |path| - 1
    decreases |path|
  {
    if |path| == 1 {
      NulsAppend(path[0], []);
      assert path[0] + [] == path[0];
    } else {
      NulsCount(path[1..]);
      NulsAppend(path[0], [0] + Join(path[1..]));
      assert ([0] + Join(path[1..]))[1..] == Join(path[1..]);
    }
  }
}
