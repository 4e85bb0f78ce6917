/** Small types shared by every module of the model. */
module Common {
  /** A value that may be absent: the source's nil pointers and comma-ok results. */
  datatype Option<+T> = None | Some(value: T)

  /** A computed value or the source's error value. */
  datatype Result<+T, +E> = Ok(value: T) | Err(error: E)

  /** One octet. */
  type byte = x: int | 0 <= x < 0x100

  type bytes = seq<byte>

  const U32: nat := 0x1_0000_0000

  /** Go's wrapping 32-bit unsigned integer. */
  type uint32 = x: int | 0 <= x < 0x1_0000_0000

  function Power2(n: nat): nat
  {
    if n == 0 then 1 else 2 * Power2(n - 1)
  }

  ghost function Members(s: seq<nat>): set<nat>
  {
    set x | x in s
  }

  /** `a` can be obtained from `b` by deleting elements and keeping the order. */
  ghost predicate Subseq<T>(a: seq<T>, b: seq<T>)
  {
    a == [] || (b != [] && ((a[0] == b[0] && Subseq(a[1..], b[1..])) || Subseq(a, b[1..])))
  }

  lemma {:induction false} SubseqReflexive<T>(a: seq<T>)
    ensures Subseq(a, a)
  {
    if a != [] {
      SubseqReflexive(a[1..]);
    }
  }

  lemma SubseqEmpty<T>(b: seq<T>)
    ensures Subseq([], b)
  {
  }

  lemma {:induction false} SubseqTransitive<T>(a: seq<T>, b: seq<T>, c: seq<T>)
    requires Subseq(a, b) && Subseq(b, c)
    ensures Subseq(a, c)
    decreases |a| + |b| + |c|
  {
    if a != [] {
      if b[0] == c[0] && Subseq(b[1..], c[1..]) {
        if a[0] == b[0] && Subseq(a[1..], b[1..]) {
          SubseqTransitive(a[1..], b[1..], c[1..]);
        } else {
          SubseqTransitive(a, b[1..], c[1..]);
        }
      } else {
        SubseqTransitive(a, b, c[1..]);
      }
    }
  }

  /** Deleting one element leaves a subsequence. */
  lemma {:induction false} SubseqDelete<T>(s: seq<T>, k: nat)
    requires k < |s|
    ensures Subseq(s[..k] + s[k + 1..], s)
  {
    var t := s[..k] + s[k + 1..];
    if k == 0 {
      assert t == s[1..];
      SubseqReflexive(s[1..]);
      if t != [] {
        assert Subseq(t, s[1..]);
      }
    } else {
      SubseqDelete(s[1..], k - 1);
      assert t[1..] == s[1..][..k - 1] + s[1..][k..];
    }
  }

  /** Elements of a subsequence come from the longer sequence, and stay distinct. */
  lemma {:induction false} SubseqElements<T>(a: seq<T>, b: seq<T>)
    requires Subseq(a, b)
    ensures |a| <= |b|
    ensures forall x :: x in a ==> x in b
    ensures Distinct(b) ==> Distinct(a)
    decreases |b|
  {
    if a != [] {
      if a[0] == b[0] && Subseq(a[1..], b[1..]) {
        SubseqElements(a[1..], b[1..]);
        assert a == [a[0]] + a[1..];
        assert b == [b[0]] + b[1..];
        if Distinct(b) {
          assert Distinct(b[1..]);
          assert a[0] !in a[1..];
        }
      } else {
        SubseqElements(a, b[1..]);
        if Distinct(b) {
          assert Distinct(b[1..]);
        }
      }
    }
  }

  ghost predicate Distinct<T>(s: seq<T>)
  {
    forall i, j :: 0 <= i < j < |s| ==> s[i] != s[j]
  }

  /** A subset has at most as many elements, and as many only if it is the whole set. */
  lemma {:induction false} SubsetSize<T>(a: set<T>, b: set<T>)
    requires a <= b
    ensures |a| <= |b|
    ensures |a| == |b| ==> a == b
  {
    if a != {} {
      var x :| x in a;
      SubsetSize(a - {x}, b - {x});
      assert a == (a - {x}) + {x};
      assert b == (b - {x}) + {x};
    }
  }

  /** `list` has each element of the set once, and nothing else. */
  ghost predicate Lists<T>(list: seq<T>, elements: set<T>)
  {
    Distinct(list) && (forall x :: x in list ==> x in elements) && (forall x :: x in elements ==> x in list)
  }

  /** Such a list is as long as the set is large. */
  lemma {:induction false} ListsSize<T>(list: seq<T>, elements: set<T>)
    requires Lists(list, elements)
    ensures |list| == |elements|
  {
    if list == [] {
      assert elements == {};
    } else {
      var last := list[|list| - 1];
      var rest := list[..|list| - 1];
      assert list == rest + [last];
      assert last !in rest;
      ListsSize(rest, elements - {last});
    }
  }

  lemma ListsSnoc<T>(list: seq<T>, elements: set<T>, x: T)
    requires Lists(list, elements) && x !in elements
    ensures Lists(list + [x], elements + {x})
  {
  }

  lemma ListsTail<T>(list: seq<T>, elements: set<T>)
    requires Lists(list, elements) && list != []
    ensures list[0] in elements && list[0] !in list[1..] && Lists(list[1..], elements - {list[0]})
  {
    assert list == [list[0]] + list[1..];
  }

  lemma ListsIndex<T>(list: seq<T>, elements: set<T>, x: T) returns (i: nat)
    requires Lists(list, elements) && x in elements
    ensures i < |list| && list[i] == x
  {
    i :| 0 <= i < |list| && list[i] == x;
  }

  /** `s` with all occurrences of `x` deleted. */
  function Omit<T(==)>(s: seq<T>, x: T): seq<T>
  {
    if s == [] then [] else (if s[0] == x then [] else [s[0]]) + Omit(s[1..], x)
  }

  lemma {:induction false} OmitMembers<T>(s: seq<T>, x: T)
    ensures forall y :: y in Omit(s, x) <==> y in s && y != x
    ensures |Omit(s, x)| <= |s| && (x !in s ==> Omit(s, x) == s) && (x in s ==> |Omit(s, x)| < |s|)
  {
    if s != [] {
      OmitMembers(s[1..], x);
      assert s == [s[0]] + s[1..];
    }
  }

  lemma {:induction false} OmitLists<T>(s: seq<T>, elements: set<T>, x: T)
    requires Lists(s, elements)
    ensures Lists(Omit(s, x), elements - {x})
  {
    OmitMembers(s, x);
    if s != [] {
      ListsTail(s, elements);
      OmitLists(s[1..], elements - {s[0]}, x);
      OmitMembers(s[1..], x);
    }
  }

  /** The next key of an iteration over a Go map: any that is left. */
  method AnyOf<T>(todo: set<T>) returns (x: T)
    requires todo != {}
    ensures x in todo
  {
    x :| x in todo;
  }
}
