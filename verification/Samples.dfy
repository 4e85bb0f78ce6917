/** Recorded frames, their order statistics and histogram: the meaning of playdate/diagnostics. */
module Samples {
  import opened Common

  type uint64 = x: int | 0 <= x < 0x1_0000_0000_0000_0000

  type int64 = x: int | -0x8000_0000_0000_0000 <= x < 0x8000_0000_0000_0000

  const MAXIMUM_FRAMES: nat := 36_000
  const BUCKETS: nat := 256

  datatype Sample = Sample(milliseconds: uint32, heap: uint64, resources: uint32)

  /** The histogram bucket of a frame time. */
  function Bucket(milliseconds: nat): nat
  {
    if milliseconds >= BUCKETS then BUCKETS - 1 else milliseconds
  }

  function Times(samples: seq<Sample>): (r: seq<nat>)
    ensures |r| == |samples|
  {
    seq(|samples|, i requires 0 <= i < |samples| => samples[i].milliseconds)
  }

  function Sum(s: seq<nat>): nat
  {
    if s == [] then 0 else Sum(s[..|s| - 1]) + s[|s| - 1]
  }

  function Max(s: seq<nat>): nat
  {
    if s == [] then 0 else if s[|s| - 1] > Max(s[..|s| - 1]) then s[|s| - 1] else Max(s[..|s| - 1])
  }

  /** How many values are at most `limit`. */
  function CountAtMost(s: seq<nat>, limit: int): nat
  {
    if s == [] then 0 else CountAtMost(s[..|s| - 1], limit) + if s[|s| - 1] <= limit then 1 else 0
  }

  /** How many values fall into a bucket. */
  function CountIn(s: seq<nat>, bucket: nat): nat
  {
    if s == [] then 0 else CountIn(s[..|s| - 1], bucket) + if Bucket(s[|s| - 1]) == bucket then 1 else 0
  }

  /** How many values fall into the buckets below `limit`. */
  function CountBelow(s: seq<nat>, limit: nat): nat
  {
    if limit == 0 then 0 else CountBelow(s, limit - 1) + CountIn(s, limit - 1)
  }

  lemma {:induction false} MaxBounds(s: seq<nat>, i: nat)
    requires i < |s|
    ensures s[i] <= Max(s)
    decreases |s|
  {
    if i < |s| - 1 {
      MaxBounds(s[..|s| - 1], i);
    }
  }

  lemma {:induction false} CountBelowSnoc(s: seq<nat>, x: nat, limit: nat)
    ensures CountBelow(s + [x], limit) == CountBelow(s, limit) + if Bucket(x) < limit then 1 else 0
    decreases limit
  {
    if limit > 0 {
      CountBelowSnoc(s, x, limit - 1);
      assert (s + [x])[..|s|] == s;
    }
  }

  lemma {:induction false} CountBelowEmpty(limit: nat)
    ensures CountBelow([], limit) == 0
  {
    if limit > 0 {
      CountBelowEmpty(limit - 1);
    }
  }

  /** The lower buckets together count the values up to their bound; all buckets count all values. */
  lemma {:induction false} BucketsCount(s: seq<nat>, limit: nat)
    requires limit <= BUCKETS
    ensures CountBelow(s, limit) == if limit == BUCKETS then |s| else CountAtMost(s, limit - 1)
    decreases |s|
  {
    if s == [] {
      CountBelowEmpty(limit);
    } else {
      var rest := s[..|s| - 1];
      assert s == rest + [s[|s| - 1]];
      CountBelowSnoc(rest, s[|s| - 1], limit);
      BucketsCount(rest, limit);
    }
  }

  lemma {:induction false} CountAtMostBound(s: seq<nat>, limit: int)
    ensures CountAtMost(s, limit) <= |s|
    ensures (forall i :: 0 <= i < |s| ==> s[i] <= limit) ==> CountAtMost(s, limit) == |s|
  {
    if s != [] {
      CountAtMostBound(s[..|s| - 1], limit);
    }
  }

  // ------------------------------------------------------------ sorted samples

  ghost predicate Ascending(s: seq<nat>)
  {
    forall i, j :: 0 <= i < j < |s| ==> s[i] <= s[j]
  }

  /** Insertion from the right end. */
  function Insert(s: seq<nat>, x: nat): seq<nat>
  {
    if s == [] || s[|s| - 1] <= x then s + [x] else Insert(s[..|s| - 1], x) + [s[|s| - 1]]
  }

  function Sort(s: seq<nat>): seq<nat>
  {
    if s == [] then [] else Insert(Sort(s[..|s| - 1]), s[|s| - 1])
  }

  lemma {:induction false} InsertSpec(s: seq<nat>, x: nat, limit: int)
    ensures |Insert(s, x)| == |s| + 1
    ensures CountAtMost(Insert(s, x), limit) == CountAtMost(s, limit) + if x <= limit then 1 else 0
    decreases |s|
  {
    if s == [] || s[|s| - 1] <= x {
      assert (s + [x])[..|s|] == s;
    } else {
      var rest := s[..|s| - 1];
      InsertSpec(rest, x, limit);
      assert (Insert(rest, x) + [s[|s| - 1]])[..|s|] == Insert(rest, x);
    }
  }

  lemma {:induction false} InsertMultiset(s: seq<nat>, x: nat)
    ensures multiset(Insert(s, x)) == multiset(s) + multiset{x}
    decreases |s|
  {
    if s != [] && s[|s| - 1] > x {
      InsertMultiset(s[..|s| - 1], x);
      assert s == s[..|s| - 1] + [s[|s| - 1]];
    }
  }

  ghost predicate Bounded(s: seq<nat>, limit: nat)
  {
    forall i :: 0 <= i < |s| ==> s[i] <= limit
  }

  lemma {:induction false} InsertBounded(s: seq<nat>, x: nat, limit: nat)
    requires Bounded(s, limit) && x <= limit
    ensures Bounded(Insert(s, x), limit)
    decreases |s|
  {
    if s != [] && s[|s| - 1] > x {
      InsertBounded(s[..|s| - 1], x, limit);
    }
  }

  lemma AscendingSnoc(s: seq<nat>, x: nat)
    requires Ascending(s) && Bounded(s, x)
    ensures Ascending(s + [x])
  {
  }

  lemma {:induction false} InsertAscending(s: seq<nat>, x: nat)
    requires Ascending(s)
    ensures Ascending(Insert(s, x))
    decreases |s|
  {
    if s == [] || s[|s| - 1] <= x {
      AscendingSnoc(s, x);
    } else {
      var rest, last := s[..|s| - 1], s[|s| - 1];
      assert Ascending(rest) && Bounded(rest, last);
      hide Ascending, Bounded;
      InsertAscending(rest, x);
      InsertBounded(rest, x, last);
      AscendingSnoc(Insert(rest, x), last);
    }
  }

  /** Sort orders the values and keeps them all. */
  lemma {:induction false} SortSpec(s: seq<nat>, limit: int)
    ensures |Sort(s)| == |s| && Ascending(Sort(s)) && multiset(Sort(s)) == multiset(s)
    ensures CountAtMost(Sort(s), limit) == CountAtMost(s, limit)
  {
    if s != [] {
      var rest := s[..|s| - 1];
      assert s == rest + [s[|s| - 1]];
      SortSpec(rest, limit);
      InsertSpec(Sort(rest), s[|s| - 1], limit);
      InsertAscending(Sort(rest), s[|s| - 1]);
      InsertMultiset(Sort(rest), s[|s| - 1]);
      hide Ascending, CountAtMost, Insert;
    }
  }

  /** In an ascending list the element at `rank - 1` is at most `limit` exactly when `rank` elements are. */
  lemma {:induction false} RankCounts(s: seq<nat>, rank: nat, limit: int)
    requires Ascending(s) && 1 <= rank <= |s|
    ensures s[rank - 1] <= limit <==> CountAtMost(s, limit) >= rank
    decreases |s|
  {
    var rest := s[..|s| - 1];
    if s[|s| - 1] <= limit {
      assert s[rank - 1] <= s[|s| - 1];
      CountAtMostBound(s, limit);
    } else {
      CountAtMostBound(rest, limit);
      if rank < |s| {
        assert Ascending(rest);
        RankCounts(rest, rank, limit);
      }
    }
  }

  /** The nearest-rank value: the `rank`-th smallest. */
  function NearestRank(s: seq<nat>, rank: nat): nat
    requires 1 <= rank <= |s|
  {
    SortLength(s);
    Sort(s)[rank - 1]
  }

  lemma SortLength(s: seq<nat>)
    ensures |Sort(s)| == |s|
  {
    SortSpec(s, 0);
  }

  lemma NearestRankCounts(s: seq<nat>, rank: nat, limit: int)
    requires 1 <= rank <= |s|
    ensures NearestRank(s, rank) <= limit <==> CountAtMost(s, limit) >= rank
  {
    SortSpec(s, limit);
    RankCounts(Sort(s), rank, limit);
  }

  /** The nearest-rank value never exceeds the maximum. */
  lemma NearestRankMax(s: seq<nat>, rank: nat)
    requires 1 <= rank <= |s|
    ensures NearestRank(s, rank) <= Max(s)
  {
    forall i | 0 <= i < |s| ensures s[i] <= Max(s) {
      MaxBounds(s, i);
    }
    CountAtMostBound(s, Max(s));
    NearestRankCounts(s, rank, Max(s));
  }
}
