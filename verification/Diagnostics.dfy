/** playdate/diagnostics/diagnostics.go: the bounded frame collector. */
module Diagnostics {
  import opened Common
  import opened Samples

  datatype RecordError = FrameLimit | Complete

  /** The mean is an exact quotient here. */
  datatype Report = Report(
    frames: uint32, dropped: uint32, mean: real,
    p50: uint32, p95: uint32, p99: uint32, max: uint32,
    heapStart: uint64, heapEnd: uint64, heapMax: uint64, heapGrowth: int64,
    resourcesStart: uint32, resourcesEnd: uint32, resourcesMinimum: uint32, resourcesMaximum: uint32)

  const EMPTY: Report := Report(0, 0, 0.0, 0, 0, 0, 0, 0, 0, 0, 0, 0, 0, 0, 0)

  /** signedGrowth: the difference, saturated to 64 bits. */
  function SignedGrowth(start: uint64, end: uint64): (r: int64)
    ensures -0x8000_0000_0000_0000 <= end - start < 0x8000_0000_0000_0000 ==> r == end - start
    ensures end - start >= 0x8000_0000_0000_0000 ==> r == 0x7FFF_FFFF_FFFF_FFFF
    ensures end - start < -0x8000_0000_0000_0000 ==> r == -0x8000_0000_0000_0000
  {
    var max: int := 0x7FFF_FFFF_FFFF_FFFF;
    if end >= start then
      var growth: int := end - start;
      if growth > max then max else growth
    else
      var shrink: int := start - end;
      if shrink >= max + 1 then -max - 1 else -shrink
  }

  /** The rank of a percentile among `frames` samples, rounded up. */
  function RankOf(frames: nat, percent: nat): nat
  {
    (frames * percent + 99) / 100
  }

  lemma RankFits(frames: nat, percent: nat)
    requires 1 <= frames <= MAXIMUM_FRAMES && 1 <= percent <= 100
    ensures 1 <= RankOf(frames, percent) <= frames
    ensures frames * percent + 99 < U32
  {
    MultiplyMonotone(frames, percent, 100);
    MultiplyMonotone(frames, 1, percent);
  }

  lemma MultiplyMonotone(a: nat, b: nat, c: nat)
    requires b <= c
    ensures a * b <= a * c
  {
  }

  /** The nearest-rank percentile of the sorted frame times. */
  function Exact(times: seq<nat>, percent: nat): nat
    requires 1 <= |times| <= MAXIMUM_FRAMES && 1 <= percent <= 100
  {
    RankFits(|times|, percent);
    NearestRank(times, RankOf(|times|, percent))
  }

  /** The reported percentile: exact below the last bucket, and the maximum when the last bucket hides more. */
  function Percentile(times: seq<nat>, percent: nat): nat
    requires 1 <= |times| <= MAXIMUM_FRAMES && 1 <= percent <= 100
  {
    var exact := Exact(times, percent);
    if exact < BUCKETS - 1 || Max(times) <= BUCKETS - 1 then exact else Max(times)
  }

  /**
   * A reported percentile never understates, never exceeds the maximum, and
   * overstates exactly when the nearest-rank value lies in the last bucket
   * below a maximum that the bucket cannot show.
   */
  lemma PercentileBounds(times: seq<nat>, percent: nat)
    requires 1 <= |times| <= MAXIMUM_FRAMES && 1 <= percent <= 100
    ensures Exact(times, percent) <= Percentile(times, percent) <= Max(times)
    ensures Percentile(times, percent) != Exact(times, percent) <==>
              255 <= Exact(times, percent) < Max(times)
  {
    RankFits(|times|, percent);
    NearestRankMax(times, RankOf(|times|, percent));
  }

  ghost function HeapMax(samples: seq<Sample>): nat
  {
    if samples == [] then 0
    else
      var before := HeapMax(samples[..|samples| - 1]);
      if samples[|samples| - 1].heap > before then samples[|samples| - 1].heap else before
  }

  ghost predicate LeastResources(samples: seq<Sample>, least: uint32)
  {
    if samples == [] then least == 0
    else (exists i :: 0 <= i < |samples| && samples[i].resources == least)
         && (forall i :: 0 <= i < |samples| ==> least <= samples[i].resources)
  }

  ghost predicate MostResources(samples: seq<Sample>, most: uint32)
  {
    if samples == [] then most == 0
    else (exists i :: 0 <= i < |samples| && samples[i].resources == most)
         && (forall i :: 0 <= i < |samples| ==> samples[i].resources <= most)
  }

  ghost predicate Histogram(times: seq<nat>, buckets: seq<uint32>)
  {
    |buckets| == BUCKETS && forall b :: 0 <= b < BUCKETS ==> buckets[b] == CountIn(times, b)
  }

  /** The first buckets of a histogram sum to the number of values that fall into them. */
  lemma {:induction false} HistogramSum(times: seq<nat>, buckets: seq<uint32>, n: nat)
    requires Histogram(times, buckets) && n <= BUCKETS
    ensures Sum(buckets[..n]) == CountBelow(times, n)
  {
    if n > 0 {
      HistogramSum(times, buckets, n - 1);
      assert buckets[..n][..n - 1] == buckets[..n - 1];
      hide CountIn;
    }
  }

  lemma {:induction false} CountInBound(times: seq<nat>, bucket: nat)
    ensures CountIn(times, bucket) <= |times|
  {
    if times != [] {
      CountInBound(times[..|times| - 1], bucket);
    }
  }

  lemma {:induction false} SumBound(times: seq<nat>)
    requires forall i :: 0 <= i < |times| ==> times[i] < U32
    ensures Sum(times) <= |times| * 0xFFFF_FFFF
  {
    if times != [] {
      SumBound(times[..|times| - 1]);
    }
  }

  lemma TimesSnoc(samples: seq<Sample>, sample: Sample)
    ensures Times(samples + [sample]) == Times(samples) + [sample.milliseconds]
  {
  }

  /** One more frame raises exactly its own bucket. */
  lemma HistogramSnoc(times: seq<nat>, x: nat, buckets: seq<uint32>)
    requires Histogram(times, buckets) && |times| < MAXIMUM_FRAMES
    ensures buckets[Bucket(x)] < 0xFFFF_FFFF
    ensures Histogram(times + [x], buckets[Bucket(x) := buckets[Bucket(x)] + 1])
  {
    CountInBound(times, Bucket(x));
    var longer := times + [x];
    assert longer[..|times|] == times;
    hide Bucket;
    forall b | 0 <= b < BUCKETS ensures CountIn(longer, b) == CountIn(times, b) + if Bucket(x) == b then 1 else 0 {
    }
  }

  lemma StatsSnoc(times: seq<nat>, x: nat)
    ensures Sum(times + [x]) == Sum(times) + x
    ensures Max(times + [x]) == if x > Max(times) then x else Max(times)
  {
    assert (times + [x])[..|times|] == times;
  }

  lemma HeapSnoc(samples: seq<Sample>, sample: Sample)
    ensures HeapMax(samples + [sample]) == if sample.heap > HeapMax(samples) then sample.heap else HeapMax(samples)
  {
    assert (samples + [sample])[..|samples|] == samples;
  }

  lemma ResourcesSnoc(samples: seq<Sample>, sample: Sample, least: uint32, most: uint32)
    requires LeastResources(samples, least) && MostResources(samples, most)
    ensures LeastResources(samples + [sample], if samples == [] || sample.resources < least then sample.resources else least)
    ensures MostResources(samples + [sample], if sample.resources > most then sample.resources else most)
  {
    var longer := samples + [sample];
    assert longer[|samples|] == sample;
    if samples != [] {
      var i :| 0 <= i < |samples| && samples[i].resources == least;
      var j :| 0 <= j < |samples| && samples[j].resources == most;
      assert longer[i] == samples[i] && longer[j] == samples[j];
    }
  }

  /** The summary fields of the collector for the samples recorded so far. */
  datatype Summary = Summary(
    frames: uint32, total: uint64, max: uint32, heapStart: uint64, heapEnd: uint64, heapMax: uint64,
    resourceMin: uint32, resourceMax: uint32, resourceBeg: uint32, resourceEnd: uint32)

  ghost predicate Summarizes(s: Summary, samples: seq<Sample>)
  {
    && s.frames == |samples| && s.total == Sum(Times(samples)) && s.max == Max(Times(samples))
    && s.heapMax == HeapMax(samples)
    && LeastResources(samples, s.resourceMin) && MostResources(samples, s.resourceMax)
    && (samples != [] ==>
          && s.heapStart == samples[0].heap && s.heapEnd == samples[|samples| - 1].heap
          && s.resourceBeg == samples[0].resources && s.resourceEnd == samples[|samples| - 1].resources)
  }

  /** Lines 84 to 93 and 99 to 109. */
  function Updated(s: Summary, sample: Sample): Summary
    requires s.frames < 0xFFFF_FFFF && s.total + sample.milliseconds < 0x1_0000_0000_0000_0000
  {
    var first := s.frames == 0;
    var least := if first then sample.resources else s.resourceMin;
    Summary(
      s.frames + 1, s.total + sample.milliseconds,
      if sample.milliseconds > s.max then sample.milliseconds else s.max,
      if first then sample.heap else s.heapStart, sample.heap,
      if sample.heap > s.heapMax then sample.heap else s.heapMax,
      if sample.resources < least then sample.resources else least,
      if sample.resources > s.resourceMax then sample.resources else s.resourceMax,
      if first then sample.resources else s.resourceBeg, sample.resources)
  }

  /** The 64-bit total cannot wrap within the frame limit. */
  lemma TotalFits(s: Summary, samples: seq<Sample>, sample: Sample)
    requires Summarizes(s, samples) && |samples| < MAXIMUM_FRAMES
    ensures s.total + sample.milliseconds < 0x1_0000_0000_0000_0000
  {
    SumBound(Times(samples));
  }

  lemma UpdatedSummarizes(s: Summary, samples: seq<Sample>, sample: Sample)
    requires Summarizes(s, samples) && |samples| < MAXIMUM_FRAMES
    requires s.total + sample.milliseconds < 0x1_0000_0000_0000_0000
    ensures Summarizes(Updated(s, sample), samples + [sample])
  {
    TimesSnoc(samples, sample);
    StatsSnoc(Times(samples), sample.milliseconds);
    HeapSnoc(samples, sample);
    ResourcesSnoc(samples, sample, s.resourceMin, s.resourceMax);
    hide Sum, Max, HeapMax, LeastResources, MostResources, Times;
  }

  class Collector {
    const limit: uint32
    var frames: uint32
    var dropped: uint32
    var frameTotal: uint64
    var frameMax: uint32
    const buckets: array<uint32>
    var heapStart: uint64
    var heapEnd: uint64
    var heapMax: uint64
    var resourceMin: uint32
    var resourceMax: uint32
    var resourceBeg: uint32
    var resourceEnd: uint32
    ghost var samples: seq<Sample>

    ghost function Fields(): Summary
      reads this
    {
      Summary(frames, frameTotal, frameMax, heapStart, heapEnd, heapMax, resourceMin, resourceMax, resourceBeg, resourceEnd)
    }

    ghost predicate Valid()
      reads this, buckets
    {
      && |samples| <= limit <= MAXIMUM_FRAMES
      && Summarizes(Fields(), samples) && Histogram(Times(samples), buckets[..])
    }

    /** A limit of zero is the zero value. */
    constructor (limit: uint32)
      requires limit <= MAXIMUM_FRAMES
      ensures Valid() && fresh(buckets) && this.limit == limit && samples == [] && dropped == 0
    {
      this.limit := limit;
      frames, dropped, frameTotal, frameMax, samples := 0, 0, 0, 0, [];
      buckets := new uint32[BUCKETS](_ => 0);
      heapStart, heapEnd, heapMax := 0, 0, 0;
      resourceMin, resourceMax, resourceBeg, resourceEnd := 0, 0, 0, 0;
    }

    /** New accepts exactly the limits from 1 to 36000. */
    static method New(frameLimit: int) returns (r: Option<Collector>)
      ensures r.Some? <==> 1 <= frameLimit <= 36_000
      ensures r.Some? ==> fresh(r.value) && fresh(r.value.buckets) && r.value.Valid()
                          && r.value.limit == frameLimit && r.value.samples == []
    {
      if frameLimit < 1 || frameLimit > MAXIMUM_FRAMES {
        return None;
      }
      var c := new Collector(frameLimit);
      r := Some(c);
    }

    /** A sample is recorded until the limit is reached; later ones are only counted. */
    method Record(sample: Sample) returns (error: Option<RecordError>)
      requires Valid()
      modifies this, buckets
      ensures Valid()
      ensures error == (if limit == 0 then Some(FrameLimit) else if |old(samples)| == limit then Some(Complete) else None)
      ensures samples == (if error.None? then old(samples) + [sample] else old(samples))
      ensures dropped == (if error == Some(Complete) then (old(dropped) + 1) % 0x1_0000_0000 else old(dropped))
    {
      if limit == 0 {
        return Some(FrameLimit);
      }
      if frames == limit {
        dropped := (dropped + 1) % 0x1_0000_0000;
        return Some(Complete);
      }
      Accept(sample);
      error := None;
    }

    /** Lines 84 to 110. */
    method Accept(sample: Sample)
      requires Valid() && |samples| < limit
      modifies this, buckets
      ensures Valid() && samples == old(samples) + [sample] && dropped == old(dropped)
    {
      ghost var before, counts := Fields(), buckets[..];
      TotalFits(before, samples, sample);
      UpdatedSummarizes(before, samples, sample);
      TimesSnoc(samples, sample);
      HistogramSnoc(Times(samples), sample.milliseconds, counts);
      hide Summarizes, Histogram, Times, Updated, Bucket;
      UpdateFields(sample);
      Count(sample.milliseconds);
      samples := samples + [sample];
      assert Fields() == Updated(before, sample);
    }

    method UpdateFields(sample: Sample)
      requires frames < 0xFFFF_FFFF && frameTotal + sample.milliseconds < 0x1_0000_0000_0000_0000
      modifies this
      ensures Fields() == Updated(old(Fields()), sample)
      ensures samples == old(samples) && dropped == old(dropped)
    {
      var first := frames == 0;
      UpdateFrames(sample.milliseconds);
      UpdateHeap(first, sample.heap);
      UpdateResources(first, sample.resources);
    }

    /** Lines 89 to 93. */
    method UpdateFrames(milliseconds: uint32)
      requires frames < 0xFFFF_FFFF && frameTotal + milliseconds < 0x1_0000_0000_0000_0000
      modifies this`frames, this`frameTotal, this`frameMax
      ensures frames == old(frames) + 1 && frameTotal == old(frameTotal) + milliseconds
      ensures frameMax == if milliseconds > old(frameMax) then milliseconds else old(frameMax)
    {
      frames := frames + 1;
      frameTotal := frameTotal + milliseconds;
      if milliseconds > frameMax {
        frameMax := milliseconds;
      }
    }

    /** Lines 85 and 99 to 102. */
    method UpdateHeap(first: bool, heap: uint64)
      modifies this`heapStart, this`heapEnd, this`heapMax
      ensures heapStart == (if first then heap else old(heapStart)) && heapEnd == heap
      ensures heapMax == if heap > old(heapMax) then heap else old(heapMax)
    {
      if first {
        heapStart := heap;
      }
      heapEnd := heap;
      if heap > heapMax {
        heapMax := heap;
      }
    }

    /** Lines 86, 87 and 103 to 109. */
    method UpdateResources(first: bool, resources: uint32)
      modifies this`resourceBeg, this`resourceMin, this`resourceMax, this`resourceEnd
      ensures resourceBeg == (if first then resources else old(resourceBeg)) && resourceEnd == resources
      ensures resourceMin == if first || resources < old(resourceMin) then resources else old(resourceMin)
      ensures resourceMax == if resources > old(resourceMax) then resources else old(resourceMax)
    {
      if first {
        resourceBeg := resources;
        resourceMin := resources;
      }
      resourceEnd := resources;
      if resources < resourceMin {
        resourceMin := resources;
      }
      if resources > resourceMax {
        resourceMax := resources;
      }
    }

    /** Lines 94 to 98. */
    method Count(milliseconds: uint32)
      requires buckets.Length == BUCKETS && buckets[Bucket(milliseconds)] < 0xFFFF_FFFF
      modifies buckets
      ensures buckets[..] == old(buckets[..])[Bucket(milliseconds) := old(buckets[..])[Bucket(milliseconds)] + 1]
    {
      var bucket := milliseconds;
      if bucket >= BUCKETS {
        bucket := BUCKETS - 1;
      }
      buckets[bucket] := buckets[bucket] + 1;
    }

    /** The buckets sum to the number of frames. */
    lemma BucketsSum()
      requires Valid()
      ensures Sum(buckets[..]) == frames
    {
      HistogramSum(Times(samples), buckets[..], BUCKETS);
      assert buckets[..][..BUCKETS] == buckets[..];
      BucketsCount(Times(samples), BUCKETS);
    }

    /** Lines 135 to 148; the rank and the running count stay below 2^32. */
    method PercentileOf(percent: uint32) returns (r: uint32)
      requires Valid() && samples != [] && 1 <= percent <= 100
      ensures r == Percentile(Times(samples), percent)
    {
      ghost var times := Times(samples);
      RankFits(frames, percent);
      var rank: uint32 := (frames * percent + 99) / 100;
      var seen: uint32 := 0;
      for milliseconds := 0 to BUCKETS
        invariant seen == CountBelow(times, milliseconds) && seen < rank
      {
        BucketsCount(times, milliseconds + 1);
        CountAtMostBound(times, milliseconds);
        CountBelowStep(times, milliseconds);
        assert buckets[..][milliseconds] == CountIn(times, milliseconds);
        hide CountAtMost, CountBelow, Percentile, Exact;
        seen := seen + buckets[milliseconds];
        if seen >= rank {
          PercentileAt(times, percent, milliseconds);
          if milliseconds == BUCKETS - 1 && frameMax > BUCKETS - 1 {
            return frameMax;
          }
          return milliseconds;
        }
      }
      BucketsCount(times, BUCKETS);
      assert false;
      r := frameMax;
    }

    method MakeReport() returns (r: Report)
      requires Valid()
      ensures Reports(samples, dropped, r)
    {
      if frames == 0 {
        return EMPTY;
      }
      var p50 := PercentileOf(50);
      var p95 := PercentileOf(95);
      var p99 := PercentileOf(99);
      r := Report(frames, dropped, frameTotal as real / frames as real, p50, p95, p99, frameMax,
                  heapStart, heapEnd, heapMax, SignedGrowth(heapStart, heapEnd),
                  resourceBeg, resourceEnd, resourceMin, resourceMax);
      ReportedFields(Fields(), samples, dropped, r);
    }
  }

  /** The report of the samples recorded so far. */
  ghost predicate Reports(samples: seq<Sample>, dropped: uint32, r: Report)
    requires |samples| <= MAXIMUM_FRAMES
  {
    var times := Times(samples);
    if samples == [] then r == Report(0, 0, 0.0, 0, 0, 0, 0, 0, 0, 0, 0, 0, 0, 0, 0)
    else
      && r.frames == |samples| && r.dropped == dropped && r.mean * |samples| as real == Sum(times) as real
      && r.p50 == Percentile(times, 50) && r.p95 == Percentile(times, 95) && r.p99 == Percentile(times, 99)
      && r.max == Max(times)
      && r.heapStart == samples[0].heap && r.heapEnd == samples[|samples| - 1].heap
      && r.heapMax == HeapMax(samples) && r.heapGrowth == SignedGrowth(r.heapStart, r.heapEnd)
      && r.resourcesStart == samples[0].resources && r.resourcesEnd == samples[|samples| - 1].resources
      && LeastResources(samples, r.resourcesMinimum) && MostResources(samples, r.resourcesMaximum)
  }

  lemma ReportedFields(s: Summary, samples: seq<Sample>, dropped: uint32, r: Report)
    requires Summarizes(s, samples) && 1 <= |samples| <= MAXIMUM_FRAMES
    requires r == Report(s.frames, dropped, s.total as real / s.frames as real, r.p50, r.p95, r.p99, s.max,
                         s.heapStart, s.heapEnd, s.heapMax, SignedGrowth(s.heapStart, s.heapEnd),
                         s.resourceBeg, s.resourceEnd, s.resourceMin, s.resourceMax)
    requires var times := Times(samples);
      r.p50 == Percentile(times, 50) && r.p95 == Percentile(times, 95) && r.p99 == Percentile(times, 99)
    ensures Reports(samples, dropped, r)
  {
    hide Percentile, LeastResources, MostResources, HeapMax, Sum, Max, SignedGrowth;
    Quotient(s.total, s.frames);
  }

  lemma Quotient(total: int, count: int)
    requires count > 0
    ensures (total as real / count as real) * count as real == total as real
  {
  }

  /** The bucket in which the running count reaches the rank decides the percentile. */
  lemma PercentileAt(times: seq<nat>, percent: nat, bucket: nat)
    requires 1 <= |times| <= MAXIMUM_FRAMES && 1 <= percent <= 100 && bucket < BUCKETS
    requires CountBelow(times, bucket) < RankOf(|times|, percent) <= CountBelow(times, bucket + 1)
    ensures Percentile(times, percent) == if bucket == BUCKETS - 1 && Max(times) > BUCKETS - 1 then Max(times) else bucket
  {
    var rank := RankOf(|times|, percent);
    RankFits(|times|, percent);
    BucketsCount(times, bucket);
    BucketsCount(times, bucket + 1);
    NearestRankMax(times, rank);
    NearestRankCounts(times, rank, bucket);
    NearestRankCounts(times, rank, bucket - 1);
    hide CountAtMost, CountBelow, NearestRank, Max;
  }

  lemma CountBelowStep(times: seq<nat>, limit: nat)
    ensures CountBelow(times, limit + 1) == CountBelow(times, limit) + CountIn(times, limit)
  {
  }
}
