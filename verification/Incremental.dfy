/** The incremental engine of internal/features/analyzer/incremental.go: versions and the snapshot cache. */
module Incremental {
  import opened Common

  // ----------------------------------------------------------------- versions

  type Workspace = string

  type Latest = map<Workspace, nat>

  /** A missing map entry reads as zero. */
  function LatestOf(latest: Latest, w: Workspace): nat
  {
    if w in latest then latest[w] else 0
  }

  /** Lines 148 to 154. */
  function Admitted(latest: Latest, w: Workspace, version: nat): Latest
  {
    if version > LatestOf(latest, w) then latest[w := version] else latest
  }

  datatype Phase = Fresh | Analyzing | Published | Stale

  datatype Call = Call(workspace: Workspace, version: nat, phase: Phase)

  /** A call that passed its currency check, and the latest version of its workspace at that moment. */
  datatype Publication = Publication(workspace: Workspace, version: nat, current: nat)

  /** Concurrent Analyze calls; `published` lists the passed checks in order. */
  datatype Engine = Engine(latest: Latest, calls: seq<Call>, published: seq<Publication>)

  function Passed(s: Engine, id: nat): Publication
    requires id < |s.calls|
  {
    Publication(s.calls[id].workspace, s.calls[id].version, LatestOf(s.latest, s.calls[id].workspace))
  }

  /** One locked section of one call: admission for a fresh call, the currency check for an analyzing one. */
  function Section(s: Engine, id: nat): Engine
    requires id < |s.calls|
  {
    var c := s.calls[id];
    match c.phase
    case Fresh =>
      if c.version < LatestOf(s.latest, c.workspace) then s.(calls := s.calls[id := c.(phase := Stale)])
      else s.(latest := Admitted(s.latest, c.workspace, c.version), calls := s.calls[id := c.(phase := Analyzing)])
    case Analyzing =>
      if c.version < LatestOf(s.latest, c.workspace) then s.(calls := s.calls[id := c.(phase := Stale)])
      else s.(calls := s.calls[id := c.(phase := Published)], published := s.published + [Passed(s, id)])
    case Published => s
    case Stale => s
  }

  ghost predicate Interleaving(s: Engine, schedule: seq<nat>, last: Engine)
    decreases |schedule|
  {
    if schedule == [] then last == s
    else schedule[0] < |s.calls| && Interleaving(Section(s, schedule[0]), schedule[1..], last)
  }

  ghost predicate Inv(s: Engine)
  {
    && (forall i :: 0 <= i < |s.calls| && s.calls[i].phase.Analyzing? ==>
          s.calls[i].version <= LatestOf(s.latest, s.calls[i].workspace))
    && (forall i :: 0 <= i < |s.published| ==>
          s.published[i].version == s.published[i].current <= LatestOf(s.latest, s.published[i].workspace))
    && (forall i, j :: 0 <= i < j < |s.published| && s.published[i].workspace == s.published[j].workspace ==>
          s.published[i].version <= s.published[j].version)
  }

  /** The latest version of each workspace never decreases. */
  ghost predicate Forward(a: Latest, b: Latest)
  {
    forall w :: LatestOf(a, w) <= LatestOf(b, w)
  }

  /**
   * Each section keeps the invariant and moves the latest versions forward;
   * a call passes its check only with the version that is then the latest.
   */
  lemma SectionInv(s: Engine, id: nat)
    requires Inv(s) && id < |s.calls|
    ensures var n := Section(s, id);
            && Inv(n) && Forward(s.latest, n.latest) && |n.calls| == |s.calls|
            && (n.published != s.published ==>
                  n.published == s.published + [Passed(s, id)]
                  && s.calls[id].version == LatestOf(s.latest, s.calls[id].workspace))
  {
  }

  /** A run from no calls in progress. */
  ghost predicate Started(s: Engine)
  {
    s.published == [] && forall i :: 0 <= i < |s.calls| ==> s.calls[i].phase.Fresh?
  }

  lemma {:induction false} InterleavingInv(s: Engine, schedule: seq<nat>, last: Engine)
    requires Inv(s) && Interleaving(s, schedule, last)
    ensures Inv(last) && Forward(s.latest, last.latest)
    decreases |schedule|
  {
    if schedule != [] {
      SectionInv(s, schedule[0]);
      hide Inv, Section;
      InterleavingInv(Section(s, schedule[0]), schedule[1..], last);
    }
  }

  /**
   * Under every interleaving of Analyze calls each version that passes the
   * currency check is then the latest of its workspace, the passed versions
   * never decrease within a workspace, and the latest versions never do.
   */
  lemma PublishedInOrder(s: Engine, schedule: seq<nat>, last: Engine)
    requires Started(s) && Interleaving(s, schedule, last)
    ensures Forward(s.latest, last.latest)
    ensures forall i :: 0 <= i < |last.published| ==> last.published[i].version == last.published[i].current
    ensures forall i, j :: 0 <= i < j < |last.published| && last.published[i].workspace == last.published[j].workspace ==>
              last.published[i].version <= last.published[j].version
  {
    assert Inv(s);
    InterleavingInv(s, schedule, last);
  }

  /** Admitting a version is the section of a fresh call with it. */
  lemma AdmitSection(s: Engine, id: nat, workspace: Workspace, version: nat)
    requires id < |s.calls| && s.calls[id] == Call(workspace, version, Fresh)
    ensures var n, ok := Section(s, id), version >= LatestOf(s.latest, workspace);
            && n.latest == (if ok then Admitted(s.latest, workspace, version) else s.latest)
            && n.calls == s.calls[id := Call(workspace, version, if ok then Analyzing else Stale)]
            && n.published == s.published
  {
  }

  /** The currency check is the section of an analyzing call. */
  lemma CurrentSection(s: Engine, id: nat, workspace: Workspace, version: nat)
    requires id < |s.calls| && s.calls[id] == Call(workspace, version, Analyzing)
    ensures var n, ok := Section(s, id), version >= LatestOf(s.latest, workspace);
            && n.latest == s.latest
            && n.calls == s.calls[id := Call(workspace, version, if ok then Published else Stale)]
            && n.published == s.published + if ok then [Passed(s, id)] else []
  {
  }

  // -------------------------------------------------------------------- cache

  /** Cache keys are only compared, so numbers stand for them. */
  type Key = int

  datatype Entry = Entry(value: int, packages: nat, used: nat)

  /** Later keys of the list were used later. */
  ghost predicate Increasing(entries: map<Key, Entry>, order: seq<Key>)
  {
    && (forall i :: 0 <= i < |order| ==> order[i] in entries)
    && (forall i, j :: 0 <= i < j < |order| ==> entries[order[i]].used < entries[order[j]].used)
  }

  ghost predicate UsedBy(entries: map<Key, Entry>, clock: nat)
  {
    forall k :: k in entries ==> entries[k].used <= clock
  }

  /** `order` lists the cached keys, least recently used first. */
  ghost predicate Ordered(entries: map<Key, Entry>, clock: nat, order: seq<Key>)
  {
    Lists(order, entries.Keys) && UsedBy(entries, clock) && Increasing(entries, order)
  }

  /** The abstract cache: a use moves a key to the end. */
  function Touched(order: seq<Key>, key: Key): seq<Key>
  {
    Omit(order, key) + [key]
  }

  /** The abstract cache: only the last `limit` keys stay. */
  function Recent(order: seq<Key>, limit: nat): seq<Key>
  {
    if |order| <= limit then order else order[|order| - limit..]
  }

  lemma {:induction false} OmitIncreasing(entries: map<Key, Entry>, s: seq<Key>, key: Key)
    requires Increasing(entries, s)
    ensures Increasing(entries, Omit(s, key))
  {
    if s != [] {
      IncreasingTail(entries, s);
      OmitIncreasing(entries, s[1..], key);
      if s[0] != key {
        OmitAbove(entries, s[0], s[1..], key);
        hide Increasing;
        IncreasingCons(entries, s[0], Omit(s[1..], key));
      }
    }
  }

  /** `first` was used before every key of `s`. */
  ghost predicate Above(entries: map<Key, Entry>, first: Key, s: seq<Key>)
  {
    first in entries && forall i :: 0 <= i < |s| ==> s[i] in entries && entries[first].used < entries[s[i]].used
  }

  lemma IncreasingTail(entries: map<Key, Entry>, s: seq<Key>)
    requires Increasing(entries, s) && s != []
    ensures Increasing(entries, s[1..]) && Above(entries, s[0], s[1..])
  {
  }

  lemma {:induction false} OmitAbove(entries: map<Key, Entry>, first: Key, s: seq<Key>, key: Key)
    requires Above(entries, first, s)
    ensures Above(entries, first, Omit(s, key))
  {
    if s != [] {
      OmitAbove(entries, first, s[1..], key);
    }
  }

  lemma IncreasingCons(entries: map<Key, Entry>, first: Key, s: seq<Key>)
    requires Increasing(entries, s) && Above(entries, first, s)
    ensures Increasing(entries, [first] + s)
  {
    var u := [first] + s;
    forall i, j | 0 <= i < j < |u| ensures entries[u[i]].used < entries[u[j]].used {
      assert u[j] == s[j - 1];
      if i > 0 {
        assert u[i] == s[i - 1];
      }
    }
  }

  /** Using a key at a fresh clock value moves it to the end of the order. */
  lemma TouchOrdered(entries: map<Key, Entry>, clock: nat, order: seq<Key>, key: Key, e: Entry)
    requires Ordered(entries, clock, order) && e.used == clock + 1
    ensures Ordered(entries[key := e], clock + 1, Touched(order, key))
  {
    var rest := Omit(order, key);
    OmitLists(order, entries.Keys, key);
    OmitIncreasing(entries, order, key);
    hide Omit;
    var next := entries[key := e];
    assert next.Keys == (entries.Keys - {key}) + {key};
    IncreasingSnoc(entries, clock, rest, key, e);
    hide Increasing, Lists;
    ListsSnoc(rest, entries.Keys - {key}, key);
  }

  lemma IncreasingSnoc(entries: map<Key, Entry>, clock: nat, s: seq<Key>, key: Key, e: Entry)
    requires Increasing(entries, s) && Lists(s, entries.Keys - {key}) && UsedBy(entries, clock) && e.used == clock + 1
    ensures Increasing(entries[key := e], s + [key])
  {
    var t := s + [key];
    forall i | 0 <= i < |s| ensures t[i] == s[i] && t[i] != key && t[i] in entries && entries[t[i]].used <= clock {
      assert s[i] in s;
    }
  }

  /** The entry with the smallest clock value is the first of the order. */
  lemma OldestFirst(entries: map<Key, Entry>, clock: nat, order: seq<Key>, oldest: Key)
    requires Ordered(entries, clock, order) && oldest in entries
    requires forall k :: k in entries ==> entries[oldest].used <= entries[k].used
    ensures order != [] && order[0] == oldest
  {
    var i := ListsIndex(order, entries.Keys, oldest);
    var first := order[0];
    assert first in entries;
    assert entries[oldest].used <= entries[first].used;
  }

  lemma IncreasingLess(entries: map<Key, Entry>, s: seq<Key>, key: Key)
    requires Increasing(entries, s) && key !in s
    ensures Increasing(entries - {key}, s)
  {
    forall i | 0 <= i < |s| ensures s[i] in entries - {key} {
      assert s[i] in s;
    }
  }

  lemma DropFirst(entries: map<Key, Entry>, clock: nat, order: seq<Key>)
    requires Ordered(entries, clock, order) && order != []
    ensures Ordered(entries - {order[0]}, clock, order[1..])
  {
    IncreasingTail(entries, order);
    ListsTail(order, entries.Keys);
    var next := entries - {order[0]};
    assert next.Keys == entries.Keys - {order[0]};
    IncreasingLess(entries, order[1..], order[0]);
    hide Increasing, Lists;
  }

  class IncrementalEngine {
    const limit: nat
    var latest: Latest
    var clock: nat
    var entries: map<Key, Entry>
    ghost var order: seq<Key>

    /** NewIncrementalEngine: a limit that is not positive becomes 4. */
    constructor (maxSnapshots: int)
      ensures Valid() && limit == (if maxSnapshots <= 0 then 4 else maxSnapshots)
      ensures latest == map[] && entries == map[] && order == []
    {
      limit := if maxSnapshots <= 0 then 4 else maxSnapshots;
      latest, clock, entries, order := map[], 0, map[], [];
    }

    ghost predicate Valid()
      reads this
    {
      limit > 0 && Ordered(entries, clock, order) && |entries| <= limit
    }

    /** Lines 147 to 155, under the lock. */
    method Admit(workspace: Workspace, version: nat) returns (ok: bool)
      requires Valid()
      modifies this`latest
      ensures Valid() && ok == (version >= LatestOf(old(latest), workspace))
      ensures ok <==> workspace !in old(latest) || old(latest)[workspace] <= version
      ensures latest == (if ok then Admitted(old(latest), workspace, version) else old(latest))
      ensures forall s: Engine, id: nat | id < |s.calls| && s.latest == old(latest) && s.calls[id] == Call(workspace, version, Fresh) ::
                Section(s, id).latest == latest && Section(s, id).calls[id].phase == (if ok then Analyzing else Stale)
    {
      forall s: Engine, id: nat | id < |s.calls| && s.latest == latest && s.calls[id] == Call(workspace, version, Fresh)
        ensures var ok := version >= LatestOf(latest, workspace);
                && Section(s, id).latest == (if ok then Admitted(latest, workspace, version) else latest)
                && Section(s, id).calls[id].phase == (if ok then Analyzing else Stale)
      {
        AdmitSection(s, id, workspace, version);
      }
      hide Section, Ordered;
      if version < LatestOf(latest, workspace) {
        return false;
      }
      if version > LatestOf(latest, workspace) {
        latest := latest[workspace := version];
      }
      ok := true;
    }

    /** current, lines 233 to 240. */
    method Current(workspace: Workspace, version: nat) returns (ok: bool)
      ensures ok == (version >= LatestOf(latest, workspace))
      ensures ok <==> workspace !in latest || latest[workspace] <= version
      ensures forall s: Engine, id: nat | id < |s.calls| && s.latest == latest && s.calls[id] == Call(workspace, version, Analyzing) ::
                Section(s, id).latest == latest && Section(s, id).calls[id].phase == (if ok then Published else Stale)
    {
      forall s: Engine, id: nat | id < |s.calls| && s.latest == latest && s.calls[id] == Call(workspace, version, Analyzing)
        ensures Section(s, id).latest == latest
        ensures Section(s, id).calls[id].phase == (if version >= LatestOf(latest, workspace) then Published else Stale)
      {
        CurrentSection(s, id, workspace, version);
      }
      hide Section;
      ok := !(version < LatestOf(latest, workspace));
    }

    /** A hit returns what was stored last under the key, and makes it the most recent. */
    method Cached(key: Key) returns (r: Option<int>)
      requires Valid()
      modifies this
      ensures latest == old(latest)
      ensures Valid() && (r.Some? <==> key in old(entries)) && (r.Some? ==> r.value == old(entries[key].value))
      ensures order == (if r.Some? then Touched(old(order), key) else old(order))
      ensures entries.Keys == old(entries).Keys && SameValues(old(entries), entries, {})
    {
      if key !in entries {
        SameRefl(entries);
        return None;
      }
      ghost var held, since, listed := entries, clock, order;
      hide Ordered, Touched, SameValues;
      r := Some(entries[key].value);
      Put(key, entries[key].value, entries[key].packages);
      CacheHit(held, since, listed, key, entries, clock, order);
    }

    /** Lines 260 to 265: an entry used no later than any other, looking at them in any order. */
    method LeastUsed() returns (oldest: Key)
      requires entries != map[]
      ensures oldest in entries && forall k :: k in entries ==> entries[oldest].used <= entries[k].used
    {
      var todo := entries.Keys;
      var best: Option<Key> := None;
      while todo != {}
        invariant todo <= entries.Keys
        invariant best.None? ==> todo == entries.Keys
        invariant best.Some? ==> best.value in entries && best.value !in todo
        invariant best.Some? ==> forall k :: k in entries && k !in todo ==> entries[best.value].used <= entries[k].used
        decreases |todo|
      {
        var candidate := AnyOf(todo);
        todo := todo - {candidate};
        if best.None? || entries[candidate].used < entries[best.value].used
           || (entries[candidate].used == entries[best.value].used && candidate < best.value) {
          best := Some(candidate);
        }
      }
      oldest := best.value;
    }

    /** That entry is the least recently used one. */
    method Oldest() returns (oldest: Key)
      requires Ordered(entries, clock, order) && entries != map[]
      ensures order != [] && oldest == order[0] && oldest in entries
    {
      oldest := LeastUsed();
      OldestFirst(entries, clock, order, oldest);
    }

    /** Lines 260 to 267: one round of the eviction loop. */
    method EvictOldest(ghost before: map<Key, Entry>, ghost all: seq<Key>, ghost gone: nat, ghost sofar: nat)
      returns (packages: nat)
      requires Evicting(before, all, entries, clock, order, gone, limit, sofar) && |entries| > limit
      modifies this
      ensures gone < |all|
      ensures latest == old(latest) && clock == old(clock)
      ensures Evicting(before, all, entries, clock, order, gone + 1, limit, sofar + packages)
    {
      ghost var held, listed := entries, order;
      EvictingStep(before, all, held, clock, listed, gone, limit, sofar);
      hide *;
      packages := TakeOldest();
      EvictingMoved(before, all, held, clock, listed, gone, limit, sofar, entries, order, packages);
    }

    method TakeOldest() returns (packages: nat)
      requires Ordered(entries, clock, order) && entries != map[]
      modifies this
      ensures latest == old(latest) && clock == old(clock)
      ensures old(order) != [] && old(order)[0] in old(entries) && packages == old(entries)[old(order)[0]].packages
      ensures entries == old(entries) - {old(order)[0]} && order == old(order)[1..]
    {
      var oldest := Oldest();
      hide *;
      packages := entries[oldest].packages;
      Delete(oldest);
    }

    method Delete(key: Key)
      requires order != [] && order[0] == key
      modifies this
      ensures latest == old(latest) && clock == old(clock)
      ensures entries == old(entries) - {old(order)[0]} && order == old(order)[1..]
    {
      entries := entries - {key};
      order := order[1..];
    }

    /** Lines 247 and 248, and 256 and 257: an entry at the next clock value. */
    method Put(key: Key, value: int, packages: nat)
      modifies this
      ensures latest == old(latest) && clock == old(clock) + 1
      ensures entries == old(entries)[key := Entry(value, packages, old(clock) + 1)]
      ensures order == Touched(old(order), key)
    {
      clock := clock + 1;
      entries := entries[key := Entry(value, packages, clock)];
      order := Touched(order, key);
    }

    /** Lines 259 to 268. */
    method Evict() returns (invalidated: nat)
      requires limit > 0 && Ordered(entries, clock, order)
      modifies this
      ensures latest == old(latest) && clock == old(clock)
      ensures Ordered(entries, clock, order) && |entries| <= limit && order == Recent(old(order), limit)
      ensures Kept(old(entries), entries)
      ensures invalidated == PackagesOf(old(entries), Evicted(old(order), limit))
    {
      hide *;
      invalidated := 0;
      ghost var all, before := order, entries;
      ghost var gone: nat := 0;
      EvictingStart(entries, clock, order, limit);
      while |entries| > limit
        invariant latest == old(latest) && clock == old(clock)
        invariant gone <= |all| && Evicting(before, all, entries, clock, order, gone, limit, invalidated)
        decreases |all| - gone
      {
        var packages := EvictOldest(before, all, gone, invalidated);
        invalidated := invalidated + packages;
        gone := gone + 1;
      }
      EvictingEnd(before, all, entries, clock, order, gone, limit, invalidated);
    }

    /**
     * store: the key becomes the most recent one, the least recently used
     * keys beyond the limit leave, and the packages they held are counted.
     */
    method Store(key: Key, value: int, packages: nat) returns (invalidated: nat)
      requires Valid()
      modifies this
      ensures latest == old(latest)
      ensures Valid() && order == Recent(Touched(old(order), key), limit)
      ensures key in entries && entries[key].value == value && entries[key].packages == packages
      ensures SameValues(old(entries), entries, {key})
      ensures invalidated == LostPackages(old(entries), old(order), key, limit)
    {
      hide Ordered, Recent, Touched, PackagesOf, Evicted, Kept, SameValues, LostPackages;
      ghost var held, since, listed := entries, clock, order;
      Put(key, value, packages);
      ghost var full, all := entries, order;
      StorePut(held, since, listed, key, limit, Entry(value, packages, since + 1), full, all);
      invalidated := Evict();
      StoreEvicted(held, listed, key, limit, Entry(value, packages, since + 1), full, all, entries, clock, order);
    }
  }

  /** The state of the eviction loop after `gone` rounds. */
  ghost predicate Evicting(before: map<Key, Entry>, all: seq<Key>, entries: map<Key, Entry>, clock: nat, order: seq<Key>,
                           gone: nat, limit: nat, invalidated: nat)
  {
    && Ordered(entries, clock, order) && |order| == |entries|
    && gone <= |all| && order == all[gone..] && (gone > 0 ==> |order| >= limit)
    && Kept(before, entries) && invalidated == PackagesOf(before, all[..gone])
  }

  lemma EvictingStart(entries: map<Key, Entry>, clock: nat, order: seq<Key>, limit: nat)
    requires Ordered(entries, clock, order)
    ensures Evicting(entries, order, entries, clock, order, 0, limit, 0)
  {
    OrderedSize(entries, clock, order);
    hide Ordered;
  }

  lemma EvictingStep(before: map<Key, Entry>, all: seq<Key>, entries: map<Key, Entry>, clock: nat, order: seq<Key>,
                     gone: nat, limit: nat, invalidated: nat)
    requires Evicting(before, all, entries, clock, order, gone, limit, invalidated) && |entries| > limit
    ensures Ordered(entries, clock, order) && entries != map[]
    ensures order != [] && order[0] in entries && gone < |all|
    ensures Evicting(before, all, entries - {order[0]}, clock, order[1..], gone + 1, limit, invalidated + entries[order[0]].packages)
  {
    hide Ordered, PackagesOf;
    FirstCached(entries, clock, order);
    var first := order[0];
    var fewer := entries - {first};
    DropFirst(entries, clock, order);
    OrderedSize(fewer, clock, order[1..]);
    FewerKept(before, entries, first);
    hide Kept;
    assert all[gone] == first && order[1..] == all[gone + 1..];
    PackagesSnoc(before, all, gone);
  }

  lemma EvictingMoved(before: map<Key, Entry>, all: seq<Key>, entries: map<Key, Entry>, clock: nat, order: seq<Key>,
                      gone: nat, limit: nat, invalidated: nat, after: map<Key, Entry>, rest: seq<Key>, packages: nat)
    requires Evicting(before, all, entries, clock, order, gone, limit, invalidated) && |entries| > limit
    requires order != [] && order[0] in entries && after == entries - {order[0]} && rest == order[1..]
    requires packages == entries[order[0]].packages
    ensures Evicting(before, all, after, clock, rest, gone + 1, limit, invalidated + packages)
  {
    EvictingStep(before, all, entries, clock, order, gone, limit, invalidated);
    hide *;
  }

  lemma FirstCached(entries: map<Key, Entry>, clock: nat, order: seq<Key>)
    requires Ordered(entries, clock, order) && |order| > 0
    ensures order[0] in entries && entries != map[]
  {
    ListsTail(order, entries.Keys);
  }

  lemma FewerKept(before: map<Key, Entry>, entries: map<Key, Entry>, first: Key)
    requires Kept(before, entries) && first in entries
    ensures Kept(before, entries - {first}) && first in before && before[first] == entries[first]
  {
  }

  lemma EvictingEnd(before: map<Key, Entry>, all: seq<Key>, entries: map<Key, Entry>, clock: nat, order: seq<Key>,
                    gone: nat, limit: nat, invalidated: nat)
    requires Evicting(before, all, entries, clock, order, gone, limit, invalidated) && |entries| <= limit
    ensures Ordered(entries, clock, order) && order == Recent(all, limit) && Kept(before, entries)
    ensures invalidated == PackagesOf(before, Evicted(all, limit))
  {
    hide Ordered, Kept, PackagesOf;
  }

  /** The cache right after the new entry is in, before anything is evicted. */
  lemma StorePut(before: map<Key, Entry>, since: nat, listed: seq<Key>, key: Key, limit: nat, e: Entry,
                 full: map<Key, Entry>, all: seq<Key>)
    requires Ordered(before, since, listed) && limit > 0 && |before| <= limit && e.used == since + 1
    requires full == before[key := e] && all == Touched(listed, key)
    ensures Ordered(full, since + 1, all)
    ensures PackagesOf(full, Evicted(all, limit)) == LostPackages(before, listed, key, limit)
  {
    TouchOrdered(before, since, listed, key, e);
    OrderedSize(before, since, listed);
    assert Lists(listed, before.Keys);
    hide Lists, Increasing, UsedBy, Touched, Evicted, PackagesOf;
    EvictedCount(before, listed, key, limit, e);
  }

  /** The cache after the eviction: the new entry is there and the others keep what they hold. */
  lemma StoreEvicted(before: map<Key, Entry>, listed: seq<Key>, key: Key, limit: nat, e: Entry,
                     full: map<Key, Entry>, all: seq<Key>, after: map<Key, Entry>, clock: nat, order: seq<Key>)
    requires full == before[key := e] && all == Touched(listed, key) && limit > 0
    requires Kept(full, after) && Ordered(after, clock, order) && order == Recent(all, limit)
    ensures key in after && after[key] == e && SameValues(before, after, {key})
  {
    StoredStays(listed, key, limit);
    hide Increasing, UsedBy, Distinct, Touched, Recent;
  }

  lemma SameRefl(entries: map<Key, Entry>)
    ensures SameValues(entries, entries, {})
  {
  }

  lemma CacheHit(before: map<Key, Entry>, since: nat, listed: seq<Key>, key: Key, after: map<Key, Entry>, clock: nat, order: seq<Key>)
    requires Ordered(before, since, listed) && key in before && clock == since + 1 && order == Touched(listed, key)
    requires after == before[key := Entry(before[key].value, before[key].packages, since + 1)]
    ensures Ordered(after, clock, order) && after.Keys == before.Keys && |after| == |before| && SameValues(before, after, {})
  {
    TouchOrdered(before, since, listed, key, Entry(before[key].value, before[key].packages, since + 1));
    hide Ordered;
  }

  lemma OrderedSize(entries: map<Key, Entry>, clock: nat, order: seq<Key>)
    requires Ordered(entries, clock, order)
    ensures |order| == |entries|
  {
    ListsSize(order, entries.Keys);
  }

  ghost predicate Kept(before: map<Key, Entry>, after: map<Key, Entry>)
  {
    forall k :: k in after ==> k in before && after[k] == before[k]
  }

  /** The packages a store evicts: those of the oldest entry, when a new key finds the cache full. */
  function LostPackages(entries: map<Key, Entry>, order: seq<Key>, key: Key, limit: nat): nat
  {
    if key !in entries && |entries| == limit && order != [] && order[0] in entries then entries[order[0]].packages else 0
  }

  /** The keys beyond the limit, oldest first. */
  function Evicted(order: seq<Key>, limit: nat): seq<Key>
  {
    if |order| <= limit then [] else order[..|order| - limit]
  }

  /** Entries that survive keep what they hold, except for `changed`. */
  ghost predicate SameValues(before: map<Key, Entry>, after: map<Key, Entry>, changed: set<Key>)
  {
    forall k :: k in after && k !in changed ==>
      k in before && after[k].value == before[k].value && after[k].packages == before[k].packages
  }

  function PackagesOf(entries: map<Key, Entry>, keys: seq<Key>): nat
  {
    if keys == [] then 0
    else (if keys[0] in entries then entries[keys[0]].packages else 0) + PackagesOf(entries, keys[1..])
  }

  lemma {:induction false} PackagesSnoc(entries: map<Key, Entry>, keys: seq<Key>, n: nat)
    requires n < |keys| && keys[n] in entries
    ensures PackagesOf(entries, keys[..n + 1]) == PackagesOf(entries, keys[..n]) + entries[keys[n]].packages
    decreases n
  {
    if n == 0 {
      assert keys[..1] == [keys[0]] && keys[..0] == [];
    } else {
      PackagesSnoc(entries, keys[1..], n - 1);
      assert keys[..n + 1][1..] == keys[1..][..n] && keys[..n][1..] == keys[1..][..n - 1];
    }
  }

  /** The key just stored is never evicted. */
  lemma StoredStays(order: seq<Key>, key: Key, limit: nat)
    requires limit > 0
    ensures key in Recent(Touched(order, key), limit)
  {
    var touched := Touched(order, key);
    assert Recent(touched, limit)[|Recent(touched, limit)| - 1] == touched[|touched| - 1] == key;
  }

  /** A store evicts at most one entry, the least recently used one. */
  lemma EvictedCount(before: map<Key, Entry>, order: seq<Key>, key: Key, limit: nat, e: Entry)
    requires limit > 0 && |order| <= limit && |order| == |before| && Lists(order, before.Keys)
    ensures PackagesOf(before[key := e], Evicted(Touched(order, key), limit)) == LostPackages(before, order, key, limit)
  {
    OmitMembers(order, key);
    if key !in before {
      if |order| == limit {
        ListsTail(order, before.Keys);
        OneEvicted(before, order, key, limit, e);
      }
    } else {
      var i := ListsIndex(order, before.Keys, key);
      assert order[i] in order;
    }
  }

  lemma OneEvicted(before: map<Key, Entry>, order: seq<Key>, key: Key, limit: nat, e: Entry)
    requires limit > 0 && |order| == limit && Omit(order, key) == order
    requires key !in before && order[0] in order && order[0] in before
    ensures PackagesOf(before[key := e], Evicted(Touched(order, key), limit)) == before[order[0]].packages
  {
    hide Omit;
    assert Evicted(Touched(order, key), limit) == [order[0]];
    assert PackagesOf(before[key := e], []) == 0;
  }
}
