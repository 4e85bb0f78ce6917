/** Applying suggested edits to one file: internal/features/analyzer/fixes.go. */
module Fixes {
  import opened Common
  import opened PathOrder

  const NEWLINE: byte := 10

  datatype Point = Point(line: int, column: int)

  /** A suggested edit between two points of the file. */
  datatype Edit = Edit(from: Point, to: Point, text: bytes)

  /** The same edit with byte offsets. */
  datatype Pending = Pending(start: nat, end: nat, text: bytes)

  datatype FixError = InvalidRange | Conflicting

  // ------------------------------------------------------------------- points

  function Newlines(contents: bytes, offset: nat): nat
    requires offset <= |contents|
  {
    if offset == 0 then 0
    else Newlines(contents, offset - 1) + if contents[offset - 1] == '\n' as int then 1 else 0
  }

  /** Where the line that holds `offset` begins. */
  function LineStart(contents: bytes, offset: nat): (r: nat)
    requires offset <= |contents|
    ensures r <= offset
  {
    if offset == 0 || contents[offset - 1] == '\n' as int then offset else LineStart(contents, offset - 1)
  }

  /** The line and column, both from 1, of an offset. */
  function PointOf(contents: bytes, offset: nat): Point
    requires offset <= |contents|
  {
    Point(1 + Newlines(contents, offset), 1 + offset - LineStart(contents, offset))
  }

  /** The first point is line 1, column 1; a line feed begins a line, any other byte a column. */
  lemma PointSteps(contents: bytes, offset: nat)
    requires offset < |contents|
    ensures PointOf(contents, 0) == Point(1, 1)
    ensures var here := PointOf(contents, offset);
            PointOf(contents, offset + 1) ==
              if contents[offset] == '\n' as int then Point(here.line + 1, 1) else Point(here.line, here.column + 1)
  {
  }

  lemma {:induction false} NewlinesMonotone(contents: bytes, a: nat, b: nat)
    requires a <= b <= |contents|
    ensures Newlines(contents, a) <= Newlines(contents, b)
    ensures Newlines(contents, a) == Newlines(contents, b) <==> NEWLINE !in contents[a..b]
    decreases b
  {
    if a < b {
      NewlinesMonotone(contents, a, b - 1);
      assert contents[a..b] == contents[a..b - 1] + [contents[b - 1]];
    }
  }

  /** Offsets with equally many newlines before them are on one line. */
  lemma {:induction false} OneLine(contents: bytes, a: nat, b: nat)
    requires a <= b <= |contents| && Newlines(contents, a) == Newlines(contents, b)
    ensures LineStart(contents, a) == LineStart(contents, b)
    decreases b
  {
    if a < b {
      NewlinesMonotone(contents, a, b - 1);
      OneLine(contents, a, b - 1);
    }
  }

  lemma PointOfInjective(contents: bytes, a: nat, b: nat)
    requires a <= b <= |contents| && PointOf(contents, a) == PointOf(contents, b)
    ensures a == b
  {
    OneLine(contents, a, b);
  }

  /** `r` is the offset of `point`, if there is one. */
  ghost predicate Locates(contents: bytes, point: Point, r: Option<nat>)
  {
    if r.Some? then r.value <= |contents| && PointOf(contents, r.value) == point
    else forall o: nat :: o <= |contents| ==> PointOf(contents, o) != point
  }

  lemma LocatesUnique(contents: bytes, point: Point, a: Option<nat>, b: Option<nat>)
    requires Locates(contents, point, a) && Locates(contents, point, b)
    ensures a == b
  {
    if a.Some? && b.Some? {
      if a.value <= b.value {
        PointOfInjective(contents, a.value, b.value);
      } else {
        PointOfInjective(contents, b.value, a.value);
      }
    }
  }

  /**
   * pointOffset accepts exactly the points of the offsets 0 to the length,
   * and gives back the offset.
   */
  method PointOffset(contents: bytes, point: Point) returns (r: Option<nat>)
    ensures Locates(contents, point, r)
  {
    if point.line < 1 || point.column < 1 {
      return None;
    }
    var line, offset := 1, 0;
    while line < point.line && offset < |contents|
      invariant offset <= |contents| && line == 1 + Newlines(contents, offset) && line <= point.line
      invariant line == point.line ==> LineStart(contents, offset) == offset
    {
      if contents[offset] == NEWLINE {
        line := line + 1;
      }
      offset := offset + 1;
    }
    if line != point.line {
      forall o: nat | o <= |contents| ensures PointOf(contents, o) != point {
        NewlinesMonotone(contents, o, |contents|);
      }
      return None;
    }
    var target := offset + point.column - 1;
    if target > |contents| || NEWLINE in contents[offset..target] {
      forall o: nat | o <= |contents| ensures PointOf(contents, o) != point {
        OnlyTarget(contents, point, offset, o);
      }
      return None;
    }
    NewlinesMonotone(contents, offset, target);
    OneLine(contents, offset, target);
    r := Some(target);
  }

  /** On the line that begins at `offset` only one offset can have the wanted column. */
  lemma OnlyTarget(contents: bytes, point: Point, offset: nat, o: nat)
    requires point.line >= 1 && point.column >= 1
    requires offset <= |contents| && LineStart(contents, offset) == offset && 1 + Newlines(contents, offset) == point.line
    requires offset + point.column - 1 > |contents| || NEWLINE in contents[offset..offset + point.column - 1]
    requires o <= |contents|
    ensures PointOf(contents, o) != point
  {
    if PointOf(contents, o) == point {
      if o <= offset {
        OneLine(contents, o, offset);
      } else {
        OneLine(contents, offset, o);
        NewlinesMonotone(contents, offset, o);
      }
    }
  }

  // ---------------------------------------------------------------- reference

  function Elements(s: seq<Pending>): set<Pending>
  {
    set e | e in s
  }

  /** Two distinct edits that overlap or share a start. */
  predicate Conflict(a: Pending, b: Pending)
  {
    a != b && (a.start == b.start || (a.start < b.start < a.end) || (b.start < a.start < b.end))
  }

  ghost predicate Compatible(edits: set<Pending>)
  {
    forall a, b :: a in edits && b in edits ==> !Conflict(a, b)
  }

  ghost predicate Within(contents: bytes, edits: set<Pending>)
  {
    forall e :: e in edits ==> e.start <= e.end <= |contents|
  }

  predicate Covers(e: Pending, i: nat)
  {
    e.start <= i < e.end
  }

  ghost function TextAt(edits: set<Pending>, i: nat): bytes
  {
    if exists e :: e in edits && e.start == i then (var e :| e in edits && e.start == i; e.text) else []
  }

  ghost function Kept(contents: bytes, edits: set<Pending>, i: nat): bytes
    requires i < |contents|
  {
    if exists e :: e in edits && Covers(e, i) then [] else [contents[i]]
  }

  /**
   * The edited file from offset `i` on, offset by offset: the text of the edit
   * that starts there, then the byte unless some edit replaces it.
   */
  ghost function Render(contents: bytes, edits: set<Pending>, i: nat): bytes
    requires i <= |contents|
    decreases |contents| - i
  {
    if i == |contents| then TextAt(edits, i)
    else TextAt(edits, i) + (Kept(contents, edits, i) + Render(contents, edits, i + 1))
  }

  // ------------------------------------------------------------------ sorting

  /** The comparison of lines 85 to 93. */
  predicate Precedes(a: Pending, b: Pending)
  {
    if a.start != b.start then a.start < b.start
    else if a.end != b.end then a.end < b.end
    else Before(a.text, b.text)
  }

  ghost predicate Sorted(s: seq<Pending>)
  {
    forall i, j :: 0 <= i < j < |s| ==> s[i].start <= s[j].start
  }

  /** sort.Slice with that comparison. */
  function Insert(e: Pending, s: seq<Pending>): seq<Pending>
  {
    if s == [] || Precedes(e, s[0]) then [e] + s else [s[0]] + Insert(e, s[1..])
  }

  function Sort(s: seq<Pending>): seq<Pending>
  {
    if s == [] then [] else Insert(s[0], Sort(s[1..]))
  }

  lemma ElementsCons(e: Pending, s: seq<Pending>)
    ensures Elements([e] + s) == Elements(s) + {e}
  {
  }

  lemma ElementsSnoc(s: seq<Pending>, e: Pending)
    ensures Elements(s + [e]) == Elements(s) + {e}
  {
  }

  lemma {:induction false} InsertElements(e: Pending, s: seq<Pending>)
    ensures Elements(Insert(e, s)) == Elements(s) + {e}
  {
    ElementsCons(e, s);
    if s != [] && !Precedes(e, s[0]) {
      assert s == [s[0]] + s[1..];
      ElementsCons(s[0], s[1..]);
      InsertElements(e, s[1..]);
      ElementsCons(s[0], Insert(e, s[1..]));
    }
    hide Elements, Precedes;
  }

  lemma SortedCons(first: Pending, rest: seq<Pending>)
    requires Sorted(rest) && forall e :: e in Elements(rest) ==> first.start <= e.start
    ensures Sorted([first] + rest)
  {
    forall j | 0 <= j < |rest| ensures first.start <= rest[j].start {
      assert rest[j] in Elements(rest);
    }
  }

  lemma SortedTail(s: seq<Pending>)
    requires Sorted(s) && s != []
    ensures Sorted(s[1..]) && forall e :: e in Elements(s[1..]) ==> s[0].start <= e.start
  {
  }

  lemma {:induction false} InsertSorted(e: Pending, s: seq<Pending>)
    requires Sorted(s)
    ensures Sorted(Insert(e, s))
  {
    if s == [] {
      assert Insert(e, s) == [e];
    } else {
      SortedTail(s);
      assert s == [s[0]] + s[1..];
      ElementsCons(s[0], s[1..]);
      hide Sorted, Elements;
      if Precedes(e, s[0]) {
        SortedCons(e, s);
      } else {
        InsertSorted(e, s[1..]);
        InsertElements(e, s[1..]);
        SortedCons(s[0], Insert(e, s[1..]));
      }
    }
  }

  lemma {:induction false} SortSorts(s: seq<Pending>)
    ensures Sorted(Sort(s)) && Elements(Sort(s)) == Elements(s)
  {
    if s != [] {
      SortSorts(s[1..]);
      InsertSorted(s[0], Sort(s[1..]));
      InsertElements(s[0], Sort(s[1..]));
      assert s == [s[0]] + s[1..];
      ElementsCons(s[0], s[1..]);
    }
  }

  // ------------------------------------------------- duplicates and conflicts

  /** Each edit ends before the next one starts, and starts differ. */
  ghost predicate Apart(s: seq<Pending>)
  {
    forall i, j :: 0 <= i < j < |s| ==> s[i].end <= s[j].start && s[i].start < s[j].start
  }

  lemma ApartCompatible(s: seq<Pending>)
    requires Apart(s)
    ensures Compatible(Elements(s))
  {
    forall a, b | a in Elements(s) && b in Elements(s) ensures !Conflict(a, b) {
      var i :| 0 <= i < |s| && s[i] == a;
      var j :| 0 <= j < |s| && s[j] == b;
      if i < j {
        assert s[i].end <= s[j].start && s[i].start < s[j].start;
      } else if j < i {
        assert s[j].end <= s[i].start && s[j].start < s[i].start;
      }
    }
  }

  lemma ApartAppend(s: seq<Pending>, e: Pending)
    requires Apart(s) && e.start <= e.end && (forall k :: 0 <= k < |s| ==> s[k].start <= s[k].end)
    requires s != [] ==> s[|s| - 1].end <= e.start && s[|s| - 1].start < e.start
    ensures Apart(s + [e])
  {
    forall i | 0 <= i < |s| ensures s[i].end <= e.start && s[i].start < e.start {
      if i < |s| - 1 {
        assert s[i].end <= s[|s| - 1].start && s[i].start < s[|s| - 1].start;
      }
    }
  }

  ghost predicate Ranges(s: seq<Pending>)
  {
    forall k :: 0 <= k < |s| ==> s[k].start <= s[k].end
  }

  /** `kept` is what the filter keeps of the first `i` sorted edits. */
  ghost predicate Filtered(all: seq<Pending>, i: nat, kept: seq<Pending>)
  {
    && i <= |all| && Apart(kept) && Ranges(kept) && Elements(kept) == Elements(all[..i])
    && (kept == [] <==> i == 0)
    && (kept != [] ==> kept[|kept| - 1].start == all[i - 1].start && kept[|kept| - 1] in all)
  }

  lemma FilterSkip(all: seq<Pending>, i: nat, kept: seq<Pending>)
    requires Filtered(all, i, kept) && i < |all| && kept != [] && all[i] == kept[|kept| - 1]
    ensures Filtered(all, i + 1, kept)
  {
    assert all[..i + 1] == all[..i] + [all[i]];
    ElementsSnoc(all[..i], all[i]);
    assert all[i] in Elements(kept);
  }

  lemma FilterKeep(all: seq<Pending>, i: nat, kept: seq<Pending>)
    requires Filtered(all, i, kept) && Sorted(all) && Ranges(all) && i < |all|
    requires kept != [] ==> kept[|kept| - 1].end <= all[i].start && all[i].start != kept[|kept| - 1].start
    ensures Filtered(all, i + 1, kept + [all[i]])
  {
    assert all[..i + 1] == all[..i] + [all[i]];
    ElementsSnoc(all[..i], all[i]);
    ElementsSnoc(kept, all[i]);
    if kept != [] {
      assert all[i - 1].start <= all[i].start;
    }
    ApartAppend(kept, all[i]);
    hide Apart, Elements;
  }

  lemma FilterConflict(all: seq<Pending>, i: nat, kept: seq<Pending>)
    requires Filtered(all, i, kept) && Sorted(all) && i < |all| && kept != [] && all[i] != kept[|kept| - 1]
    requires all[i].start < kept[|kept| - 1].end || all[i].start == kept[|kept| - 1].start
    ensures !Compatible(Elements(all))
  {
    var prior := kept[|kept| - 1];
    assert all[i - 1].start <= all[i].start;
    assert prior in Elements(all) && all[i] in Elements(all) && Conflict(prior, all[i]);
  }

  lemma FilterDone(all: seq<Pending>, kept: seq<Pending>)
    requires Filtered(all, |all|, kept)
    ensures Elements(kept) == Elements(all) && Compatible(Elements(all))
  {
    assert all[..|all|] == all;
    ApartCompatible(kept);
  }

  /** Lines 94 to 106, in place: drop repeated edits, stop at a conflict. */
  method Compact(pending: array<Pending>) returns (ok: bool, count: nat)
    requires Sorted(pending[..]) && Ranges(pending[..])
    modifies pending
    ensures ok <==> Compatible(Elements(old(pending[..])))
    ensures ok ==> count <= pending.Length && Apart(pending[..count]) && Elements(pending[..count]) == Elements(old(pending[..]))
  {
    ghost var all := pending[..];
    ghost var kept: seq<Pending> := [];
    count := 0;
    for i := 0 to pending.Length
      invariant count <= i && Filtered(all, i, kept)
      invariant |kept| == count && pending[..count] == kept
      invariant forall k :: i <= k < pending.Length ==> pending[k] == all[k]
    {
      hide Filtered, Apart, Elements, Sorted, Ranges, Compatible;
      var edit := pending[i];
      if count != 0 {
        var prior := pending[count - 1];
        assert prior == kept[count - 1];
        if edit == prior {
          FilterSkip(all, i, kept);
          continue;
        }
        if edit.start < prior.end || edit.start == prior.start {
          FilterConflict(all, i, kept);
          return false, count;
        }
      }
      FilterKeep(all, i, kept);
      pending[count] := edit;
      kept, count := kept + [edit], count + 1;
    }
    FilterDone(all, kept);
    ok := true;
  }

  // ----------------------------------------------------------------- splicing

  lemma RenderHere(contents: bytes, edits: set<Pending>, i: nat)
    requires i < |contents|
    ensures Render(contents, edits, i) == TextAt(edits, i) + (Kept(contents, edits, i) + Render(contents, edits, i + 1))
  {
  }

  lemma RenderEnd(contents: bytes, edits: set<Pending>)
    ensures Render(contents, edits, |contents|) == TextAt(edits, |contents|)
  {
  }

  lemma NoText(edits: set<Pending>, i: nat)
    requires forall e :: e in edits ==> e.start != i
    ensures TextAt(edits, i) == []
  {
  }

  lemma TextOf(edits: set<Pending>, e: Pending)
    requires e in edits && Compatible(edits)
    ensures TextAt(edits, e.start) == e.text
  {
    forall f | f in edits && f.start == e.start ensures f == e {
      assert !Conflict(e, f);
    }
  }

  lemma KeptPlain(contents: bytes, edits: set<Pending>, i: nat)
    requires i < |contents| && forall e :: e in edits ==> !Covers(e, i)
    ensures Kept(contents, edits, i) == [contents[i]]
  {
  }

  lemma KeptCovered(contents: bytes, edits: set<Pending>, e: Pending, i: nat)
    requires i < |contents| && e in edits && Covers(e, i)
    ensures Kept(contents, edits, i) == []
  {
  }

  /** A run of offsets no edit starts at or covers is copied. */
  lemma {:induction false} RenderPlain(contents: bytes, edits: set<Pending>, i: nat, limit: nat)
    requires i <= limit <= |contents| && forall e :: e in edits ==> limit <= e.start
    ensures Render(contents, edits, i) == contents[i..limit] + Render(contents, edits, limit)
    decreases limit - i
  {
    hide Render, TextAt, Kept;
    if i < limit {
      RenderHere(contents, edits, i);
      NoText(edits, i);
      KeptPlain(contents, edits, i);
      RenderPlain(contents, edits, i + 1, limit);
      assert contents[i..limit] == [contents[i]] + contents[i + 1..limit];
    } else {
      assert contents[i..limit] == [];
    }
  }

  /** Offsets inside one edit contribute nothing. */
  lemma {:induction false} RenderCovered(contents: bytes, rest: set<Pending>, e: Pending, i: nat)
    requires e.start < i <= e.end <= |contents| && forall f :: f in rest ==> e.end <= f.start
    requires Compatible(rest + {e})
    ensures Render(contents, rest + {e}, i) == Render(contents, rest, e.end)
    decreases e.end - i
  {
    hide Render, TextAt, Kept, Compatible;
    if i < e.end {
      RenderHere(contents, rest + {e}, i);
      NoText(rest + {e}, i);
      KeptCovered(contents, rest + {e}, e, i);
      RenderCovered(contents, rest, e, i + 1);
    } else {
      RenderPast(contents, rest, e, i);
    }
  }

  /** Beyond an edit its presence makes no difference. */
  lemma {:induction false} RenderPast(contents: bytes, rest: set<Pending>, e: Pending, i: nat)
    requires e.start < i && e.end <= i <= |contents| && Compatible(rest + {e})
    ensures Render(contents, rest + {e}, i) == Render(contents, rest, i)
    decreases |contents| - i
  {
    SamePiece(contents, rest, e, i);
    hide TextAt, Kept, Compatible;
    if i < |contents| {
      RenderPast(contents, rest, e, i + 1);
    }
  }

  lemma SamePiece(contents: bytes, rest: set<Pending>, e: Pending, i: nat)
    requires e.start < i && e.end <= i <= |contents| && Compatible(rest + {e})
    ensures TextAt(rest + {e}, i) == TextAt(rest, i)
    ensures i < |contents| ==> Kept(contents, rest + {e}, i) == Kept(contents, rest, i)
  {
    assert forall f :: (f in rest + {e} && f.start == i) <==> (f in rest && f.start == i);
    assert forall f :: (f in rest + {e} && Covers(f, i)) <==> (f in rest && Covers(f, i));
    TextAtSame(rest + {e}, rest, i);
    hide TextAt;
  }

  lemma TextAtSame(a: set<Pending>, b: set<Pending>, i: nat)
    requires forall f :: (f in a && f.start == i) <==> (f in b && f.start == i)
    requires Compatible(a)
    ensures TextAt(a, i) == TextAt(b, i)
  {
  }

  /** One edit ahead of the others. */
  lemma RenderEdit(contents: bytes, rest: set<Pending>, e: Pending)
    requires e.start <= e.end <= |contents| && forall f :: f in rest ==> e.end <= f.start && e.start < f.start
    requires Compatible(rest + {e})
    ensures Render(contents, rest + {e}, e.start) == e.text + Render(contents, rest, e.end)
  {
    var edits := rest + {e};
    TextOf(edits, e);
    NoText(rest, e.start);
    hide Render, TextAt, Kept, Compatible;
    if e.start < e.end {
      RenderHere(contents, edits, e.start);
      KeptCovered(contents, edits, e, e.start);
      RenderCovered(contents, rest, e, e.start + 1);
      assert [] + Render(contents, rest, e.end) == Render(contents, rest, e.end);
    } else if e.start < |contents| {
      RenderHere(contents, edits, e.start);
      RenderHere(contents, rest, e.start);
      KeptPlain(contents, edits, e.start);
      KeptPlain(contents, rest, e.start);
      RenderPast(contents, rest, e, e.start + 1);
      assert Render(contents, rest, e.start) == [contents[e.start]] + Render(contents, rest, e.start + 1);
    } else {
      RenderEnd(contents, edits);
      RenderEnd(contents, rest);
    }
  }

  /** Lines 107 to 114. */
  method Splice(contents: bytes, edits: seq<Pending>) returns (output: bytes)
    requires Apart(edits) && Within(contents, Elements(edits))
    ensures output == Render(contents, Elements(edits), 0)
  {
    output := [];
    var cursor: nat := 0;
    assert edits[0..] == edits;
    for k := 0 to |edits|
      invariant cursor <= |contents| && (k < |edits| ==> cursor <= edits[k].start)
      invariant output + Render(contents, Elements(edits[k..]), cursor) == Render(contents, Elements(edits), 0)
    {
      hide Render, Elements, Apart, Within;
      var edit := edits[k];
      SpliceStep(contents, edits, k, cursor);
      ghost var rest := Render(contents, Elements(edits[k + 1..]), edit.end);
      Regroup(output, contents[cursor..edit.start], edit.text, rest);
      output := output + contents[cursor..edit.start] + edit.text;
      cursor := edit.end;
    }
    assert Elements(edits[|edits|..]) == {};
    RenderPlain(contents, {}, cursor, |contents|);
    output := output + contents[cursor..];
  }

  lemma Regroup(a: bytes, b: bytes, c: bytes, d: bytes)
    ensures a + (b + (c + d)) == (a + b + c) + d
  {
  }

  lemma SpliceStep(contents: bytes, edits: seq<Pending>, k: nat, cursor: nat)
    requires Apart(edits) && Within(contents, Elements(edits)) && k < |edits| && cursor <= edits[k].start
    ensures edits[k].start <= edits[k].end <= |contents|
    ensures k + 1 < |edits| ==> edits[k].end <= edits[k + 1].start
    ensures Render(contents, Elements(edits[k..]), cursor)
         == contents[cursor..edits[k].start] + (edits[k].text + Render(contents, Elements(edits[k + 1..]), edits[k].end))
  {
    var e := edits[k];
    assert e in Elements(edits);
    var rest := Elements(edits[k + 1..]);
    assert edits[k..] == [e] + edits[k + 1..];
    assert Elements(edits[k..]) == rest + {e};
    forall f | f in rest ensures e.end <= f.start && e.start < f.start {
      var j :| 0 <= j < |edits[k + 1..]| && edits[k + 1..][j] == f;
      assert edits[k + 1 + j] == f;
    }
    ApartCompatible(edits);
    assert rest + {e} <= Elements(edits);
    hide Render, Apart;
    RenderPlain(contents, rest + {e}, cursor, e.start);
    RenderEdit(contents, rest, e);
  }

  // ------------------------------------------------------------ one whole file

  /** The byte range of an edit, when both its points exist and are in order. */
  ghost predicate Resolves(contents: bytes, edit: Edit, e: Pending)
  {
    && Locates(contents, edit.from, Some(e.start)) && Locates(contents, edit.to, Some(e.end))
    && e.start <= e.end && e.text == edit.text
  }

  ghost predicate Resolvable(contents: bytes, edit: Edit)
  {
    exists e :: Resolves(contents, edit, e)
  }

  /** The byte ranges of a list of edits, as a set. */
  ghost predicate ResolveAll(contents: bytes, edits: set<Edit>, ranges: set<Pending>)
  {
    && (forall edit :: edit in edits ==> exists e :: e in ranges && Resolves(contents, edit, e))
    && (forall e :: e in ranges ==> exists edit :: edit in edits && Resolves(contents, edit, e))
  }

  function EditSet(edits: seq<Edit>): set<Edit>
  {
    set e | e in edits
  }

  /** The outcome for a file, in terms of which edits there are and not of their order or number. */
  ghost predicate Outcome(contents: bytes, edits: set<Edit>, r: Result<bytes, FixError>)
  {
    if exists edit :: edit in edits && !Resolvable(contents, edit) then r == Err(InvalidRange)
    else exists ranges: set<Pending> :: ResolveAll(contents, edits, ranges) &&
           if Compatible(ranges) then r == Ok(Render(contents, ranges, 0)) else r == Err(Conflicting)
  }

  lemma ResolvesUnique(contents: bytes, edit: Edit, a: Pending, b: Pending)
    requires Resolves(contents, edit, a) && Resolves(contents, edit, b)
    ensures a == b
  {
    LocatesUnique(contents, edit.from, Some(a.start), Some(b.start));
    LocatesUnique(contents, edit.to, Some(a.end), Some(b.end));
  }

  lemma ResolveAllUnique(contents: bytes, edits: set<Edit>, a: set<Pending>, b: set<Pending>)
    requires ResolveAll(contents, edits, a) && ResolveAll(contents, edits, b)
    ensures a <= b
  {
    hide Resolves, ResolveAll;
    forall e | e in a ensures e in b {
      var edit := EditOf(contents, edits, a, e);
      var f := RangeOf(contents, edits, b, edit);
      ResolvesUnique(contents, edit, e, f);
    }
  }

  lemma EditOf(contents: bytes, edits: set<Edit>, ranges: set<Pending>, e: Pending) returns (edit: Edit)
    requires ResolveAll(contents, edits, ranges) && e in ranges
    ensures edit in edits && Resolves(contents, edit, e)
  {
    hide Resolves;
    edit :| edit in edits && Resolves(contents, edit, e);
  }

  lemma RangeOf(contents: bytes, edits: set<Edit>, ranges: set<Pending>, edit: Edit) returns (e: Pending)
    requires ResolveAll(contents, edits, ranges) && edit in edits
    ensures e in ranges && Resolves(contents, edit, e)
  {
    hide Resolves;
    e :| e in ranges && Resolves(contents, edit, e);
  }

  /** The outcome is determined by the set of edits. */
  lemma OutcomeUnique(contents: bytes, edits: set<Edit>, a: Result<bytes, FixError>, b: Result<bytes, FixError>)
    requires Outcome(contents, edits, a) && Outcome(contents, edits, b)
    ensures a == b
  {
    hide Compatible, Render, Resolves, ResolveAll;
    if forall edit :: edit in edits ==> Resolvable(contents, edit) {
      var ra: set<Pending> :| ResolveAll(contents, edits, ra) &&
        if Compatible(ra) then a == Ok(Render(contents, ra, 0)) else a == Err(Conflicting);
      var rb: set<Pending> :| ResolveAll(contents, edits, rb) &&
        if Compatible(rb) then b == Ok(Render(contents, rb, 0)) else b == Err(Conflicting);
      ResolveAllUnique(contents, edits, ra, rb);
      ResolveAllUnique(contents, edits, rb, ra);
      assert ra == rb;
    }
  }

  /** Lines 75 to 83 for one edit. */
  method Resolve(contents: bytes, edit: Edit) returns (r: Option<Pending>)
    ensures r.Some? ==> Resolves(contents, edit, r.value) && r.value.end <= |contents|
    ensures r.None? ==> !Resolvable(contents, edit)
  {
    var start := PointOffset(contents, edit.from);
    if start.None? {
      return None;
    }
    var end := PointOffset(contents, edit.to);
    if end.None? || end.value < start.value {
      if end.Some? {
        Misordered(contents, edit, start, end);
      }
      return None;
    }
    r := Some(Pending(start.value, end.value, edit.text));
  }

  lemma Misordered(contents: bytes, edit: Edit, start: Option<nat>, end: Option<nat>)
    requires Locates(contents, edit.from, start) && Locates(contents, edit.to, end)
    requires start.Some? && end.Some? && end.value < start.value
    ensures !Resolvable(contents, edit)
  {
    forall e ensures !Resolves(contents, edit, e) {
      if Resolves(contents, edit, e) {
        LocatesUnique(contents, edit.from, start, Some(e.start));
        LocatesUnique(contents, edit.to, end, Some(e.end));
      }
    }
  }

  /** Lines 73 to 84. */
  method ResolveEdits(contents: bytes, edits: seq<Edit>) returns (r: Option<seq<Pending>>)
    ensures r.None? ==> exists edit :: edit in EditSet(edits) && !Resolvable(contents, edit)
    ensures r.Some? ==> ResolveAll(contents, EditSet(edits), Elements(r.value)) && Ranges(r.value)
                        && Within(contents, Elements(r.value))
  {
    var pending: seq<Pending> := [];
    for i := 0 to |edits|
      invariant |pending| == i && Ranges(pending)
      invariant forall k :: 0 <= k < i ==> Resolves(contents, edits[k], pending[k]) && pending[k].end <= |contents|
    {
      hide Resolves, Resolvable;
      var e := Resolve(contents, edits[i]);
      if e.None? {
        assert edits[i] in EditSet(edits);
        return None;
      }
      RangeOrdered(contents, edits[i], e.value);
      pending := pending + [e.value];
    }
    ResolvedAll(contents, edits, pending);
    r := Some(pending);
  }

  lemma RangeOrdered(contents: bytes, edit: Edit, e: Pending)
    requires Resolves(contents, edit, e)
    ensures e.start <= e.end
  {
  }

  lemma ResolvedAll(contents: bytes, edits: seq<Edit>, pending: seq<Pending>)
    requires |pending| == |edits| && Ranges(pending)
    requires forall k :: 0 <= k < |edits| ==> Resolves(contents, edits[k], pending[k]) && pending[k].end <= |contents|
    ensures ResolveAll(contents, EditSet(edits), Elements(pending)) && Within(contents, Elements(pending))
  {
    hide Resolves;
    forall edit | edit in EditSet(edits) ensures exists e :: e in Elements(pending) && Resolves(contents, edit, e) {
      var k :| 0 <= k < |edits| && edits[k] == edit;
      assert pending[k] in Elements(pending);
    }
    forall e | e in Elements(pending) ensures exists edit :: edit in EditSet(edits) && Resolves(contents, edit, e) {
      var k :| 0 <= k < |pending| && pending[k] == e;
      assert edits[k] in EditSet(edits);
    }
  }

  /** Lines 73 to 115 for one file, before formatting. */
  method PrepareFile(contents: bytes, edits: seq<Edit>) returns (r: Result<bytes, FixError>)
    ensures Outcome(contents, EditSet(edits), r)
  {
    hide Resolves, Resolvable, ResolveAll, Compatible, Sorted, Ranges, Within, Apart, Elements, Render;
    var resolved := ResolveEdits(contents, edits);
    if resolved.None? {
      return Err(InvalidRange);
    }
    AllResolvable(contents, EditSet(edits), Elements(resolved.value));
    var sorted := Sort(resolved.value);
    SortSorts(resolved.value);
    RangesKept(resolved.value, sorted);
    var pending := new Pending[|sorted|](i requires 0 <= i < |sorted| => sorted[i]);
    assert pending[..] == sorted;
    var ok, count := Compact(pending);
    if !ok {
      return Err(Conflicting);
    }
    var output := Splice(contents, pending[..count]);
    r := Ok(output);
  }

  lemma AllResolvable(contents: bytes, edits: set<Edit>, ranges: set<Pending>)
    requires ResolveAll(contents, edits, ranges)
    ensures forall edit :: edit in edits ==> Resolvable(contents, edit)
  {
    hide Resolves;
  }

  lemma RangesKept(a: seq<Pending>, b: seq<Pending>)
    requires Ranges(a) && Elements(a) == Elements(b)
    ensures Ranges(b)
  {
    forall k | 0 <= k < |b| ensures b[k].start <= b[k].end {
      assert b[k] in Elements(b);
    }
  }
}
