/**
 * Deciding that a build constraint excludes a target by enumerating the free
 * tags: internal/features/analyzer/device_source_rules.go and loader.go.
 */
module BuildConstraint {
  import opened Common

  /** go/build/constraint.Expr */
  datatype Expr = Tag(name: string) | Not(x: Expr) | And(x: Expr, y: Expr) | Or(x: Expr, y: Expr)

  type Valuation = string -> bool

  function Eval(e: Expr, v: Valuation): bool
  {
    match e
    case Tag(name) => v(name)
    case Not(x) => !Eval(x, v)
    case And(x, y) => Eval(x, v) && Eval(y, v)
    case Or(x, y) => Eval(x, v) || Eval(y, v)
  }

  function Tags(e: Expr): set<string>
  {
    match e
    case Tag(name) => {name}
    case Not(x) => Tags(x)
    case And(x, y) => Tags(x) + Tags(y)
    case Or(x, y) => Tags(x) + Tags(y)
  }

  /** Evaluation looks only at the tags that are gathered. */
  lemma {:induction false} EvalDependsOnTags(e: Expr, v: Valuation, w: Valuation)
    requires forall tag :: tag in Tags(e) ==> v(tag) == w(tag)
    ensures Eval(e, v) == Eval(e, w)
  {
    match e
    case Tag(_) =>
    case Not(x) => EvalDependsOnTags(x, v, w);
    case And(x, y) =>
      EvalDependsOnTags(x, v, w);
      EvalDependsOnTags(y, v, w);
    case Or(x, y) =>
      EvalDependsOnTags(x, v, w);
      EvalDependsOnTags(y, v, w);
  }

  /** constraintTags: the visit that fills the tag set. */
  method Visit(e: Expr, tags: set<string>) returns (r: set<string>)
    ensures r == tags + Tags(e)
  {
    match e
    case Tag(name) => r := tags + {name};
    case Not(x) => r := Visit(x, tags);
    case And(x, y) =>
      r := Visit(x, tags);
      r := Visit(y, r);
    case Or(x, y) =>
      r := Visit(x, tags);
      r := Visit(y, r);
  }

  // --------------------------------------------------------- fixed and free tags

  /** The tags a target decides: a value, or None for a free tag. */
  type Fixing = string -> Option<bool>

  /** loader.go, lines 414 to 418. */
  const HOST_BUILD_TAGS: set<string> := {
    "aix", "android", "darwin", "dragonfly", "freebsd", "illumos", "ios", "js", "linux", "netbsd", "openbsd",
    "plan9", "solaris", "wasip1", "windows",
    "386", "amd64", "amd64p32", "arm", "arm64", "loong64", "mips", "mips64", "mips64le", "mipsle", "ppc64",
    "ppc64le", "riscv64", "s390x", "sparc64", "wasm",
    "cgo", "gc", "gccgo", "unix"}

  /** deviceFixedTag */
  function DeviceFixed(tag: string): Option<bool>
  {
    if tag == "cgo" then None
    else if tag in {"linux", "arm", "unix", "tinygo", "baremetal", "cortexm", "qemu"} then Some(true)
    else if tag in HOST_BUILD_TAGS then Some(false)
    else None
  }

  /** hostOnlySource: host tags are off, the others free. */
  function HostFixed(tag: string): Option<bool>
  {
    if tag in HOST_BUILD_TAGS then Some(false) else None
  }

  /** A valuation of the free tags, completed by the fixed ones. */
  function Complete(fixed: Fixing, free: Valuation): Valuation
  {
    (tag: string) => if fixed(tag).Some? then fixed(tag).value else free(tag)
  }

  ghost predicate Satisfiable(e: Expr, fixed: Fixing)
  {
    exists free: Valuation :: Eval(e, Complete(fixed, free))
  }

  function FreeTags(e: Expr, fixed: Fixing): set<string>
  {
    set tag | tag in Tags(e) && fixed(tag).None?
  }

  // -------------------------------------------------------------------- masks

  /** mask & (1 << i) != 0 */
  predicate Bit(mask: nat, i: nat)
  {
    if i == 0 then mask % 2 == 1 else Bit(mask / 2, i - 1)
  }

  /** The first position of a name. */
  function Position(names: seq<string>, name: string): Option<nat>
  {
    if names == [] then None
    else if names[0] == name then Some(0)
    else
      var rest := Position(names[1..], name);
      if rest.None? then None else Some(rest.value + 1)
  }

  lemma {:induction false} PositionFound(names: seq<string>, name: string)
    ensures Position(names, name).Some? <==> name in names
    ensures Position(names, name).Some? ==>
              Position(names, name).value < |names| && names[Position(names, name).value] == name
  {
    if names != [] {
      PositionFound(names[1..], name);
      assert names == [names[0]] + names[1..];
    }
  }

  /** The assignment a mask stands for. */
  function Assigned(names: seq<string>, mask: nat): Valuation
  {
    (tag: string) => Position(names, tag).Some? && Bit(mask, Position(names, tag).value)
  }

  /** The mask of an assignment. */
  function MaskOf(names: seq<string>, free: Valuation): nat
  {
    if names == [] then 0 else (if free(names[0]) then 1 else 0) + 2 * MaskOf(names[1..], free)
  }

  lemma {:induction false} MaskBound(names: seq<string>, free: Valuation)
    ensures MaskOf(names, free) < Power2(|names|)
  {
    if names != [] {
      MaskBound(names[1..], free);
    }
  }

  lemma {:induction false} MaskBits(names: seq<string>, free: Valuation, i: nat)
    requires i < |names|
    ensures Bit(MaskOf(names, free), i) == free(names[i])
  {
    var mask := MaskOf(names, free);
    assert mask / 2 == MaskOf(names[1..], free) && (mask % 2 == 1 <==> free(names[0]));
    if i > 0 {
      MaskBits(names[1..], free, i - 1);
    }
  }

  /** Every assignment of the listed tags is some mask's. */
  lemma MaskCovers(names: seq<string>, free: Valuation, tag: string)
    requires tag in names
    ensures Assigned(names, MaskOf(names, free))(tag) == free(tag)
  {
    PositionFound(names, tag);
    MaskBits(names, free, Position(names, tag).value);
  }

  predicate MaskHolds(e: Expr, fixed: Fixing, names: seq<string>, mask: nat)
  {
    Eval(e, Complete(fixed, Assigned(names, mask)))
  }

  /** No mask below `limit` satisfies the expression. */
  ghost predicate NoMask(e: Expr, fixed: Fixing, names: seq<string>, limit: nat)
  {
    forall mask: nat :: mask < limit ==> !MaskHolds(e, fixed, names, mask)
  }

  /** If no mask satisfies the expression, nothing does. */
  lemma MasksDecide(e: Expr, fixed: Fixing, names: seq<string>)
    requires Lists(names, FreeTags(e, fixed))
    ensures Satisfiable(e, fixed) <==> !NoMask(e, fixed, names, Power2(|names|))
  {
    if !NoMask(e, fixed, names, Power2(|names|)) {
      var mask: nat :| mask < Power2(|names|) && MaskHolds(e, fixed, names, mask);
      assert Eval(e, Complete(fixed, Assigned(names, mask)));
    }
    if Satisfiable(e, fixed) {
      var free: Valuation :| Eval(e, Complete(fixed, free));
      var mask := MaskOf(names, free);
      MaskBound(names, free);
      forall tag | tag in Tags(e)
        ensures Complete(fixed, free)(tag) == Complete(fixed, Assigned(names, mask))(tag)
      {
        if fixed(tag).None? {
          assert tag in FreeTags(e, fixed);
          MaskCovers(names, free, tag);
        }
      }
      EvalDependsOnTags(e, Complete(fixed, free), Complete(fixed, Assigned(names, mask)));
      assert MaskHolds(e, fixed, names, mask);
    }
  }

  // ------------------------------------------------------------- single tags

  /** A fixing that decides the tag decides the constraint; a free tag satisfies it either way. */
  lemma SingleTag(fixed: Fixing, tag: string)
    ensures Satisfiable(Tag(tag), fixed) <==> fixed(tag) != Some(false)
    ensures Satisfiable(Not(Tag(tag)), fixed) <==> fixed(tag) != Some(true)
    ensures |FreeTags(Tag(tag), fixed)| == |FreeTags(Not(Tag(tag)), fixed)| == if fixed(tag).None? then 1 else 0
  {
    var yes: Valuation := (_: string) => true;
    var no: Valuation := (_: string) => false;
    SingleEval(fixed, tag, yes);
    SingleEval(fixed, tag, no);
    assert FreeTags(Tag(tag), fixed) == FreeTags(Not(Tag(tag)), fixed) == if fixed(tag).None? then {tag} else {};
    forall free: Valuation ensures Eval(Tag(tag), Complete(fixed, free)) <==> !Eval(Not(Tag(tag)), Complete(fixed, free)) {
      SingleEval(fixed, tag, free);
    }
  }

  lemma SingleEval(fixed: Fixing, tag: string, free: Valuation)
    ensures Eval(Tag(tag), Complete(fixed, free)) == if fixed(tag).Some? then fixed(tag).value else free(tag)
    ensures Eval(Not(Tag(tag)), Complete(fixed, free)) == !if fixed(tag).Some? then fixed(tag).value else free(tag)
  {
  }

  /**
   * The device builds as Linux on ARM with TinyGo on bare metal: a source for
   * one of those tags is kept and one against it excluded; a source for any
   * other host platform or compiler is excluded and one against it kept; cgo
   * and a tag of one's own exclude nothing. A host-only source is one for a
   * host tag, whichever it is.
   */
  lemma DeviceTags(tag: string)
    ensures var device := {"linux", "arm", "unix", "tinygo", "baremetal", "cortexm", "qemu"};
            && (Satisfiable(Tag(tag), DeviceFixed) <==> tag in device || tag == "cgo" || tag !in HOST_BUILD_TAGS)
            && (Satisfiable(Not(Tag(tag)), DeviceFixed) <==> tag !in device)
    ensures Satisfiable(Tag(tag), HostFixed) <==> tag !in HOST_BUILD_TAGS
    ensures Satisfiable(Not(Tag(tag)), HostFixed)
  {
    SingleTag(DeviceFixed, tag);
    SingleTag(HostFixed, tag);
    hide Satisfiable, FreeTags;
  }

  /** A disjunction can be met exactly when one side can. */
  lemma OrSatisfiable(x: Expr, y: Expr, fixed: Fixing)
    ensures Satisfiable(Or(x, y), fixed) <==> Satisfiable(x, fixed) || Satisfiable(y, fixed)
  {
    if Satisfiable(Or(x, y), fixed) {
      var free: Valuation :| Eval(Or(x, y), Complete(fixed, free));
      assert Eval(x, Complete(fixed, free)) || Eval(y, Complete(fixed, free));
    }
    if Satisfiable(x, fixed) {
      var free: Valuation :| Eval(x, Complete(fixed, free));
      assert Eval(Or(x, y), Complete(fixed, free));
    }
    if Satisfiable(y, fixed) {
      var free: Valuation :| Eval(y, Complete(fixed, free));
      assert Eval(Or(x, y), Complete(fixed, free));
    }
  }

  /** A conjunction of sides that share no free tag can be met exactly when both sides can. */
  lemma AndSatisfiable(x: Expr, y: Expr, fixed: Fixing)
    requires FreeTags(x, fixed) !! FreeTags(y, fixed)
    ensures Satisfiable(And(x, y), fixed) <==> Satisfiable(x, fixed) && Satisfiable(y, fixed)
  {
    if Satisfiable(And(x, y), fixed) {
      var free: Valuation :| Eval(And(x, y), Complete(fixed, free));
      assert Eval(x, Complete(fixed, free)) && Eval(y, Complete(fixed, free));
    }
    if Satisfiable(x, fixed) && Satisfiable(y, fixed) {
      var a: Valuation :| Eval(x, Complete(fixed, a));
      var b: Valuation :| Eval(y, Complete(fixed, b));
      var both: Valuation := (tag: string) => if tag in FreeTags(x, fixed) then a(tag) else b(tag);
      EvalDependsOnTags(x, Complete(fixed, a), Complete(fixed, both));
      EvalDependsOnTags(y, Complete(fixed, b), Complete(fixed, both));
      assert Eval(And(x, y), Complete(fixed, both));
    }
  }

  // ------------------------------------------------------------ the procedures

  /** Lists the free tags in any order: lines 203 to 208, and 349 to 355 of loader.go. */
  method ListFree(e: Expr, fixed: Fixing) returns (unknown: seq<string>)
    ensures Lists(unknown, FreeTags(e, fixed)) && |unknown| == |FreeTags(e, fixed)|
  {
    var tags := Visit(e, {});
    unknown := [];
    var todo := tags;
    while todo != {}
      invariant Listed(e, fixed, todo, unknown)
      decreases |todo|
    {
      hide FreeTags;
      var tag := AnyOf(todo);
      ListedStep(e, fixed, todo, unknown, tag);
      todo := todo - {tag};
      if fixed(tag).None? {
        unknown := unknown + [tag];
      }
    }
    ListsSize(unknown, FreeTags(e, fixed));
  }

  /** `unknown` lists the free tags outside `todo`. */
  ghost predicate Listed(e: Expr, fixed: Fixing, todo: set<string>, unknown: seq<string>)
  {
    && todo <= Tags(e) && Distinct(unknown)
    && forall tag :: tag in unknown <==> tag in FreeTags(e, fixed) && tag !in todo
  }

  lemma ListedStep(e: Expr, fixed: Fixing, todo: set<string>, unknown: seq<string>, tag: string)
    requires Listed(e, fixed, todo, unknown) && tag in todo
    ensures Listed(e, fixed, todo - {tag}, if fixed(tag).None? then unknown + [tag] else unknown)
  {
    hide Tags;
    var next := if fixed(tag).None? then unknown + [tag] else unknown;
    assert tag in FreeTags(e, fixed) <==> fixed(tag).None?;
    hide FreeTags;
    assert tag !in unknown;
  }

  /** The value of one tag inside Eval: lines 213 to 222. */
  method DeviceValue(unknown: seq<string>, mask: nat, tag: string) returns (r: bool)
    ensures r == Complete(DeviceFixed, Assigned(unknown, mask))(tag)
  {
    if DeviceFixed(tag).Some? {
      return DeviceFixed(tag).value;
    }
    assert unknown[0..] == unknown;
    for index := 0 to |unknown|
      invariant Position(unknown, tag) ==
                var rest := Position(unknown[index..], tag); if rest.None? then None else Some(rest.value + index)
    {
      assert unknown[index..][1..] == unknown[index + 1..];
      if unknown[index] == tag {
        return Bit(mask, index);
      }
    }
    r := false;
  }

  /** Expr.Eval with that callback. */
  method DeviceEval(e: Expr, unknown: seq<string>, mask: nat) returns (r: bool)
    ensures r == MaskHolds(e, DeviceFixed, unknown, mask)
  {
    match e
    case Tag(name) => r := DeviceValue(unknown, mask, name);
    case Not(x) =>
      r := DeviceEval(x, unknown, mask);
      r := !r;
    case And(x, y) =>
      r := DeviceEval(x, unknown, mask);
      var s := DeviceEval(y, unknown, mask);
      r := r && s;
    case Or(x, y) =>
      r := DeviceEval(x, unknown, mask);
      var s := DeviceEval(y, unknown, mask);
      r := r || s;
  }

  /**
   * deviceSourceExcluded: besides the file name's verdict, a source is
   * excluded exactly when it has a constraint with at most 12 free tags that
   * no assignment of them satisfies.
   */
  method DeviceSourceExcluded(nameExcluded: bool, expression: Option<Expr>) returns (r: bool)
    ensures r <==> nameExcluded || (expression.Some? && |FreeTags(expression.value, DeviceFixed)| <= 12
                                    && !Satisfiable(expression.value, DeviceFixed))
  {
    if nameExcluded {
      return true;
    }
    if expression.None? {
      return false;
    }
    var e := expression.value;
    hide *;
    var unknown := ListFree(e, DeviceFixed);
    if |unknown| > 12 {
      return false;
    }
    MasksDecide(e, DeviceFixed, unknown);
    r := NoDeviceMask(e, unknown);
  }

  /** Lines 212 to 227. */
  method NoDeviceMask(e: Expr, unknown: seq<string>) returns (r: bool)
    ensures r == NoMask(e, DeviceFixed, unknown, Power2(|unknown|))
  {
    hide *;
    var limit := Power2(|unknown|);
    NoMaskStart(e, DeviceFixed, unknown);
    var mask: nat := 0;
    while mask < limit
      invariant mask <= limit && NoMask(e, DeviceFixed, unknown, mask)
    {
      var holds := DeviceEval(e, unknown, mask);
      NoMaskNext(e, DeviceFixed, unknown, mask, limit);
      if holds {
        return false;
      }
      mask := mask + 1;
    }
    r := true;
  }

  lemma NoMaskStart(e: Expr, fixed: Fixing, names: seq<string>)
    ensures NoMask(e, fixed, names, 0)
  {
  }

  lemma NoMaskNext(e: Expr, fixed: Fixing, names: seq<string>, mask: nat, limit: nat)
    requires NoMask(e, fixed, names, mask) && mask < limit
    ensures if MaskHolds(e, fixed, names, mask) then !NoMask(e, fixed, names, limit) else NoMask(e, fixed, names, mask + 1)
  {
    hide MaskHolds;
  }

  /** Lines 360 to 363 of loader.go: the map of one assignment. */
  method HostValues(unknown: seq<string>, assignment: nat) returns (values: map<string, bool>)
    requires Distinct(unknown)
    ensures forall tag :: (tag in values && values[tag]) == Assigned(unknown, assignment)(tag)
  {
    values := map[];
    for index := 0 to |unknown|
      invariant forall tag :: tag in values <==> tag in unknown[..index]
      invariant forall k :: 0 <= k < index ==> values[unknown[k]] == Bit(assignment, k)
    {
      assert unknown[..index + 1] == unknown[..index] + [unknown[index]];
      values := values[unknown[index] := Bit(assignment, index)];
    }
    forall tag ensures (tag in values && values[tag]) == Assigned(unknown, assignment)(tag) {
      PositionFound(unknown, tag);
      assert unknown[..|unknown|] == unknown;
    }
  }

  /** Expr.Eval over the map, absent tags being false. */
  method HostEval(e: Expr, values: map<string, bool>) returns (r: bool)
    ensures r == Eval(e, (tag: string) => tag in values && values[tag])
  {
    match e
    case Tag(name) => r := name in values && values[name];
    case Not(x) =>
      r := HostEval(x, values);
      r := !r;
    case And(x, y) =>
      r := HostEval(x, values);
      var s := HostEval(y, values);
      r := r && s;
    case Or(x, y) =>
      r := HostEval(x, values);
      var s := HostEval(y, values);
      r := r || s;
  }

  /** Fixed host tags are false, and so are tags absent from the map. */
  lemma HostAgrees(e: Expr, unknown: seq<string>, assignment: nat, values: map<string, bool>)
    requires Lists(unknown, FreeTags(e, HostFixed))
    requires forall tag :: (tag in values && values[tag]) == Assigned(unknown, assignment)(tag)
    ensures Eval(e, (tag: string) => tag in values && values[tag]) == MaskHolds(e, HostFixed, unknown, assignment)
  {
    var v: Valuation := (tag: string) => tag in values && values[tag];
    forall tag | tag in Tags(e) ensures v(tag) == Complete(HostFixed, Assigned(unknown, assignment))(tag) {
      PositionFound(unknown, tag);
    }
    EvalDependsOnTags(e, v, Complete(HostFixed, Assigned(unknown, assignment)));
  }

  /** hostOnlySource, with 16 in place of 12 and only host tags fixed. */
  method HostOnlySource(nameHostOnly: bool, expression: Option<Expr>) returns (r: bool)
    ensures r <==> nameHostOnly || (expression.Some? && |FreeTags(expression.value, HostFixed)| <= 16
                                    && !Satisfiable(expression.value, HostFixed))
  {
    if nameHostOnly {
      return true;
    }
    if expression.None? {
      return false;
    }
    var e := expression.value;
    hide *;
    var unknown := ListFree(e, HostFixed);
    if |unknown| > 16 {
      return false;
    }
    MasksDecide(e, HostFixed, unknown);
    r := NoHostMask(e, unknown);
  }

  /** Lines 359 to 368 of loader.go. */
  method NoHostMask(e: Expr, unknown: seq<string>) returns (r: bool)
    requires Lists(unknown, FreeTags(e, HostFixed))
    ensures r == NoMask(e, HostFixed, unknown, Power2(|unknown|))
  {
    assert Distinct(unknown);
    hide *;
    var limit := Power2(|unknown|);
    NoMaskStart(e, HostFixed, unknown);
    var assignment: nat := 0;
    while assignment < limit
      invariant assignment <= limit && NoMask(e, HostFixed, unknown, assignment)
    {
      var values := HostValues(unknown, assignment);
      HostAgrees(e, unknown, assignment, values);
      var holds := HostEval(e, values);
      NoMaskNext(e, HostFixed, unknown, assignment, limit);
      if holds {
        return false;
      }
      assignment := assignment + 1;
    }
    r := true;
  }
}
