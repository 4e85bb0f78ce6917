/**
 * The encoder of playdate/json/encode.go as functions from a value to the
 * bytes it writes, and the round trip through the decoder.
 */
module JsonEncode {
  import opened Common
  import opened Utf8
  import opened JsonModel
  import opened JsonGrammar
  import opened JsonComplete
  import opened JsonSound
  import opened JsonLayout

  datatype Options = Options(pretty: bool, indent: bytes, maxDepth: int)

  const NEWLINE: byte := 0x0A
  const SPACE: byte := 0x20

  function NormalizedOptions(o: Options): Result<Options, Error>
  {
    if o.maxDepth < 0 then Err(ErrLimits)
    else Ok(Options(
      o.pretty,
      if o.pretty && o.indent == [] then [SPACE, SPACE] else o.indent,
      if o.maxDepth == 0 then 32 else o.maxDepth))
  }

  function Repeat(s: bytes, n: nat): bytes
  {
    if n == 0 then [] else s + Repeat(s, n - 1)
  }

  function Newline(depth: nat, o: Options): bytes
  {
    if o.pretty then [NEWLINE] + Repeat(o.indent, depth) else []
  }

  function HexLetter(n: nat): byte
    requires n < 16
  {
    if n < 10 then 0x30 + n else 0x61 + n - 10
  }

  /** The escape written for a byte, or None when the byte is written as it is. */
  function EscapeOf(b: byte): Option<bytes>
  {
    if b == 0x22 || b == 0x5C then Some([BACKSLASH, b])
    else if b == 0x08 then Some([BACKSLASH, 0x62])
    else if b == 0x0C then Some([BACKSLASH, 0x66])
    else if b == 0x0A then Some([BACKSLASH, 0x6E])
    else if b == 0x0D then Some([BACKSLASH, 0x72])
    else if b == 0x09 then Some([BACKSLASH, 0x74])
    else if b < 0x20 then Some([BACKSLASH, LOWER_U, 0x30, 0x30, HexLetter(b / 16), HexLetter(b % 16)])
    else None
  }

  function Escape(b: byte): bytes
  {
    match EscapeOf(b)
    case Some(escape) => escape
    case None => [b]
  }

  function Escaped(text: bytes): bytes
  {
    if text == [] then [] else Escape(text[0]) + Escaped(text[1..])
  }

  function EncodeString(text: bytes): Result<bytes, Error>
  {
    if !Valid(text) then Err(ErrSyntax) else Ok([QUOTE] + (Escaped(text) + [QUOTE]))
  }

  predicate ValidNumber(text: bytes)
  {
    ScanNumber(text, 0) == Some(|text|)
  }

  function Comma(first: bool): bytes
  {
    if first then [] else [COMMA]
  }

  function EncodeValue(v: Value, depth: nat, o: Options): Result<bytes, Error>
    decreases v, 1
  {
    match v.kind
    case Null => Ok(NULL_TEXT)
    case Bool => Ok(if v.boolean then TRUE_TEXT else FALSE_TEXT)
    case Number => if ValidNumber(v.text) then Ok(v.text) else Err(ErrSyntax)
    case String => EncodeString(v.text)
    case Array =>
      if depth >= o.maxDepth then Err(ErrSyntax)
      else
        (match EncodeElements(v.elements, true, depth, o)
         case Err(error) => Err(error)
         case Ok(body) => Ok([LBRACKET] + (body + (Closing(|v.elements|, depth, o) + [RBRACKET]))))
    case Object =>
      if depth >= o.maxDepth then Err(ErrSyntax)
      else
        (match EncodeMembers(v.members, true, depth, o)
         case Err(error) => Err(error)
         case Ok(body) => Ok([LBRACE] + (body + (Closing(|v.members|, depth, o) + [RBRACE]))))
    case Invalid => Err(ErrSyntax)
  }

  /** The line break before a closing bracket, unless nothing was written inside. */
  function Closing(count: nat, depth: nat, o: Options): bytes
  {
    if count > 0 then Newline(depth, o) else []
  }

  function EncodeElements(vs: seq<Value>, first: bool, depth: nat, o: Options): Result<bytes, Error>
    decreases vs, 0
  {
    if vs == [] then Ok([])
    else
      match EncodeValue(vs[0], depth + 1, o)
      case Err(error) => Err(error)
      case Ok(text) =>
        match EncodeElements(vs[1..], false, depth, o)
        case Err(error) => Err(error)
        case Ok(rest) => Ok(Comma(first) + (Newline(depth + 1, o) + (text + rest)))
  }

  function Colon(o: Options): bytes
  {
    if o.pretty then [COLON, SPACE] else [COLON]
  }

  function EncodeMembers(ms: seq<Member>, first: bool, depth: nat, o: Options): Result<bytes, Error>
    decreases ms, 0
  {
    if ms == [] then Ok([])
    else
      match EncodeString(ms[0].name)
      case Err(error) => Err(error)
      case Ok(name) =>
        match EncodeValue(ms[0].value, depth + 1, o)
        case Err(error) => Err(error)
        case Ok(text) =>
          match EncodeMembers(ms[1..], false, depth, o)
          case Err(error) => Err(error)
          case Ok(rest) => Ok(Comma(first) + (Newline(depth + 1, o) + (name + (Colon(o) + (text + rest)))))
  }

  function Encode(v: Value, options: Options): Result<bytes, Error>
  {
    match NormalizedOptions(options)
    case Err(error) => Err(error)
    case Ok(o) => EncodeValue(v, 0, o)
  }

  // ------------------------------------------------------------ what encodes

  /** Every kind is valid, every number is a number and every string is UTF-8. */
  predicate Encodable(v: Value)
    decreases v, 1
  {
    match v.kind
    case Invalid => false
    case Number => ValidNumber(v.text)
    case String => Valid(v.text)
    case Array => ElementsEncodable(v.elements)
    case Object => MembersEncodable(v.members)
    case _ => true
  }

  predicate ElementsEncodable(vs: seq<Value>)
    decreases vs, 0
  {
    vs == [] || (Encodable(vs[0]) && ElementsEncodable(vs[1..]))
  }

  predicate MembersEncodable(ms: seq<Member>)
    decreases ms, 0
  {
    ms == [] || (Valid(ms[0].name) && Encodable(ms[0].value) && MembersEncodable(ms[1..]))
  }

  /** The encoder succeeds exactly on encodable values no deeper than its limit. */
  lemma {:induction false} EncodesExactly(v: Value, depth: nat, o: Options)
    requires depth <= o.maxDepth
    ensures EncodeValue(v, depth, o).Ok? <==> Encodable(v) && depth + Depth(v) <= o.maxDepth
    decreases v, 1
  {
    if v.kind == Array && depth < o.maxDepth {
      ElementsEncodeExactly(v.elements, true, depth, o);
    } else if v.kind == Object && depth < o.maxDepth {
      MembersEncodeExactly(v.members, true, depth, o);
    }
  }

  lemma {:induction false} ElementsEncodeExactly(vs: seq<Value>, first: bool, depth: nat, o: Options)
    requires depth < o.maxDepth
    ensures EncodeElements(vs, first, depth, o).Ok? <==>
            ElementsEncodable(vs) && depth + 1 + ElementDepth(vs) <= o.maxDepth
    decreases vs, 0
  {
    if vs != [] {
      EncodesExactly(vs[0], depth + 1, o);
      ElementsEncodeExactly(vs[1..], false, depth, o);
    }
  }

  lemma {:induction false} MembersEncodeExactly(ms: seq<Member>, first: bool, depth: nat, o: Options)
    requires depth < o.maxDepth
    ensures EncodeMembers(ms, first, depth, o).Ok? <==>
            MembersEncodable(ms) && depth + 1 + MemberDepth(ms) <= o.maxDepth
    decreases ms, 0
  {
    if ms != [] {
      EncodesExactly(ms[0].value, depth + 1, o);
      MembersEncodeExactly(ms[1..], false, depth, o);
    }
  }

  /** A negative limit is an error of its own; a limit of zero stands for 32. */
  lemma EncodeExactly(v: Value, options: Options)
    ensures Encode(v, options).Ok? <==> options.maxDepth >= 0 && Encodable(v) && Depth(v) <= Bound(options.maxDepth, 32)
    ensures Encode(v, options) == Err(ErrLimits) <==> options.maxDepth < 0
  {
    if options.maxDepth >= 0 {
      var o := NormalizedOptions(options).value;
      EncodesExactly(v, 0, o);
      EncodeErrors(v, 0, o);
    }
  }

  lemma {:induction false} EncodeErrors(v: Value, depth: nat, o: Options)
    ensures EncodeValue(v, depth, o).Err? ==> EncodeValue(v, depth, o).error == ErrSyntax
    decreases v, 1
  {
    if v.kind == Array {
      ElementErrors(v.elements, true, depth, o);
    } else if v.kind == Object {
      MemberErrors(v.members, true, depth, o);
    }
  }

  lemma {:induction false} ElementErrors(vs: seq<Value>, first: bool, depth: nat, o: Options)
    ensures EncodeElements(vs, first, depth, o).Err? ==> EncodeElements(vs, first, depth, o).error == ErrSyntax
    decreases vs, 0
  {
    if vs != [] {
      EncodeErrors(vs[0], depth + 1, o);
      ElementErrors(vs[1..], false, depth, o);
    }
  }

  lemma {:induction false} MemberErrors(ms: seq<Member>, first: bool, depth: nat, o: Options)
    ensures EncodeMembers(ms, first, depth, o).Err? ==> EncodeMembers(ms, first, depth, o).error == ErrSyntax
    decreases ms, 0
  {
    if ms != [] {
      EncodeErrors(ms[0].value, depth + 1, o);
      MemberErrors(ms[1..], false, depth, o);
    }
  }

  // ---------------------------------------------------------- canonical values

  /** The value without the fields its kind does not use. */
  function Canon(v: Value): Value
    decreases v, 1
  {
    match v.kind
    case Null => NULL
    case Bool => BoolValue(v.boolean)
    case Number => NumberValue(v.text)
    case String => StringValue(v.text)
    case Array => ArrayValue(CanonElements(v.elements))
    case Object => ObjectValue(CanonMembers(v.members))
    case Invalid => v
  }

  function CanonElements(vs: seq<Value>): seq<Value>
    decreases vs, 0
  {
    if vs == [] then [] else [Canon(vs[0])] + CanonElements(vs[1..])
  }

  function CanonMembers(ms: seq<Member>): seq<Member>
    decreases ms, 0
  {
    if ms == [] then [] else [Member(ms[0].name, Canon(ms[0].value))] + CanonMembers(ms[1..])
  }

  /** Canonical form costs what the value costs. */
  lemma {:induction false} CanonCosts(v: Value, max: int)
    ensures Nodes(Canon(v)) == Nodes(v) && Depth(Canon(v)) == Depth(v)
    ensures StringsFit(Canon(v), max) <==> StringsFit(v, max)
    decreases v, 1
  {
    if v.kind == Array {
      CanonElementCosts(v.elements, max);
    } else if v.kind == Object {
      CanonMemberCosts(v.members, max);
    }
  }

  lemma {:induction false} CanonElementCosts(vs: seq<Value>, max: int)
    ensures ElementNodes(CanonElements(vs)) == ElementNodes(vs)
    ensures ElementDepth(CanonElements(vs)) == ElementDepth(vs)
    ensures ElementStringsFit(CanonElements(vs), max) <==> ElementStringsFit(vs, max)
    decreases vs, 0
  {
    if vs != [] {
      CanonCosts(vs[0], max);
      CanonElementCosts(vs[1..], max);
      ElementCosts(Canon(vs[0]), CanonElements(vs[1..]), max);
      ElementCosts(vs[0], vs[1..], max);
      assert [vs[0]] + vs[1..] == vs;
    }
  }

  lemma {:induction false} CanonMemberCosts(ms: seq<Member>, max: int)
    ensures MemberNodes(CanonMembers(ms)) == MemberNodes(ms)
    ensures MemberDepth(CanonMembers(ms)) == MemberDepth(ms)
    ensures MemberStringsFit(CanonMembers(ms), max) <==> MemberStringsFit(ms, max)
    decreases ms, 0
  {
    if ms != [] {
      CanonCosts(ms[0].value, max);
      CanonMemberCosts(ms[1..], max);
      MemberCosts(Member(ms[0].name, Canon(ms[0].value)), CanonMembers(ms[1..]), max);
      MemberCosts(ms[0], ms[1..], max);
      assert [ms[0]] + ms[1..] == ms;
    }
  }

  // ---------------------------------------------------- the output's syntax tree

  lemma {:induction false} RepeatCopies(indent: bytes, n: nat)
    ensures Copies(Repeat(indent, n), indent, n)
  {
    if n > 0 {
      RepeatCopies(indent, n - 1);
      assert Repeat(indent, n)[|indent|..] == Repeat(indent, n - 1);
    }
  }

  function LayoutOf(o: Options): Layout
  {
    Layout(o.pretty, o.indent)
  }

  lemma NewlineBreak(depth: nat, o: Options)
    ensures Break(Newline(depth, o), depth, LayoutOf(o))
  {
    if o.pretty {
      RepeatCopies(o.indent, depth);
      assert Newline(depth, o)[1..] == Repeat(o.indent, depth);
    }
  }

  lemma {:induction false} EscapedAppend(a: bytes, b: bytes)
    ensures Escaped(a + b) == Escaped(a) + Escaped(b)
  {
    hide Escape;
    if a == [] {
      assert a + b == b;
    } else {
      EscapedAppend(a[1..], b);
      var whole := a + b;
      assert whole[0] == a[0] && whole[1..] == a[1..] + b;
    }
  }

  lemma HexLetterNibble(n: nat)
    requires n < 16
    ensures Nibble(HexLetter(n) as char) == Some(n) && HexLetter(n) as char in "0123456789abcdef"
  {
  }

  lemma AsciiRune(b: byte)
    requires b < 0x80
    ensures IsScalar(b) && EncodeRune(b) == [b] && HexLetter(0) == 0x30
  {
  }

  /** What is written for one byte below 0x80 is an item that means that byte. */
  lemma AsciiItem(b: byte) returns (item: Item)
    requires b < 0x80
    ensures ItemOk(item) && ItemText(item) == Escape(b) && ItemMeaning(item) == [b] && PlainItem(item)
  {
    hide ItemMeaning, PlainItem, ShortMeaning, ItemOk;
    if EscapeOf(b).None? {
      item := RawItem(b);
    } else if |Escape(b)| == 2 {
      item := ShortItem(b);
    } else {
      item := ControlItem(b);
      assert ItemText(item) == Escape(b);
    }
  }

  lemma RawItem(b: byte) returns (item: Item)
    requires b < 0x80 && EscapeOf(b).None?
    ensures item == Raw([b]) && ItemOk(item) && ItemMeaning(item) == [b] && PlainItem(item)
  {
    item := Raw([b]);
  }

  lemma ShortItem(b: byte) returns (item: Item)
    requires b < 0x80 && EscapeOf(b).Some? && |Escape(b)| == 2
    ensures ItemOk(item) && ItemText(item) == Escape(b) && ItemMeaning(item) == [b] && PlainItem(item)
  {
    item := Short(Escape(b)[1]);
  }

  /** A control character without a short escape. */
  lemma ControlItem(b: byte) returns (item: Item)
    requires b < 0x20 && b !in [0x08, 0x09, 0x0A, 0x0C, 0x0D]
    ensures item == Hex([0x30, 0x30, HexLetter(b / 16), HexLetter(b % 16)])
    ensures ItemOk(item) && ItemMeaning(item) == [b] && PlainItem(item)
  {
    HexLetterNibble(0);
    HexLetterNibble(b / 16);
    HexLetterNibble(b % 16);
    AsciiRune(b);
    hide Nibble, HexLetter, EncodeRune;
    item := Hex([0x30, 0x30, HexLetter(b / 16), HexLetter(b % 16)]);
    assert HexValue(item.digits) == b;
  }

  lemma {:induction false} EscapedPlain(text: bytes)
    requires forall i :: 0 <= i < |text| ==> text[i] >= 0x80
    ensures Escaped(text) == text
  {
    if text != [] {
      EscapedPlain(text[1..]);
      assert text == [text[0]] + text[1..];
    }
  }

  lemma RuneItem(text: bytes) returns (item: Item)
    requires text != [] && RuneSize(text, 0) == |text|
    ensures ItemOk(item) && ItemText(item) == Escaped(text) && ItemMeaning(item) == text && PlainItem(item)
  {
    if |text| == 1 {
      item := AsciiItem(text[0]);
      assert text[1..] == [] && text == [text[0]];
      assert Escaped(text) == Escape(text[0]) + [];
    } else {
      EscapedPlain(text);
      item := Raw(text);
    }
  }

  /** An escaped text, closed by a quote, is a sequence of items that means the text. */
  lemma {:induction false} TextItems(text: bytes, p: nat) returns (items: seq<Item>)
    requires p <= |text| && ValidFrom(text, p)
    ensures ItemsText(items) == Escaped(text[p..]) + [QUOTE] && PlainText(items, text[p..])
    decreases |text| - p
  {
    hide *;
    if p == |text| {
      items := [];
      NoItems();
      NoEscapes();
      PlainNothing();
      assert text[p..] == [];
      assert Escaped(text[p..]) + [QUOTE] == [QUOTE];
    } else {
      ValidUnfold(text, p);
      var n := RuneSize(text, p);
      var rune, after := text[p..p + n], text[p + n..];
      RuneSizeSlice(text, p);
      var item := RuneItem(rune);
      var rest := TextItems(text, p + n);
      items := [item] + rest;
      assert text[p..] == rune + after;
      EscapedAppend(rune, after);
      PlainPrepend(item, rest, text[p + n..]);
      assert Escaped(rune) + (Escaped(after) + [QUOTE]) == Escaped(rune + after) + [QUOTE];
    }
  }

  lemma PlainNothing()
    ensures PlainText([], [])
  {
  }

  lemma PlainPrepend(item: Item, rest: seq<Item>, text: bytes)
    requires ItemOk(item) && PlainItem(item) && PlainText(rest, text)
    ensures PlainText([item] + rest, ItemMeaning(item) + text)
    ensures ItemsText([item] + rest) == ItemText(item) + ItemsText(rest)
  {
    ItemsPrepend(item, rest);
    hide PlainItem, ItemOk;
  }

  lemma NoEscapes()
    ensures Escaped([]) == []
  {
  }

  lemma ValidUnfold(text: bytes, p: nat)
    requires p < |text| && ValidFrom(text, p)
    ensures RuneSize(text, p) > 0 && ValidFrom(text, p + RuneSize(text, p))
  {
  }

  lemma QuotedItems(text: bytes) returns (items: seq<Item>)
    requires EncodeString(text).Ok?
    ensures StringText(items) == EncodeString(text).value && PlainText(items, text)
  {
    items := TextItems(text, 0);
    assert text[0..] == text;
  }

  /** The options leave nothing but white space between tokens. */
  predicate Blank(o: Options)
  {
    o.pretty ==> Spaces(o.indent)
  }

  /** What the encoder writes for a value is the text of the tree that lays it out. */
  lemma {:induction false} EncodedLayout(v: Value, depth: nat, o: Options) returns (s: Syntax)
    requires EncodeValue(v, depth, o).Ok?
    ensures Writes(s, v, depth, LayoutOf(o)) && Text(s) == EncodeValue(v, depth, o).value
    decreases v, 1
  {
    match v.kind
    case Null => s := SNull;
    case Bool => s := SBool(v.boolean);
    case Number =>
      var n := NumberSound(v.text, 0);
      s := SNumber(n);
      assert Cut(v.text, 0, |v.text|) == v.text;
    case String =>
      var items := QuotedItems(v.text);
      s := SString(items);
    case Array =>
      if v.elements == [] {
        s := SArray([], []);
        EmptyArrayWritten(v, depth, o);
      } else {
        var es := EncodedElements(v.elements, true, depth, o);
        s := SArray([], es);
        ArrayWritten(v, depth, o, es);
      }
    case Object =>
      if v.members == [] {
        s := SObject([], []);
        EmptyObjectWritten(v, depth, o);
      } else {
        var fs := EncodedMembers(v.members, true, depth, o);
        s := SObject([], fs);
        ObjectWritten(v, depth, o, fs);
      }
  }

  lemma EmptyArrayWritten(v: Value, depth: nat, o: Options)
    requires v.kind == Array && v.elements == [] && EncodeValue(v, depth, o).Ok?
    ensures Text(SArray([], [])) == EncodeValue(v, depth, o).value
  {
    assert EncodeElements([], true, depth, o) == Ok([]);
    assert [LBRACKET] + ([] + ([] + [RBRACKET])) == [LBRACKET] + [RBRACKET];
    assert [LBRACKET] + ([] + [RBRACKET]) == [LBRACKET] + [RBRACKET];
  }

  lemma EmptyObjectWritten(v: Value, depth: nat, o: Options)
    requires v.kind == Object && v.members == [] && EncodeValue(v, depth, o).Ok?
    ensures Text(SObject([], [])) == EncodeValue(v, depth, o).value
  {
    assert EncodeMembers([], true, depth, o) == Ok([]);
    assert [LBRACE] + ([] + ([] + [RBRACE])) == [LBRACE] + [RBRACE];
    assert [LBRACE] + ([] + [RBRACE]) == [LBRACE] + [RBRACE];
  }

  lemma ArrayWritten(v: Value, depth: nat, o: Options, es: seq<Element>)
    requires v.kind == Array && v.elements != [] && EncodeValue(v, depth, o).Ok?
    requires EncodeElements(v.elements, true, depth, o).Ok?
    requires ElementsText(es) == EncodeElements(v.elements, true, depth, o).value + (Newline(depth, o) + [RBRACKET])
    ensures Text(SArray([], es)) == EncodeValue(v, depth, o).value
  {
    hide EncodeElements, ElementsText;
    assert [] + ElementsText(es) == ElementsText(es);
  }

  lemma ObjectWritten(v: Value, depth: nat, o: Options, fs: seq<Field>)
    requires v.kind == Object && v.members != [] && EncodeValue(v, depth, o).Ok?
    requires EncodeMembers(v.members, true, depth, o).Ok?
    requires FieldsText(fs) == EncodeMembers(v.members, true, depth, o).value + (Newline(depth, o) + [RBRACE])
    ensures Text(SObject([], fs)) == EncodeValue(v, depth, o).value
  {
    hide EncodeMembers, FieldsText;
    assert [] + FieldsText(fs) == FieldsText(fs);
  }

  /** The elements, from the first line break up to the closing bracket. */
  lemma {:induction false} EncodedElements(vs: seq<Value>, first: bool, depth: nat, o: Options) returns (es: seq<Element>)
    requires vs != [] && EncodeElements(vs, first, depth, o).Ok?
    ensures es != [] && WritesElements(es, vs, depth, LayoutOf(o))
    ensures Comma(first) + ElementsText(es)
         == EncodeElements(vs, first, depth, o).value + (Newline(depth, o) + [RBRACKET])
    decreases vs, 0
  {
    var text := EncodeValue(vs[0], depth + 1, o).value;
    var rest := EncodeElements(vs[1..], false, depth, o).value;
    var s := EncodedLayout(vs[0], depth + 1, o);
    NewlineBreak(depth, o);
    NewlineBreak(depth + 1, o);
    ElementsWritten(vs, first, depth, o);
    hide *;
    var start, end := Newline(depth + 1, o), Newline(depth, o) + [RBRACKET];
    var more: seq<Element> := [];
    var e := Element(start, s, Newline(depth, o));
    if vs[1..] == [] {
      MoreElementsStart([]);
      LastJoin(Comma(first), start, text, end, rest);
    } else {
      more := EncodedElements(vs[1..], false, depth, o);
      e := Element(start, s, []);
      MoreElementsStart(more);
      NextComma();
      NextJoin(Comma(first), start, text, MoreElements(more), rest, end);
    }
    es := [e] + more;
    ElementWrites(e, more, vs, depth, LayoutOf(o));
  }

  /** One more element in front of a written list. */
  lemma {:induction false} ElementWrites(e: Element, more: seq<Element>, vs: seq<Value>, depth: nat, l: Layout)
    requires vs != [] && Break(e.before, depth + 1, l) && Writes(e.syntax, vs[0], depth + 1, l)
    requires if vs[1..] == [] then more == [] && Break(e.after, depth, l)
             else more != [] && WritesElements(more, vs[1..], depth, l) && e.after == []
    ensures WritesElements([e] + more, vs, depth, l)
    ensures ElementsText([e] + more) == e.before + (Text(e.syntax) + (e.after + MoreElements(more)))
  {
    var es := [e] + more;
    assert es[0] == e && es[1..] == more && |vs[1..]| == |vs| - 1;
    ElementsUnfold(es);
    hide Break, Writes, Text, MoreElements, ElementsText;
  }

  lemma {:induction false} FieldWrites(f: Field, more: seq<Field>, ms: seq<Member>, depth: nat, l: Layout)
    requires ms != [] && Break(f.before, depth + 1, l) && PlainText(f.name, ms[0].name) && f.gap == []
    requires f.element.before == (if l.pretty then [SPACE] else []) && Writes(f.element.syntax, ms[0].value, depth + 1, l)
    requires if ms[1..] == [] then more == [] && Break(f.element.after, depth, l)
             else more != [] && WritesFields(more, ms[1..], depth, l) && f.element.after == []
    ensures WritesFields([f] + more, ms, depth, l)
    ensures FieldsText([f] + more)
         == f.before + (StringText(f.name) + (f.gap + ([COLON] + (f.element.before
            + (Text(f.element.syntax) + (f.element.after + MoreFields(more)))))))
  {
    var fs := [f] + more;
    assert fs[0] == f && fs[1..] == more && |ms[1..]| == |ms| - 1;
    FieldsUnfold(fs);
    hide Break, Writes, Text, MoreFields, FieldsText, StringText, PlainText;
  }

  lemma NextComma()
    ensures Comma(false) == [COMMA]
  {
  }

  lemma ElementsCanon(vs: seq<Value>)
    requires vs != []
    ensures CanonElements(vs) == [Canon(vs[0])] + CanonElements(vs[1..])
    ensures vs[1..] == [] ==> CanonElements(vs[1..]) == []
  {
  }

  lemma ElementsWritten(vs: seq<Value>, first: bool, depth: nat, o: Options)
    requires vs != [] && EncodeElements(vs, first, depth, o).Ok?
    ensures EncodeValue(vs[0], depth + 1, o).Ok? && EncodeElements(vs[1..], false, depth, o).Ok?
    ensures EncodeElements(vs, first, depth, o).value
         == Comma(first) + (Newline(depth + 1, o)
            + (EncodeValue(vs[0], depth + 1, o).value + EncodeElements(vs[1..], false, depth, o).value))
    ensures vs[1..] == [] ==> EncodeElements(vs[1..], false, depth, o).value == []
  {
  }

  lemma LastJoin(comma: bytes, start: bytes, text: bytes, end: bytes, rest: bytes)
    requires rest == []
    ensures comma + (start + (text + end)) == (comma + (start + (text + rest))) + end
  {
  }

  lemma NextJoin(comma: bytes, start: bytes, text: bytes, more: bytes, rest: bytes, end: bytes)
    requires more == rest + end
    ensures comma + (start + (text + ([] + more))) == (comma + (start + (text + rest))) + end
  {
  }

  lemma MembersWritten(ms: seq<Member>, first: bool, depth: nat, o: Options)
    requires ms != [] && EncodeMembers(ms, first, depth, o).Ok?
    ensures EncodeString(ms[0].name).Ok? && EncodeValue(ms[0].value, depth + 1, o).Ok?
    ensures EncodeMembers(ms[1..], false, depth, o).Ok?
    ensures EncodeMembers(ms, first, depth, o).value
         == Comma(first) + (Newline(depth + 1, o) + (EncodeString(ms[0].name).value + (Colon(o)
            + (EncodeValue(ms[0].value, depth + 1, o).value + EncodeMembers(ms[1..], false, depth, o).value))))
    ensures ms[1..] == [] ==> EncodeMembers(ms[1..], false, depth, o).value == []
  {
  }

  /** The blank a pretty-printed colon is followed by. */
  function ColonGap(o: Options): bytes
  {
    if o.pretty then [SPACE] else []
  }

  lemma ColonSplit(o: Options)
    ensures Colon(o) == [COLON] + ColonGap(o) && ColonGap(o) == if LayoutOf(o).pretty then [SPACE] else []
  {
  }

  lemma {:induction false} EncodedMembers(ms: seq<Member>, first: bool, depth: nat, o: Options) returns (fs: seq<Field>)
    requires ms != [] && EncodeMembers(ms, first, depth, o).Ok?
    ensures fs != [] && WritesFields(fs, ms, depth, LayoutOf(o))
    ensures Comma(first) + FieldsText(fs)
         == EncodeMembers(ms, first, depth, o).value + (Newline(depth, o) + [RBRACE])
    decreases ms, 0
  {
    var name := EncodeString(ms[0].name).value;
    var text := EncodeValue(ms[0].value, depth + 1, o).value;
    var rest := EncodeMembers(ms[1..], false, depth, o).value;
    var items := QuotedItems(ms[0].name);
    var s := EncodedLayout(ms[0].value, depth + 1, o);
    NewlineBreak(depth, o);
    NewlineBreak(depth + 1, o);
    MembersWritten(ms, first, depth, o);
    ColonSplit(o);
    hide *;
    var start, end := Newline(depth + 1, o), Newline(depth, o) + [RBRACE];
    var more: seq<Field> := [];
    var f := Field(start, items, [], Element(ColonGap(o), s, Newline(depth, o)));
    if ms[1..] == [] {
      MoreFieldsStart([]);
      LastFieldJoin(Comma(first), start, name, ColonGap(o), text, end, rest);
    } else {
      more := EncodedMembers(ms[1..], false, depth, o);
      f := Field(start, items, [], Element(ColonGap(o), s, []));
      MoreFieldsStart(more);
      NextComma();
      NextFieldJoin(Comma(first), start, name, ColonGap(o), text, MoreFields(more), rest, end);
    }
    fs := [f] + more;
    FieldWrites(f, more, ms, depth, LayoutOf(o));
  }

  lemma LastFieldJoin(comma: bytes, start: bytes, name: bytes, gap: bytes, text: bytes, end: bytes, rest: bytes)
    requires rest == []
    ensures comma + (start + (name + ([] + ([COLON] + (gap + (text + end))))))
         == (comma + (start + (name + (([COLON] + gap) + (text + rest))))) + end
  {
  }

  lemma NextFieldJoin(comma: bytes, start: bytes, name: bytes, gap: bytes, text: bytes, more: bytes, rest: bytes, end: bytes)
    requires more == rest + end
    ensures comma + (start + (name + ([] + ([COLON] + (gap + (text + ([] + more)))))))
         == (comma + (start + (name + (([COLON] + gap) + (text + rest))))) + end
  {
  }

  /** Pretty output without an indent of its own is indented by two spaces. */
  function LayoutFor(options: Options): Layout
  {
    Layout(options.pretty, if options.pretty && options.indent == [] then Ascii("  ") else options.indent)
  }

  /** Encode writes the tree that lays the value out. */
  lemma EncodeLayout(v: Value, options: Options) returns (s: Syntax)
    requires Encode(v, options).Ok?
    ensures Writes(s, v, 0, LayoutFor(options)) && Text(s) == Encode(v, options).value
  {
    var o := NormalizedOptions(options).value;
    s := EncodedLayout(v, 0, o);
    assert Ascii("  ") == [SPACE, SPACE];
  }

  // ------------------------------------------------------ what the tree denotes

  lemma {:induction false} WritesCanon(s: Syntax, v: Value, d: nat, l: Layout)
    requires Writes(s, v, d, l) && SyntaxOk(s)
    ensures Tree(s) == Canon(v)
    decreases s, 1
  {
    match s
    case SArray(gap, elements) => WritesElementsCanon(elements, v.elements, d, l);
    case SObject(gap, fields) => WritesFieldsCanon(fields, v.members, d, l);
    case _ =>
  }

  lemma {:induction false} WritesElementsCanon(es: seq<Element>, vs: seq<Value>, d: nat, l: Layout)
    requires WritesElements(es, vs, d, l) && ElementsOk(es)
    ensures ElementTrees(es) == CanonElements(vs)
    decreases es, 0
  {
    if es != [] {
      WritesCanon(es[0].syntax, vs[0], d + 1, l);
      WritesElementsCanon(es[1..], vs[1..], d, l);
      hide Writes, Tree, Canon, Break, SyntaxOk;
    }
  }

  lemma {:induction false} WritesFieldsCanon(fs: seq<Field>, ms: seq<Member>, d: nat, l: Layout)
    requires WritesFields(fs, ms, d, l) && FieldsOk(fs)
    ensures FieldTrees(fs) == CanonMembers(ms)
    decreases fs, 0
  {
    if fs != [] {
      WritesCanon(fs[0].element.syntax, ms[0].value, d + 1, l);
      WritesFieldsCanon(fs[1..], ms[1..], d, l);
      hide Writes, Tree, Canon, Break, SyntaxOk;
    }
  }

  /** With a blank indent the tree is a document of the grammar and denotes the value's canonical form. */
  lemma EncodedSyntax(v: Value, depth: nat, o: Options) returns (s: Syntax)
    requires EncodeValue(v, depth, o).Ok? && Blank(o)
    ensures SyntaxOk(s) && Text(s) == EncodeValue(v, depth, o).value && Tree(s) == Canon(v)
  {
    s := EncodedLayout(v, depth, o);
    WritesSyntax(s, v, depth, LayoutOf(o));
    WritesCanon(s, v, depth, LayoutOf(o));
  }

  // --------------------------------------------------------------- round trip

  /**
   * The round trip: whatever the encoder writes with a blank indent decodes,
   * within limits the value fits, to the value's canonical form.
   */
  lemma RoundTrip(v: Value, options: Options, limits: Limits)
    requires Encode(v, options).Ok? && Blank(options)
    requires NoNegative(limits) && Fits(Encode(v, options).value, v, limits)
    ensures Decode(Encode(v, options).value, limits) == Ok(Canon(v))
    ensures Decode(Encode(v, options).value, limits) == Ok(v) <==> Canon(v) == v
  {
    var o := NormalizedOptions(options).value;
    var d := Encode(v, options).value;
    var s := EncodedSyntax(v, 0, o);
    CanonCosts(v, Bound(limits.maxStringBytes, 16 * 1024));
    hide Text, Tree, SyntaxOk, EncodeValue, Nodes, Depth, StringsFit, Decode, Canon;
    assert [] + (Text(s) + []) == Text(s);
    assert IsFramed(d, [], s, []);
    DecodeComplete(d, [], s, [], limits);
  }

  /** With equal depth limits the decoder never rejects for depth what the encoder wrote. */
  lemma DepthLimitsAgree(v: Value, options: Options, limits: Limits)
    requires options.maxDepth == limits.maxDepth && NoNegative(limits)
    ensures Encode(v, options).Ok? <==> Encodable(v) && Depth(v) <= Bound(limits.maxDepth, 32)
  {
    EncodeExactly(v, options);
  }

  // ------------------------------------------------- what was decoded encodes

  lemma {:induction false} MeaningValid(items: seq<Item>, out: bytes)
    requires ItemsOk(items) && ValidFrom(out, 0)
    ensures ValidFrom(out + Meaning(items), 0)
    decreases |items|
  {
    hide *;
    ItemsUnfold(items);
    if items == [] {
      assert out + Meaning(items) == out;
    } else {
      ItemMeaningRune(items[0]);
      ValidAppend(out, ItemMeaning(items[0]), 0);
      MeaningValid(items[1..], out + ItemMeaning(items[0]));
      assert out + ItemMeaning(items[0]) + Meaning(items[1..]) == out + Meaning(items);
    }
  }

  lemma ItemMeaningRune(item: Item)
    requires ItemOk(item)
    ensures ItemMeaning(item) != [] && RuneSize(ItemMeaning(item), 0) == |ItemMeaning(item)|
  {
    match item
    case Raw(text) =>
    case Short(letter) =>
    case Hex(digits) => EncodeThenRead(HexValue(digits));
    case Pair(high, low) => EncodeThenRead(Combine(HexValue(high), HexValue(low)));
  }

  lemma MeaningIsValid(items: seq<Item>)
    requires ItemsOk(items)
    ensures Valid(Meaning(items))
  {
    MeaningValid(items, []);
    assert [] + Meaning(items) == Meaning(items);
  }

  /** A decoded value is encodable and already canonical. */
  lemma {:induction false} TreeEncodable(s: Syntax)
    requires SyntaxOk(s)
    ensures Encodable(Tree(s)) && Canon(Tree(s)) == Tree(s)
    decreases s, 1
  {
    match s
    case SNumber(n) =>
      assert At(NumberText(n), 0, NumberText(n));
      NumberRead(NumberText(n), 0, n);
    case SString(items) => MeaningIsValid(items);
    case SArray(gap, elements) => ElementTreesEncodable(elements);
    case SObject(gap, fields) => FieldTreesEncodable(fields);
    case _ =>
  }

  lemma {:induction false} ElementTreesEncodable(elements: seq<Element>)
    requires ElementsOk(elements)
    ensures ElementsEncodable(ElementTrees(elements)) && CanonElements(ElementTrees(elements)) == ElementTrees(elements)
    decreases elements, 0
  {
    if elements != [] {
      ElementsStart(elements);
      TreesStart(elements);
      TreeEncodable(elements[0].syntax);
      ElementTreesEncodable(elements[1..]);
      hide Tree, ElementTrees, SyntaxOk, ElementsOk;
      var v, vs := Tree(elements[0].syntax), ElementTrees(elements[1..]);
      assert ([v] + vs)[1..] == vs;
    }
  }

  lemma {:induction false} FieldTreesEncodable(fields: seq<Field>)
    requires FieldsOk(fields)
    ensures MembersEncodable(FieldTrees(fields)) && CanonMembers(FieldTrees(fields)) == FieldTrees(fields)
    decreases fields, 0
  {
    if fields != [] {
      FieldsStart(fields);
      MeaningIsValid(fields[0].name);
      TreeEncodable(fields[0].element.syntax);
      FieldTreesEncodable(fields[1..]);
      hide Tree, FieldTrees, SyntaxOk, FieldsOk, Meaning;
      var m, ms := Member(Meaning(fields[0].name), Tree(fields[0].element.syntax)), FieldTrees(fields[1..]);
      assert ([m] + ms)[1..] == ms;
    }
  }

  /**
   * An accepted document's value re-encodes under the same depth limit, and
   * what is then written decodes to the same value.
   */
  lemma DecodedReencodes(d: bytes, limits: Limits, options: Options)
    requires Decode(d, limits).Ok? && Blank(options) && options.maxDepth == limits.maxDepth
    ensures Encode(Decode(d, limits).value, options).Ok?
    ensures var again := Encode(Decode(d, limits).value, options).value;
            |again| <= Bound(limits.maxBytes, 64 * 1024) ==> Decode(again, limits) == Decode(d, limits)
  {
    var s := DecodeSound(d, limits);
    TreeEncodable(s);
    DepthLimitsAgree(Tree(s), options, limits);
    hide Decode, Encode, Tree, SyntaxOk, Canon, Encodable, Nodes, Depth, StringsFit;
    if |Encode(Tree(s), options).value| <= Bound(limits.maxBytes, 64 * 1024) {
      RoundTrip(Tree(s), options, limits);
    }
  }
}
