/**
 * The language of JSON documents, after sections 2 to 7 of RFC 8259, written
 * as syntax trees and the text they stand for.  Nothing here scans: this is
 * the reference the decoder and the encoder are compared with.
 */
module JsonGrammar {
  import opened Common
  import opened Utf8
  import opened JsonModel

  // ------------------------------------------------------------- characters

  function Ascii(s: string): bytes
    requires forall i :: 0 <= i < |s| ==> s[i] < 128 as char
  {
    seq(|s|, i requires 0 <= i < |s| => s[i] as int)
  }

  /** Section 2: the structural characters, white space and literal names; section 6: the characters of numbers. */
  lemma Characters()
    ensures [LBRACKET, LBRACE, RBRACKET, RBRACE, COLON, COMMA] == Ascii("[{]}:,")
    ensures [QUOTE, BACKSLASH, LOWER_U] == Ascii("\"\\u")
    ensures [MINUS, PLUS, DOT, ZERO, LOWER_E, UPPER_E] == Ascii("-+.0eE")
    ensures NULL_TEXT == Ascii("null") && TRUE_TEXT == Ascii("true") && FALSE_TEXT == Ascii("false")
    ensures forall b: byte :: IsSpace(b) <==> b as char in " \t\r\n"
    ensures forall b: byte :: IsDigit(b) <==> '0' <= b as char <= '9'
  {
  }

  // ---------------------------------------------------------------- numbers

  datatype Exponent = Exponent(letter: byte, sign: bytes, digits: bytes)

  /** number = [ minus ] int [ frac ] [ exp ] */
  datatype NumberSyntax = NumberSyntax(minus: bool, integer: bytes, fraction: Option<bytes>, exponent: Option<Exponent>)

  predicate Digits(s: bytes)
  {
    s != [] && forall i :: 0 <= i < |s| ==> IsDigit(s[i])
  }

  predicate NumberOk(n: NumberSyntax)
  {
    && Digits(n.integer) && (n.integer[0] == ZERO ==> |n.integer| == 1)
    && (n.fraction.Some? ==> Digits(n.fraction.value))
    && (n.exponent.Some? ==>
          && n.exponent.value.letter in [LOWER_E, UPPER_E]
          && n.exponent.value.sign in [[], [PLUS], [MINUS]]
          && Digits(n.exponent.value.digits))
  }

  function FractionText(f: Option<bytes>): bytes
  {
    match f
    case None => []
    case Some(digits) => [DOT] + digits
  }

  function ExponentText(e: Option<Exponent>): bytes
  {
    match e
    case None => []
    case Some(Exponent(letter, sign, digits)) => [letter] + (sign + digits)
  }

  function SignText(minus: bool): bytes
  {
    if minus then [MINUS] else []
  }

  function NumberText(n: NumberSyntax): bytes
  {
    SignText(n.minus) + (n.integer + (FractionText(n.fraction) + ExponentText(n.exponent)))
  }

  // ---------------------------------------------------------------- strings

  /** One unit of a string: a character as it is, a short escape, or one or two \u escapes. */
  datatype Item = Raw(text: bytes) | Short(letter: byte) | Hex(digits: bytes) | Pair(high: bytes, low: bytes)

  /** HEXDIG of section 2.3 of RFC 5234, in either letter case. */
  function Nibble(digit: char): Option<nat>
  {
    match digit
    case '0' => Some(0)
    case '1' => Some(1)
    case '2' => Some(2)
    case '3' => Some(3)
    case '4' => Some(4)
    case '5' => Some(5)
    case '6' => Some(6)
    case '7' => Some(7)
    case '8' => Some(8)
    case '9' => Some(9)
    case 'A' | 'a' => Some(10)
    case 'B' | 'b' => Some(11)
    case 'C' | 'c' => Some(12)
    case 'D' | 'd' => Some(13)
    case 'E' | 'e' => Some(14)
    case 'F' | 'f' => Some(15)
    case _ => None
  }

  lemma NibbleIsDigit(b: byte)
    ensures Nibble(b as char) == HexDigit(b)
  {
  }

  /** The two-character escapes of section 7: quotation mark, backslash, slash, and five control characters. */
  function ShortMeaning(letter: char): Option<byte>
  {
    match letter
    case '"' => Some(0x22)
    case '\\' => Some(0x5C)
    case '/' => Some(0x2F)
    case 'b' => Some(0x08)
    case 'f' => Some(0x0C)
    case 'n' => Some(0x0A)
    case 'r' => Some(0x0D)
    case 't' => Some(0x09)
    case _ => None
  }

  lemma ShortMeaningIsEscape(b: byte)
    ensures ShortMeaning(b as char) == ShortEscape(b)
  {
  }

  predicate HexText(s: bytes)
  {
    |s| == 4 && forall i :: 0 <= i < 4 ==> Nibble(s[i] as char).Some?
  }

  function HexValue(s: bytes): nat
    requires HexText(s)
  {
    0x1000 * Nibble(s[0] as char).value + 0x100 * Nibble(s[1] as char).value
    + 0x10 * Nibble(s[2] as char).value + Nibble(s[3] as char).value
  }

  /** Section 7: a scalar beyond the basic plane is written as its two UTF-16 halves (section 2.1 of RFC 2781). */
  predicate PairOf(r: int, high: nat, low: nat)
  {
    && 0x1_0000 <= r < 0x11_0000
    && high == 0xD800 + (r - 0x1_0000) / 0x400
    && low == 0xDC00 + (r - 0x1_0000) % 0x400
  }

  /** The decoder's arithmetic inverts the halving. */
  lemma CombineExactly(high: nat, low: nat, r: int)
    ensures PairOf(r, high, low) <==> HighSurrogate(high) && LowSurrogate(low) && r == Combine(high, low)
  {
    if HighSurrogate(high) && LowSurrogate(low) {
      var offset := (high - 0xD800) * 0x400 + (low - 0xDC00);
      assert offset / 0x400 == high - 0xD800 && offset % 0x400 == low - 0xDC00;
    }
    if PairOf(r, high, low) {
      var offset := r - 0x1_0000;
      assert offset == offset / 0x400 * 0x400 + offset % 0x400;
    }
  }

  /** Section 7: unescaped characters, and escapes; section 8.2: no unpaired surrogates. */
  ghost predicate ItemOk(item: Item)
  {
    match item
    case Raw(text) =>
      text != [] && RuneSize(text, 0) == |text| && text[0] >= 0x20 && text[0] != QUOTE && text[0] != BACKSLASH
    case Short(letter) => ShortMeaning(letter as char).Some?
    case Hex(digits) => HexText(digits) && IsScalar(HexValue(digits))
    case Pair(high, low) =>
      HexText(high) && HexText(low) && exists r: int :: PairOf(r, HexValue(high), HexValue(low))
  }

  function ItemText(item: Item): bytes
  {
    match item
    case Raw(text) => text
    case Short(letter) => [BACKSLASH, letter]
    case Hex(digits) => [BACKSLASH, LOWER_U] + digits
    case Pair(high, low) => [BACKSLASH, LOWER_U] + (high + ([BACKSLASH, LOWER_U] + low))
  }

  /** The bytes an item stands for. */
  ghost function ItemMeaning(item: Item): bytes
    requires ItemOk(item)
  {
    match item
    case Raw(text) => text
    case Short(letter) => [ShortMeaning(letter as char).value]
    case Hex(digits) => EncodeRune(HexValue(digits))
    case Pair(high, low) =>
      var r: int :| PairOf(r, HexValue(high), HexValue(low));
      EncodeRune(r)
  }

  ghost predicate ItemsOk(items: seq<Item>)
  {
    forall i :: 0 <= i < |items| ==> ItemOk(items[i])
  }

  /** The items up to and including the closing quote. */
  function ItemsText(items: seq<Item>): (r: bytes)
    ensures r != []
  {
    if items == [] then [QUOTE] else ItemText(items[0]) + ItemsText(items[1..])
  }

  ghost function Meaning(items: seq<Item>): bytes
    requires ItemsOk(items)
  {
    if items == [] then [] else ItemMeaning(items[0]) + Meaning(items[1..])
  }

  function StringText(items: seq<Item>): bytes
  {
    [QUOTE] + ItemsText(items)
  }

  // ----------------------------------------------------------------- values

  datatype Syntax =
    | SNull
    | SBool(value: bool)
    | SNumber(number: NumberSyntax)
    | SString(items: seq<Item>)
    | SArray(gap: bytes, elements: seq<Element>)
    | SObject(gap: bytes, fields: seq<Field>)

  /** An element with the white space around it. */
  datatype Element = Element(before: bytes, syntax: Syntax, after: bytes)

  datatype Field = Field(before: bytes, name: seq<Item>, gap: bytes, element: Element)

  predicate Spaces(s: bytes)
  {
    forall i :: 0 <= i < |s| ==> IsSpace(s[i])
  }

  ghost predicate SyntaxOk(s: Syntax)
    decreases s, 1
  {
    match s
    case SNumber(number) => NumberOk(number)
    case SString(items) => ItemsOk(items)
    case SArray(gap, elements) => Spaces(gap) && (elements != [] ==> gap == []) && ElementsOk(elements)
    case SObject(gap, fields) => Spaces(gap) && (fields != [] ==> gap == []) && FieldsOk(fields)
    case _ => true
  }

  ghost predicate ElementOk(e: Element)
    decreases e, 0
  {
    Spaces(e.before) && SyntaxOk(e.syntax) && Spaces(e.after)
  }

  ghost predicate ElementsOk(elements: seq<Element>)
    decreases elements, 0
  {
    elements == [] || (ElementOk(elements[0]) && ElementsOk(elements[1..]))
  }

  ghost predicate FieldsOk(fields: seq<Field>)
    decreases fields, 0
  {
    fields == []
    || (Spaces(fields[0].before) && ItemsOk(fields[0].name) && Spaces(fields[0].gap) && ElementOk(fields[0].element)
        && FieldsOk(fields[1..]))
  }

  function Text(s: Syntax): bytes
    decreases s, 1
  {
    match s
    case SNull => NULL_TEXT
    case SBool(b) => if b then TRUE_TEXT else FALSE_TEXT
    case SNumber(number) => NumberText(number)
    case SString(items) => StringText(items)
    case SArray(gap, elements) => [LBRACKET] + (gap + ElementsText(elements))
    case SObject(gap, fields) => [LBRACE] + (gap + FieldsText(fields))
  }

  /** An element and everything behind it. */
  function ElementText(e: Element, rest: bytes): bytes
    decreases e, 0
  {
    e.before + (Text(e.syntax) + (e.after + rest))
  }

  /** Elements separated by commas, up to and including the closing bracket. */
  function ElementsText(elements: seq<Element>): bytes
    decreases elements, 1
  {
    if elements == [] then [RBRACKET]
    else ElementText(elements[0], MoreElements(elements[1..]))
  }

  function MoreElements(elements: seq<Element>): bytes
    decreases elements, 2
  {
    if elements == [] then [RBRACKET] else [COMMA] + ElementsText(elements)
  }

  function FieldText(f: Field, rest: bytes): bytes
    decreases f, 0
  {
    f.before + (StringText(f.name) + (f.gap + ([COLON] + ElementText(f.element, rest))))
  }

  /** Members separated by commas, up to and including the closing brace. */
  function FieldsText(fields: seq<Field>): bytes
    decreases fields, 1
  {
    if fields == [] then [RBRACE]
    else FieldText(fields[0], MoreFields(fields[1..]))
  }

  function MoreFields(fields: seq<Field>): bytes
    decreases fields, 2
  {
    if fields == [] then [RBRACE] else [COMMA] + FieldsText(fields)
  }

  /** The value a syntax tree denotes: member order and duplicate names are kept. */
  ghost function Tree(s: Syntax): Value
    requires SyntaxOk(s)
    decreases s, 1
  {
    match s
    case SNull => Value(Null, false, [], [], [])
    case SBool(b) => Value(Bool, b, [], [], [])
    case SNumber(number) => Value(Number, false, NumberText(number), [], [])
    case SString(items) => Value(String, false, Meaning(items), [], [])
    case SArray(gap, elements) => Value(Array, false, [], ElementTrees(elements), [])
    case SObject(gap, fields) => Value(Object, false, [], [], FieldTrees(fields))
  }

  ghost function ElementTrees(elements: seq<Element>): (r: seq<Value>)
    requires ElementsOk(elements)
    ensures |r| == |elements|
    decreases elements, 0
  {
    if elements == [] then []
    else
      assert ElementOk(elements[0]);
      [Tree(elements[0].syntax)] + ElementTrees(elements[1..])
  }

  ghost function FieldTrees(fields: seq<Field>): (r: seq<Member>)
    requires FieldsOk(fields)
    ensures |r| == |fields|
    decreases fields, 0
  {
    if fields == [] then []
    else
      assert ElementOk(fields[0].element);
      [Member(Meaning(fields[0].name), Tree(fields[0].element.syntax))] + FieldTrees(fields[1..])
  }

  /** JSON-text = ws value ws */
  ghost predicate IsDocument(d: bytes, s: Syntax)
    requires SyntaxOk(s)
  {
    exists lead: bytes, trail: bytes :: IsFramed(d, lead, s, trail)
  }

  ghost predicate IsFramed(d: bytes, lead: bytes, s: Syntax, trail: bytes)
  {
    Spaces(lead) && Spaces(trail) && d == lead + (Text(s) + trail)
  }

  // ----------------------------------------------------------------- limits

  function Max(a: nat, b: nat): nat
  {
    if a < b then b else a
  }

  /** The number of values in a tree. */
  function Nodes(v: Value): (n: nat)
    ensures n >= 1
    decreases v, 1
  {
    1 + (if v.kind == Array then ElementNodes(v.elements)
         else if v.kind == Object then MemberNodes(v.members) else 0)
  }

  function ElementNodes(vs: seq<Value>): nat
    decreases vs, 0
  {
    if vs == [] then 0 else Nodes(vs[0]) + ElementNodes(vs[1..])
  }

  function MemberNodes(ms: seq<Member>): nat
    decreases ms, 0
  {
    if ms == [] then 0 else Nodes(ms[0].value) + MemberNodes(ms[1..])
  }

  /** How deep arrays and objects are nested. */
  function Depth(v: Value): nat
    decreases v, 1
  {
    if v.kind == Array then 1 + ElementDepth(v.elements)
    else if v.kind == Object then 1 + MemberDepth(v.members)
    else 0
  }

  function ElementDepth(vs: seq<Value>): nat
    decreases vs, 0
  {
    if vs == [] then 0 else Max(Depth(vs[0]), ElementDepth(vs[1..]))
  }

  function MemberDepth(ms: seq<Member>): nat
    decreases ms, 0
  {
    if ms == [] then 0 else Max(Depth(ms[0].value), MemberDepth(ms[1..]))
  }

  /** Every decoded string and name has at most `max` bytes. */
  predicate StringsFit(v: Value, max: int)
    decreases v, 1
  {
    if v.kind == String then |v.text| <= max
    else if v.kind == Array then ElementStringsFit(v.elements, max)
    else if v.kind == Object then MemberStringsFit(v.members, max)
    else true
  }

  predicate ElementStringsFit(vs: seq<Value>, max: int)
    decreases vs, 0
  {
    vs == [] || (StringsFit(vs[0], max) && ElementStringsFit(vs[1..], max))
  }

  predicate MemberStringsFit(ms: seq<Member>, max: int)
    decreases ms, 0
  {
    ms == [] || (|ms[0].name| <= max && StringsFit(ms[0].value, max) && MemberStringsFit(ms[1..], max))
  }

  /** A limit of zero stands for the default. */
  function Bound(limit: int, otherwise: int): int
  {
    if limit == 0 then otherwise else limit
  }

  predicate NoNegative(l: Limits)
  {
    0 <= l.maxBytes && 0 <= l.maxDepth && 0 <= l.maxNodes && 0 <= l.maxStringBytes
  }

  predicate Fits(d: bytes, v: Value, l: Limits)
  {
    && |d| <= Bound(l.maxBytes, 64 * 1024) && Depth(v) <= Bound(l.maxDepth, 32)
    && Nodes(v) <= Bound(l.maxNodes, 4096) && StringsFit(v, Bound(l.maxStringBytes, 16 * 1024))
  }
}
