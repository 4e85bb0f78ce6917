/**
 * How the encoder lays a value out: the syntax tree it writes, down to every
 * line break and escape.  Nothing here says how the text is produced.
 */
module JsonLayout {
  import opened Common
  import opened Utf8
  import opened JsonModel
  import opened JsonGrammar

  datatype Layout = Layout(pretty: bool, indent: bytes)

  /** `s` is `n` copies of `piece`. */
  predicate Copies(s: bytes, piece: bytes, n: nat)
  {
    if n == 0 then s == [] else piece <= s && Copies(s[|piece|..], piece, n - 1)
  }

  /** In pretty output a line feed and `n` indents, otherwise nothing. */
  predicate Break(s: bytes, n: nat, l: Layout)
  {
    if l.pretty then s != [] && s[0] == '\n' as int && Copies(s[1..], l.indent, n) else s == []
  }

  /**
   * A character is written as it is, unless it is a quotation mark, a
   * backslash or a control character: those have their short escapes, the
   * slash excepted, or else \u00 and two lower-case digits.
   */
  ghost predicate PlainItem(item: Item)
  {
    match item
    case Raw(_) => true
    case Short(letter) => letter as char != '/'
    case Hex(digits) =>
      && HexText(digits) && HexValue(digits) < 0x20 && (forall i :: 0 <= i < 4 ==> digits[i] as char in "0123456789abcdef")
      && HexValue(digits) !in [0x08, 0x09, 0x0A, 0x0C, 0x0D]
    case Pair(_, _) => false
  }

  ghost predicate PlainText(items: seq<Item>, text: bytes)
  {
    ItemsOk(items) && (forall i :: 0 <= i < |items| ==> PlainItem(items[i])) && Meaning(items) == text
  }

  /** `s` is how `v` is written at nesting depth `d`. */
  ghost predicate Writes(s: Syntax, v: Value, d: nat, l: Layout)
    decreases s, 1
  {
    match s
    case SNull => v.kind == Null
    case SBool(b) => v.kind == Bool && v.boolean == b
    case SNumber(n) => v.kind == Number && NumberOk(n) && NumberText(n) == v.text
    case SString(items) => v.kind == String && PlainText(items, v.text)
    case SArray(gap, elements) => v.kind == Array && gap == [] && WritesElements(elements, v.elements, d, l)
    case SObject(gap, fields) => v.kind == Object && gap == [] && WritesFields(fields, v.members, d, l)
  }

  /** An element, the last of its list or not, after `before`. */
  ghost predicate WritesElement(e: Element, v: Value, last: bool, d: nat, l: Layout)
    decreases e, 0
  {
    Writes(e.syntax, v, d + 1, l) && if last then Break(e.after, d, l) else e.after == []
  }

  /** Each element on a line of its own, one level deeper; the closing bracket on its own line. */
  ghost predicate WritesElements(es: seq<Element>, vs: seq<Value>, d: nat, l: Layout)
    decreases es, 0
  {
    && |es| == |vs|
    && (es != [] ==>
          && Break(es[0].before, d + 1, l) && WritesElement(es[0], vs[0], |es| == 1, d, l)
          && WritesElements(es[1..], vs[1..], d, l))
  }

  /** Members likewise, with one space behind the colon in pretty output. */
  ghost predicate WritesFields(fs: seq<Field>, ms: seq<Member>, d: nat, l: Layout)
    decreases fs, 0
  {
    && |fs| == |ms|
    && (fs != [] ==>
          && Break(fs[0].before, d + 1, l) && PlainText(fs[0].name, ms[0].name) && fs[0].gap == []
          && fs[0].element.before == (if l.pretty then [' ' as int] else [])
          && WritesElement(fs[0].element, ms[0].value, |fs| == 1, d, l)
          && WritesFields(fs[1..], ms[1..], d, l))
  }

  // ------------------------------------------------ white space and well-formedness

  lemma {:induction false} CopiesSpaces(s: bytes, piece: bytes, n: nat)
    requires Copies(s, piece, n) && Spaces(piece)
    ensures Spaces(s)
    decreases n
  {
    if n > 0 {
      var rest := s[|piece|..];
      CopiesSpaces(rest, piece, n - 1);
      assert s == piece + rest;
    }
  }

  lemma BreakSpaces(s: bytes, n: nat, l: Layout)
    requires Break(s, n, l) && (l.pretty ==> Spaces(l.indent))
    ensures Spaces(s)
  {
    if l.pretty {
      CopiesSpaces(s[1..], l.indent, n);
      assert s == [s[0]] + s[1..];
      Characters();
    }
  }

  /** With a blank indent what is written is a document of the grammar. */
  lemma {:induction false} WritesSyntax(s: Syntax, v: Value, d: nat, l: Layout)
    requires Writes(s, v, d, l) && (l.pretty ==> Spaces(l.indent))
    ensures SyntaxOk(s)
    decreases s, 1
  {
    match s
    case SArray(gap, elements) => WritesElementsSyntax(elements, v.elements, d, l);
    case SObject(gap, fields) => WritesFieldsSyntax(fields, v.members, d, l);
    case _ =>
  }

  lemma {:induction false} WritesElementSyntax(e: Element, v: Value, last: bool, d: nat, l: Layout)
    requires WritesElement(e, v, last, d, l) && Spaces(e.before) && (l.pretty ==> Spaces(l.indent))
    ensures ElementOk(e)
    decreases e, 0
  {
    WritesSyntax(e.syntax, v, d + 1, l);
    if last {
      BreakSpaces(e.after, d, l);
    }
  }

  lemma {:induction false} WritesElementsSyntax(es: seq<Element>, vs: seq<Value>, d: nat, l: Layout)
    requires WritesElements(es, vs, d, l) && (l.pretty ==> Spaces(l.indent))
    ensures ElementsOk(es)
    decreases es, 0
  {
    if es != [] {
      BreakSpaces(es[0].before, d + 1, l);
      WritesElementSyntax(es[0], vs[0], |es| == 1, d, l);
      WritesElementsSyntax(es[1..], vs[1..], d, l);
    }
  }

  lemma {:induction false} WritesFieldsSyntax(fs: seq<Field>, ms: seq<Member>, d: nat, l: Layout)
    requires WritesFields(fs, ms, d, l) && (l.pretty ==> Spaces(l.indent))
    ensures FieldsOk(fs)
    decreases fs, 0
  {
    if fs != [] {
      BreakSpaces(fs[0].before, d + 1, l);
      WritesElementSyntax(fs[0].element, ms[0].value, |fs| == 1, d, l);
      WritesFieldsSyntax(fs[1..], ms[1..], d, l);
    }
  }
}
