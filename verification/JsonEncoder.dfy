/**
 * The streaming encoder as the object it is in playdate/json/encode.go: it
 * writes piece by piece to a writer that may fail at any call.  Without a
 * failed write it has written exactly what JsonEncode says, or it has reported
 * a value that cannot be encoded.
 */
module JsonEncoder {
  import opened Common
  import opened Utf8
  import opened JsonModel
  import opened JsonEncode
  import opened JsonGrammar
  import opened JsonLayout
  import opened JsonParser

  /** How one call of the underlying writer behaves: how much it takes, and whether it reports an error. */
  datatype Response = Response(limit: Option<nat>, error: bool)

  class Writer {
    const behave: nat -> Response
    var calls: nat
    var out: bytes
    /** Some write was refused or cut short. */
    ghost var lost: bool

    constructor (behave: nat -> Response)
      ensures this.behave == behave && out == [] && calls == 0 && !lost
    {
      this.behave := behave;
      calls, out, lost := 0, [], false;
    }

    /** A writer that takes every text and never reports an error. */
    ghost predicate TakesAll()
    {
      forall n :: behave(n) == Response(None, false)
    }

    method WriteString(text: bytes) returns (count: nat, error: bool)
      modifies this
      ensures count <= |text| && out == old(out) + text[..count]
      ensures TakesAll() ==> !error && count == |text|
      ensures lost <==> old(lost) || error || count != |text|
    {
      var response := behave(calls);
      calls := calls + 1;
      count := match response.limit
        case None => |text|
        case Some(limit) => if limit < |text| then limit else |text|;
      error := response.error;
      out := out + text[..count];
      lost := lost || error || count != |text|;
    }
  }

  datatype Failure = Rejected | WriteFailed | BadLimits

  class Encoder {
    const writer: Writer
    const options: Options

    constructor (writer: Writer, options: Options)
      ensures this.writer == writer && this.options == options
    {
      this.writer := writer;
      this.options := options;
    }

    /** What a method that should write `text` guarantees when it cannot fail otherwise. */
    static ghost predicate Sent(before: bytes, after: bytes, lost: bool, lost': bool, all: bool, text: bytes, ok: bool)
    {
      && before <= after <= before + text
      && (if ok then after == before + text && lost' == lost else lost' && !all)
    }

    /** After a partial output of the first part of a text. */
    static lemma Cut(before: bytes, after: bytes, done: bytes, text: bytes)
      requires after <= before + done && done <= text
      ensures after <= before + text
    {
      assert before + text == before + done + text[|done|..];
    }

    method Write(text: bytes) returns (ok: bool)
      modifies writer
      ensures Sent(old(writer.out), writer.out, old(writer.lost), writer.lost, writer.TakesAll(), text, ok)
    {
      var count, error := writer.WriteString(text);
      ok := !error && count == |text|;
      assert text == text[..count] + text[count..];
      assert old(writer.out) + text == writer.out + text[count..];
    }

    method NewLine(depth: nat) returns (ok: bool)
      modifies writer
      ensures Sent(old(writer.out), writer.out, old(writer.lost), writer.lost, writer.TakesAll(), Newline(depth, options), ok)
    {
      if !options.pretty {
        return true;
      }
      ok := Write([NEWLINE]);
      if ok {
        ok := Indent(depth);
      }
      assert old(writer.out) + Newline(depth, options) == old(writer.out) + [NEWLINE] + Repeat(options.indent, depth);
    }

    method Indent(depth: nat) returns (ok: bool)
      modifies writer
      ensures Sent(old(writer.out), writer.out, old(writer.lost), writer.lost, writer.TakesAll(), Repeat(options.indent, depth), ok)
    {
      hide Repeat;
      RepeatNone(options.indent);
      for i := 0 to depth
        invariant writer.out == old(writer.out) + Repeat(options.indent, i) && writer.lost == old(writer.lost)
      {
        ok := Write(options.indent);
        RepeatLast(options.indent, i);
        assert old(writer.out) + Repeat(options.indent, i) + options.indent == old(writer.out) + Repeat(options.indent, i + 1);
        if !ok {
          RepeatMore(options.indent, i + 1, depth);
          Cut(old(writer.out), writer.out, Repeat(options.indent, i + 1), Repeat(options.indent, depth));
          return;
        }
      }
      return true;
    }

    static lemma RepeatNone(s: bytes)
      ensures Repeat(s, 0) == []
    {
    }

    static lemma {:induction false} RepeatMore(s: bytes, n: nat, m: nat)
      requires n <= m
      ensures Repeat(s, n) <= Repeat(s, m)
    {
      if n > 0 {
        RepeatMore(s, n - 1, m - 1);
      }
    }

    static lemma {:induction false} RepeatLast(s: bytes, n: nat)
      ensures Repeat(s, n + 1) == Repeat(s, n) + s
    {
      if n > 0 {
        RepeatLast(s, n - 1);
      }
    }

    /**
     * What a method that should write `text` guarantees: it writes all of it,
     * or reports that there is no such text, or reports a write that failed
     * after a beginning of it.
     */
    static ghost predicate Wrote(before: bytes, after: bytes, lost: bool, lost': bool, all: bool, text: Result<bytes, Error>, failure: Option<Failure>)
    {
      && before <= after
      && (failure.None? ==> text.Ok? && after == before + text.value)
      && (failure == Some(Rejected) ==> text.Err?)
      && (if failure == Some(WriteFailed) then lost' && !all && (text.Ok? ==> after <= before + text.value) else lost' == lost)
      && failure != Some(BadLimits)
    }

    /** Plain stretches are written in one piece, escapes one by one. */
    method String(value: bytes) returns (failure: Option<Failure>)
      modifies writer
      ensures Wrote(old(writer.out), writer.out, old(writer.lost), writer.lost, writer.TakesAll(), EncodeString(value), failure)
    {
      if !Valid(value) {
        return Some(Rejected);
      }
      hide Escaped;
      ghost var text := [QUOTE] + (Escaped(value) + [QUOTE]);
      assert old(writer.out) + text == old(writer.out) + [QUOTE] + Escaped(value) + [QUOTE];
      var ok := Write([QUOTE]);
      if ok {
        ok := Body(value);
      }
      if ok {
        ok := Write([QUOTE]);
      }
      return if ok then None else Some(WriteFailed);
    }

    method Body(value: bytes) returns (ok: bool)
      modifies writer
      ensures Sent(old(writer.out), writer.out, old(writer.lost), writer.lost, writer.TakesAll(), Escaped(value), ok)
    {
      NothingEscaped(value);
      hide Escaped;
      var start := 0;
      ghost var before := writer.out;
      assert before + Escaped(value[..0]) == before;
      for i := 0 to |value|
        invariant start <= i
        invariant writer.out == before + Escaped(value[..start]) && writer.lost == old(writer.lost)
        invariant Escaped(value[..i]) == Escaped(value[..start]) + value[start..i]
      {
        match EscapeOf(value[i])
        case None =>
          PlainExtends(value, start, i);
        case Some(escape) =>
          SpecialExtends(value, start, i, escape, before);
          ok := Special(value, start, i, escape);
          if !ok {
            Cut(before, writer.out, Escaped(value[..i + 1]), Escaped(value));
            return;
          }
          start := i + 1;
          assert value[start..i + 1] == [];
      }
      assert value[..|value|] == value;
      ok := Flush(value, start, |value|);
      assert before + Escaped(value) == before + Escaped(value[..start]) + value[start..];
    }

    /** An escape after the plain stretch before it. */
    method Special(value: bytes, start: nat, end: nat, escape: bytes) returns (ok: bool)
      requires start <= end <= |value|
      modifies writer
      ensures Sent(old(writer.out), writer.out, old(writer.lost), writer.lost, writer.TakesAll(), value[start..end] + escape, ok)
    {
      ghost var before := writer.out;
      assert before + (value[start..end] + escape) == before + value[start..end] + escape;
      ok := Flush(value, start, end);
      if ok {
        ok := Write(escape);
      }
    }

    static lemma SpecialExtends(value: bytes, start: nat, i: nat, escape: bytes, before: bytes)
      requires start <= i < |value| && EscapeOf(value[i]) == Some(escape)
      requires Escaped(value[..i]) == Escaped(value[..start]) + value[start..i]
      ensures before + Escaped(value[..i + 1]) == before + Escaped(value[..start]) + (value[start..i] + escape)
      ensures Escaped(value[..i + 1]) <= Escaped(value)
    {
      hide *;
      EscapedLast(value, i);
      EscapedMore(value, i + 1);
      EscapeKnown(value[i], escape);
      Regroup(before, Escaped(value[..start]), value[start..i], escape);
    }

    static lemma EscapeKnown(b: byte, escape: bytes)
      requires EscapeOf(b) == Some(escape)
      ensures Escape(b) == escape
    {
    }

    static lemma Regroup(a: bytes, b: bytes, c: bytes, d: bytes)
      ensures a + (b + c + d) == a + b + (c + d)
    {
    }

    /** The plain stretch since the last escape, when there is one. */
    method Flush(value: bytes, start: nat, end: nat) returns (ok: bool)
      requires start <= end <= |value|
      modifies writer
      ensures Sent(old(writer.out), writer.out, old(writer.lost), writer.lost, writer.TakesAll(), value[start..end], ok)
    {
      if start < end {
        ok := Write(value[start..end]);
      } else {
        assert value[start..end] == [];
        ok := true;
      }
    }

    static lemma EscapedMore(value: bytes, i: nat)
      requires i <= |value|
      ensures Escaped(value[..i]) <= Escaped(value)
    {
      assert value == value[..i] + value[i..];
      EscapedAppend(value[..i], value[i..]);
    }

    static lemma PlainExtends(value: bytes, start: nat, i: nat)
      requires start <= i < |value| && EscapeOf(value[i]).None?
      requires Escaped(value[..i]) == Escaped(value[..start]) + value[start..i]
      ensures Escaped(value[..i + 1]) == Escaped(value[..start]) + value[start..i + 1]
    {
      EscapedLast(value, i);
      assert value[start..i + 1] == value[start..i] + [value[i]];
    }

    static lemma NothingEscaped(value: bytes)
      ensures Escaped(value[..0]) == [] && value[0..0] == []
    {
    }

    static lemma EscapedLast(value: bytes, i: nat)
      requires i < |value|
      ensures Escaped(value[..i + 1]) == Escaped(value[..i]) + Escape(value[i])
    {
      assert value[..i + 1] == value[..i] + [value[i]];
      EscapedAppend(value[..i], [value[i]]);
      assert [value[i]][1..] == [];
      assert Escape(value[i]) + [] == Escape(value[i]);
    }

    /** A number text is checked with a parser of its own. */
    method CheckNumber(text: bytes) returns (valid: bool)
      ensures valid == ValidNumber(text)
    {
      var p := new Parser(text, Limits(0, 0, 0, 1));
      var number := p.Number();
      return number.Some? && p.pos == |text|;
    }

    method Value(value: JsonModel.Value, depth: nat) returns (failure: Option<Failure>)
      modifies writer
      ensures Wrote(old(writer.out), writer.out, old(writer.lost), writer.lost, writer.TakesAll(), EncodeValue(value, depth, options), failure)
      decreases value, 1
    {
      hide ValidNumber, Escaped, EncodeElements, EncodeMembers;
      match value.kind
      case Null => failure := Scalar(NULL_TEXT);
      case Bool => failure := Scalar(if value.boolean then TRUE_TEXT else FALSE_TEXT);
      case Number =>
        var valid := CheckNumber(value.text);
        if !valid {
          return Some(Rejected);
        }
        failure := Scalar(value.text);
      case String => failure := String(value.text);
      case Array => failure := Array(value, depth);
      case Object => failure := Object(value, depth);
      case Invalid => return Some(Rejected);
    }

    method Scalar(text: bytes) returns (failure: Option<Failure>)
      modifies writer
      ensures Wrote(old(writer.out), writer.out, old(writer.lost), writer.lost, writer.TakesAll(), Ok(text), failure)
    {
      var ok := Write(text);
      return if ok then None else Some(WriteFailed);
    }

    /** The whole of a list when `written` of it is already out and `rest` is still to come. */
    static function After(written: bytes, rest: Result<bytes, Error>): Result<bytes, Error>
    {
      match rest
      case Err(error) => Err(error)
      case Ok(text) => Ok(written + text)
    }

    method Array(value: JsonModel.Value, depth: nat) returns (failure: Option<Failure>)
      requires value.kind == JsonModel.Array
      modifies writer
      ensures Wrote(old(writer.out), writer.out, old(writer.lost), writer.lost, writer.TakesAll(), EncodeValue(value, depth, options), failure)
      decreases value, 0
    {
      hide EncodeElements;
      if depth >= options.maxDepth {
        return Some(Rejected);
      }
      var ok := Write([LBRACKET]);
      if !ok {
        return Some(WriteFailed);
      }
      failure := Elements(value, depth);
      if failure.Some? {
        return;
      }
      if |value.elements| > 0 {
        ok := NewLine(depth);
        if !ok {
          return Some(WriteFailed);
        }
      }
      ok := Write([RBRACKET]);
      if !ok {
        return Some(WriteFailed);
      }
      ClosedList(old(writer.out), [LBRACKET], EncodeElements(value.elements, true, depth, options).value,
                 Closing(|value.elements|, depth, options), [RBRACKET]);
    }

    static lemma ClosedList(before: bytes, open: bytes, body: bytes, closing: bytes, close: bytes)
      ensures before + open + body + closing + close == before + (open + (body + (closing + close)))
      ensures before + open + body + [] + close == before + open + body + close
    {
      assert before + open + body + [] == before + open + body;
    }

    method Elements(value: JsonModel.Value, depth: nat) returns (failure: Option<Failure>)
      requires value.kind == JsonModel.Array
      modifies writer
      ensures Wrote(old(writer.out), writer.out, old(writer.lost), writer.lost, writer.TakesAll(), EncodeElements(value.elements, true, depth, options), failure)
      decreases value, 0, 0
    {
      NoElements(depth, options);
      hide EncodeElements, EncodeValue;
      ghost var whole := EncodeElements(value.elements, true, depth, options);
      ghost var written: bytes := [];
      assert value.elements[0..] == value.elements && value.elements[|value.elements|..] == [];
      assert whole.Ok? ==> [] + whole.value == whole.value;
      for i := 0 to |value.elements|
        invariant writer.out == old(writer.out) + written && writer.lost == old(writer.lost)
        invariant After(written, EncodeElements(value.elements[i..], i == 0, depth, options)) == whole
      {
        ghost var piece := ElementPiece(value.elements[i], i == 0, depth, options);
        ElementsStep(value.elements, i, depth, options);
        OneMore(old(writer.out), written, piece, EncodeElements(value.elements[i + 1..], false, depth, options));
        failure := Element(value.elements[i], i == 0, depth);
        if failure.Some? {
          return;
        }
        written := written + piece.value;
      }
      assert written + [] == written;
      return None;
    }

    static function Joined(piece: Result<bytes, Error>, rest: Result<bytes, Error>): Result<bytes, Error>
    {
      if piece.Err? then Err(piece.error) else After(piece.value, rest)
    }

    /** One piece of a list: when the list has a text, the piece follows what is written of it. */
    static lemma OneMore(before: bytes, written: bytes, piece: Result<bytes, Error>, rest: Result<bytes, Error>)
      ensures var whole := After(written, Joined(piece, rest));
              && (whole.Ok? ==> piece.Ok? && before + written + piece.value <= before + whole.value)
              && (piece.Err? ==> whole.Err?)
              && (piece.Ok? ==> before + written + piece.value == before + (written + piece.value)
                                && After(written + piece.value, rest) == whole)
    {
      if piece.Ok? && rest.Ok? {
        Regroup(before, written, piece.value, rest.value);
        assert written + (piece.value + rest.value) == written + piece.value + rest.value;
        assert before + (written + (piece.value + rest.value)) == before + written + piece.value + rest.value;
      }
    }

    static lemma NoElements(depth: nat, o: Options)
      ensures EncodeElements([], true, depth, o) == Ok([]) && EncodeElements([], false, depth, o) == Ok([])
      ensures EncodeMembers([], true, depth, o) == Ok([]) && EncodeMembers([], false, depth, o) == Ok([])
    {
    }

    /** One element with the comma and line break before it. */
    static function ElementPiece(v: JsonModel.Value, first: bool, depth: nat, o: Options): Result<bytes, Error>
    {
      match EncodeValue(v, depth + 1, o)
      case Err(error) => Err(error)
      case Ok(text) => Ok(Comma(first) + (Newline(depth + 1, o) + text))
    }

    static lemma ElementsStep(vs: seq<JsonModel.Value>, i: nat, depth: nat, o: Options)
      requires i < |vs|
      ensures var piece := ElementPiece(vs[i], i == 0, depth, o);
              var rest := EncodeElements(vs[i + 1..], false, depth, o);
              EncodeElements(vs[i..], i == 0, depth, o) == Joined(piece, rest)
    {
      assert vs[i..][0] == vs[i] && vs[i..][1..] == vs[i + 1..];
      var text := EncodeValue(vs[i], depth + 1, o);
      var rest := EncodeElements(vs[i + 1..], false, depth, o);
      if text.Ok? && rest.Ok? {
        assert Comma(i == 0) + (Newline(depth + 1, o) + text.value) + rest.value
            == Comma(i == 0) + (Newline(depth + 1, o) + (text.value + rest.value));
      }
    }

    method Element(v: JsonModel.Value, first: bool, depth: nat) returns (failure: Option<Failure>)
      modifies writer
      ensures Wrote(old(writer.out), writer.out, old(writer.lost), writer.lost, writer.TakesAll(), ElementPiece(v, first, depth, options), failure)
      decreases v, 2
    {
      hide EncodeValue, Comma, Newline;
      var text := EncodeValue(v, depth + 1, options);
      if text.Ok? {
        ElementOut(old(writer.out), Comma(first), Newline(depth + 1, options), text.value);
      }
      var ok := Start(first, depth);
      if !ok {
        return Some(WriteFailed);
      }
      failure := Value(v, depth + 1);
    }

    static lemma ElementOut(before: bytes, comma: bytes, start: bytes, text: bytes)
      ensures comma + start <= comma + (start + text)
      ensures before + (comma + start) + text == before + (comma + (start + text))
      ensures before + (comma + start) <= before + (comma + (start + text))
    {
    }

    /** The comma between items and the line break before each. */
    method Start(first: bool, depth: nat) returns (ok: bool)
      modifies writer
      ensures Sent(old(writer.out), writer.out, old(writer.lost), writer.lost, writer.TakesAll(), Comma(first) + Newline(depth + 1, options), ok)
    {
      hide Newline;
      ghost var before := writer.out;
      assert before + (Comma(first) + Newline(depth + 1, options)) == before + Comma(first) + Newline(depth + 1, options);
      if !first {
        ok := Write([COMMA]);
        if !ok {
          return;
        }
      }
      ok := NewLine(depth + 1);
    }

    method Object(value: JsonModel.Value, depth: nat) returns (failure: Option<Failure>)
      requires value.kind == JsonModel.Object
      modifies writer
      ensures Wrote(old(writer.out), writer.out, old(writer.lost), writer.lost, writer.TakesAll(), EncodeValue(value, depth, options), failure)
      decreases value, 0
    {
      hide EncodeMembers;
      if depth >= options.maxDepth {
        return Some(Rejected);
      }
      var ok := Write([LBRACE]);
      if !ok {
        return Some(WriteFailed);
      }
      failure := Members(value, depth);
      if failure.Some? {
        return;
      }
      if |value.members| > 0 {
        ok := NewLine(depth);
        if !ok {
          return Some(WriteFailed);
        }
      }
      ok := Write([RBRACE]);
      if !ok {
        return Some(WriteFailed);
      }
      ClosedList(old(writer.out), [LBRACE], EncodeMembers(value.members, true, depth, options).value,
                 Closing(|value.members|, depth, options), [RBRACE]);
    }

    method Members(value: JsonModel.Value, depth: nat) returns (failure: Option<Failure>)
      requires value.kind == JsonModel.Object
      modifies writer
      ensures Wrote(old(writer.out), writer.out, old(writer.lost), writer.lost, writer.TakesAll(), EncodeMembers(value.members, true, depth, options), failure)
      decreases value, 0, 0
    {
      NoElements(depth, options);
      hide EncodeMembers, EncodeValue, EncodeString;
      ghost var whole := EncodeMembers(value.members, true, depth, options);
      ghost var written: bytes := [];
      assert value.members[0..] == value.members && value.members[|value.members|..] == [];
      assert whole.Ok? ==> [] + whole.value == whole.value;
      for i := 0 to |value.members|
        invariant writer.out == old(writer.out) + written && writer.lost == old(writer.lost)
        invariant After(written, EncodeMembers(value.members[i..], i == 0, depth, options)) == whole
      {
        ghost var piece := MemberPiece(value.members[i], i == 0, depth, options);
        MembersStep(value.members, i, depth, options);
        OneMore(old(writer.out), written, piece, EncodeMembers(value.members[i + 1..], false, depth, options));
        failure := Member(value.members[i], i == 0, depth);
        if failure.Some? {
          return;
        }
        written := written + piece.value;
      }
      assert written + [] == written;
      return None;
    }

    static function MemberPiece(m: JsonModel.Member, first: bool, depth: nat, o: Options): Result<bytes, Error>
    {
      match EncodeString(m.name)
      case Err(error) => Err(error)
      case Ok(name) =>
        match EncodeValue(m.value, depth + 1, o)
        case Err(error) => Err(error)
        case Ok(text) => Ok(Comma(first) + (Newline(depth + 1, o) + (name + (Colon(o) + text))))
    }

    static lemma MembersStep(ms: seq<JsonModel.Member>, i: nat, depth: nat, o: Options)
      requires i < |ms|
      ensures var piece := MemberPiece(ms[i], i == 0, depth, o);
              var rest := EncodeMembers(ms[i + 1..], false, depth, o);
              EncodeMembers(ms[i..], i == 0, depth, o) == Joined(piece, rest)
    {
      hide EncodeString, EncodeValue;
      assert ms[i..][0] == ms[i] && ms[i..][1..] == ms[i + 1..];
      var name, text := EncodeString(ms[i].name), EncodeValue(ms[i].value, depth + 1, o);
      var rest := EncodeMembers(ms[i + 1..], false, depth, o);
      if name.Ok? && text.Ok? && rest.Ok? {
        MemberJoin(Comma(i == 0), Newline(depth + 1, o), name.value, Colon(o), text.value, rest.value);
      }
    }

    static lemma MemberJoin(comma: bytes, start: bytes, name: bytes, colon: bytes, text: bytes, rest: bytes)
      ensures comma + (start + (name + (colon + text))) + rest == comma + (start + (name + (colon + (text + rest))))
    {
    }

    method Member(m: JsonModel.Member, first: bool, depth: nat) returns (failure: Option<Failure>)
      modifies writer
      ensures Wrote(old(writer.out), writer.out, old(writer.lost), writer.lost, writer.TakesAll(), MemberPiece(m, first, depth, options), failure)
      decreases m, 2
    {
      hide EncodeValue, EncodeString, Comma, Newline, Colon;
      ghost var name, text := EncodeString(m.name), EncodeValue(m.value, depth + 1, options);
      if name.Ok? && text.Ok? {
        MemberOut(old(writer.out), Comma(first), Newline(depth + 1, options), name.value, Colon(options), text.value);
      }
      var ok := Start(first, depth);
      if !ok {
        return Some(WriteFailed);
      }
      failure := String(m.name);
      if failure.Some? {
        return;
      }
      ok := Write(Colon(options));
      if !ok {
        return Some(WriteFailed);
      }
      failure := Value(m.value, depth + 1);
    }

    /** Every beginning of a member's output is a beginning of its text. */
    static lemma MemberOut(before: bytes, comma: bytes, start: bytes, name: bytes, colon: bytes, text: bytes)
      ensures var whole := comma + (start + (name + (colon + text)));
              && before + (comma + start) + name + colon + text == before + whole
              && before + (comma + start) + name + colon <= before + whole
              && before + (comma + start) + name <= before + whole
              && before + (comma + start) <= before + whole
    {
      assert before + (comma + start) + name + colon + text == before + (comma + (start + (name + (colon + text))));
    }
  }

  /**
   * Encode: with a writer that takes everything the outcome is exactly
   * JsonEncode.Encode, and a write that fails leaves a beginning of its text.
   */
  method EncodeTo(writer: Writer, value: Value, options: Options) returns (failure: Option<Failure>)
    modifies writer
    ensures old(writer.out) <= writer.out
    ensures failure == Some(BadLimits) <==> options.maxDepth < 0
    ensures failure.None? ==> Encode(value, options).Ok? && writer.out == old(writer.out) + Encode(value, options).value
    ensures failure.None? ==> exists s :: Writes(s, value, 0, LayoutFor(options)) && writer.out == old(writer.out) + Text(s)
    ensures failure == Some(Rejected) ==> Encode(value, options).Err?
    ensures failure == Some(WriteFailed) ==> writer.lost && !writer.TakesAll()
    ensures failure != Some(WriteFailed) ==> writer.lost == old(writer.lost)
    ensures writer.TakesAll() ==> (failure.None? <==> Encode(value, options).Ok?)
    ensures Encode(value, options).Ok? ==> writer.out <= old(writer.out) + Encode(value, options).value
  {
    hide EncodeValue;
    var o := NormalizedOptions(options);
    if o.Err? {
      return Some(BadLimits);
    }
    var encoder := new Encoder(writer, o.value);
    failure := encoder.Value(value, 0);
    match failure
    case None =>
      ghost var s := EncodeLayout(value, options);
      hide Text, Writes;
      assert writer.out == old(writer.out) + Text(s);
    case Some(Rejected) =>
    case Some(WriteFailed) =>
    case Some(BadLimits) =>
  }
}
