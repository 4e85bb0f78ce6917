/**
 * The decoder as the object it is in playdate/json/json.go: a cursor that
 * advances over the document and counts values.  Each method is proved to do
 * what the corresponding function of JsonModel says.
 */
module JsonParser {
  import opened Common
  import opened Utf8
  import opened JsonModel

  class Parser {
    const data: bytes
    const limits: Limits
    var pos: nat
    var nodes: nat

    constructor (data: bytes, limits: Limits)
      ensures this.data == data && this.limits == limits && pos == 0 && nodes == 0
    {
      this.data := data;
      this.limits := limits;
      pos, nodes := 0, 0;
    }

    predicate InRange()
      reads this
    {
      pos <= |data|
    }

    method Space()
      requires InRange()
      modifies this`pos
      ensures InRange() && pos == SkipSpace(data, old(pos))
    {
      while pos < |data| && IsSpace(data[pos])
        invariant InRange()
        invariant SkipSpace(data, pos) == SkipSpace(data, old(pos))
        decreases |data| - pos
      {
        pos := pos + 1;
      }
    }

    method Take(b: byte) returns (taken: bool)
      requires InRange()
      modifies this`pos
      ensures InRange() && taken == Has(data, old(pos), b)
      ensures pos == if taken then old(pos) + 1 else old(pos)
    {
      taken := pos < |data| && data[pos] == b;
      if taken {
        pos := pos + 1;
      }
    }

    method Literal(word: bytes) returns (found: bool)
      requires InRange()
      modifies this`pos
      ensures InRange() && found == At(data, old(pos), word)
      ensures pos == if found then old(pos) + |word| else old(pos)
    {
      if |data| - pos < |word| || data[pos..pos + |word|] != word {
        return false;
      }
      pos := pos + |word|;
      return true;
    }

    method TakeDigits()
      requires InRange()
      modifies this`pos
      ensures InRange() && pos == SkipDigits(data, old(pos))
    {
      while pos < |data| && IsDigit(data[pos])
        invariant InRange()
        invariant SkipDigits(data, pos) == SkipDigits(data, old(pos))
        decreases |data| - pos
      {
        pos := pos + 1;
      }
    }

    method Hex4() returns (r: Option<nat>)
      requires InRange()
      modifies this`pos
      ensures InRange() && r == JsonModel.Hex4(data, old(pos))
      ensures r.Some? ==> pos == old(pos) + 4
    {
      if pos + 4 > |data| {
        return None;
      }
      var start := pos;
      var value := 0;
      for i := 0 to 4
        invariant pos == start + i
        invariant HexPrefix(data, start, i) == Some(value)
      {
        var digit := HexDigit(data[pos]);
        pos := pos + 1;
        if digit.None? {
          HexPrefixFails(data, start, i);
          return None;
        }
        value := value * 16 + digit.value;
      }
      HexPrefixWhole(data, start);
      return Some(value);
    }

    /** The value of the first `n` hexadecimal digits at `p`. */
    static function HexPrefix(d: bytes, p: nat, n: nat): Option<nat>
      requires p + n <= |d|
    {
      if n == 0 then Some(0)
      else
        match (HexPrefix(d, p, n - 1), HexDigit(d[p + n - 1]))
        case (Some(value), Some(digit)) => Some(value * 16 + digit)
        case _ => None
    }

    static lemma HexPrefixWhole(d: bytes, p: nat)
      requires p + 4 <= |d|
      ensures HexPrefix(d, p, 4) == JsonModel.Hex4(d, p)
    {
      HexPrefixStep(d, p, 0);
      HexPrefixStep(d, p, 1);
      HexPrefixStep(d, p, 2);
      HexPrefixStep(d, p, 3);
    }

    static lemma HexPrefixStep(d: bytes, p: nat, n: nat)
      requires p + n < |d|
      ensures HexPrefix(d, p, 0) == Some(0)
      ensures HexPrefix(d, p, n + 1)
           == match (HexPrefix(d, p, n), HexDigit(d[p + n]))
              case (Some(value), Some(digit)) => Some(value * 16 + digit)
              case _ => None
    {
    }

    static lemma HexPrefixFails(d: bytes, p: nat, i: nat)
      requires i < 4 && p + 4 <= |d| && HexDigit(d[p + i]).None?
      ensures JsonModel.Hex4(d, p).None?
    {
    }

    method Unicode() returns (r: Option<nat>)
      requires InRange()
      modifies this`pos
      ensures InRange()
      ensures match ScanUnicode(data, old(pos))
              case None => r.None?
              case Some((rune, q)) => r == Some(rune) && pos == q
    {
      var first := Hex4();
      if first.None? {
        return None;
      }
      if HighSurrogate(first.value) {
        if pos + 2 > |data| || data[pos] != BACKSLASH || data[pos + 1] != LOWER_U {
          return None;
        }
        pos := pos + 2;
        var second := Hex4();
        if second.None? || !LowSurrogate(second.value) {
          return None;
        }
        return Some(Combine(first.value, second.value));
      }
      if LowSurrogate(first.value) {
        return None;
      }
      return first;
    }

    /** One character or escape; the cursor stands on it. */
    method Item() returns (r: Option<bytes>)
      requires pos < |data| && data[pos] != QUOTE
      modifies this`pos
      ensures InRange()
      ensures match ScanItem(data, old(pos))
              case None => r.None?
              case Some((item, q)) => r == Some(item) && pos == q
    {
      var b := data[pos];
      pos := pos + 1;
      if b < 0x20 {
        return None;
      }
      if b == BACKSLASH {
        if pos >= |data| {
          return None;
        }
        var e := data[pos];
        pos := pos + 1;
        if e == LOWER_U {
          var rune := Unicode();
          if rune.None? {
            return None;
          }
          return Some(EncodeRune(rune.value));
        }
        match ShortEscape(e)
        case None => return None;
        case Some(c) => return Some([c]);
      }
      if b < 0x80 {
        assert data[old(pos)..pos] == [b];
        return Some([b]);
      }
      pos := pos - 1;
      var size := RuneSize(data, pos);
      if size == 0 {
        return None;
      }
      r := Some(data[pos..pos + size]);
      pos := pos + size;
    }

    /** A string from its opening quote. */
    method String() returns (r: Option<bytes>)
      requires Has(data, pos, QUOTE)
      modifies this`pos
      ensures InRange()
      ensures match ScanString(data, old(pos) + 1, [], limits.maxStringBytes)
              case None => r.None?
              case Some((text, q)) => r == Some(text) && pos == q
    {
      hide ScanItem;
      pos := pos + 1;
      ghost var start := pos;
      var out: bytes := [];
      while pos < |data|
        invariant InRange()
        invariant ScanString(data, pos, out, limits.maxStringBytes) == ScanString(data, start, [], limits.maxStringBytes)
        decreases |data| - pos
      {
        if data[pos] == QUOTE {
          pos := pos + 1;
          return if |out| > limits.maxStringBytes then None else Some(out);
        }
        var item := Item();
        if item.None? {
          return None;
        }
        out := out + item.value;
        if |out| > limits.maxStringBytes {
          return None;
        }
      }
      return None;
    }

    method Integer() returns (ok: bool)
      requires InRange()
      modifies this`pos
      ensures InRange() && ok == ScanInteger(data, old(pos)).Some?
      ensures ok ==> ScanInteger(data, old(pos)) == Some(pos)
    {
      var zero := Take(ZERO);
      if zero {
        return !(pos < |data| && IsDigit(data[pos]));
      }
      if pos >= |data| || !IsDigit(data[pos]) {
        return false;
      }
      TakeDigits();
      return true;
    }

    method Fraction() returns (ok: bool)
      requires InRange()
      modifies this`pos
      ensures InRange() && ok == ScanFraction(data, old(pos)).Some?
      ensures ok ==> ScanFraction(data, old(pos)) == Some(pos)
    {
      var dot := Take(DOT);
      if !dot {
        return true;
      }
      if pos >= |data| || !IsDigit(data[pos]) {
        return false;
      }
      TakeDigits();
      return true;
    }

    method Exponent() returns (ok: bool)
      requires InRange()
      modifies this`pos
      ensures InRange() && ok == ScanExponent(data, old(pos)).Some?
      ensures ok ==> ScanExponent(data, old(pos)) == Some(pos)
    {
      if pos < |data| && (data[pos] == LOWER_E || data[pos] == UPPER_E) {
        pos := pos + 1;
        if pos < |data| && (data[pos] == PLUS || data[pos] == MINUS) {
          pos := pos + 1;
        }
        if pos >= |data| || !IsDigit(data[pos]) {
          return false;
        }
        TakeDigits();
      }
      return true;
    }

    method Number() returns (r: Option<bytes>)
      requires InRange()
      modifies this`pos
      ensures InRange()
      ensures match ScanNumber(data, old(pos))
              case None => r.None?
              case Some(q) => r == Some(data[old(pos)..q]) && pos == q
    {
      hide ScanInteger, ScanFraction, ScanExponent;
      var start := pos;
      var minus := Take(MINUS);
      if minus && pos >= |data| {
        NothingLeft(data, pos);
        return None;
      }
      var ok := Integer();
      if ok {
        ok := Fraction();
      }
      if ok {
        ok := Exponent();
      }
      return if ok then Some(data[start..pos]) else None;
    }

    static lemma NothingLeft(d: bytes, p: nat)
      requires p == |d|
      ensures ScanInteger(d, p).None?
    {
    }

    method Value(depth: nat) returns (r: Option<JsonModel.Value>)
      requires InRange()
      modifies this`pos, this`nodes
      ensures InRange()
      ensures match ParseValue(data, old(pos), depth, old(nodes), limits)
              case Fail => r.None?
              case Done(v, q, n) => r == Some(v) && pos == q && nodes == n
      decreases |data| - pos, 1
    {
      hide ScanString, ScanNumber, At, ParseArray, ParseObject;
      if nodes >= limits.maxNodes {
        return None;
      }
      nodes := nodes + 1;
      if pos >= |data| {
        return None;
      }
      var b := data[pos];
      if b == 0x6E {
        var found := Literal(NULL_TEXT);
        return if found then Some(NULL) else None;
      } else if b == 0x74 {
        var found := Literal(TRUE_TEXT);
        return if found then Some(BoolValue(true)) else None;
      } else if b == 0x66 {
        var found := Literal(FALSE_TEXT);
        return if found then Some(BoolValue(false)) else None;
      } else if b == QUOTE {
        var text := String();
        return if text.Some? then Some(StringValue(text.value)) else None;
      } else if b == LBRACKET {
        r := Array(depth + 1);
      } else if b == LBRACE {
        r := Object(depth + 1);
      } else if b == MINUS || IsDigit(b) {
        var text := Number();
        return if text.Some? then Some(NumberValue(text.value)) else None;
      } else {
        return None;
      }
    }

    method Array(depth: nat) returns (r: Option<JsonModel.Value>)
      requires pos < |data|
      modifies this`pos, this`nodes
      ensures InRange()
      ensures match ParseArray(data, old(pos), depth, old(nodes), limits)
              case Fail => r.None?
              case Done(v, q, n) => r == Some(v) && pos == q && nodes == n
      decreases |data| - pos, 0
    {
      hide ParseValue;
      if depth > limits.maxDepth {
        return None;
      }
      ghost var before := pos;
      pos := pos + 1;
      Space();
      var closed := Take(RBRACKET);
      if closed {
        return Some(ArrayValue([]));
      }
      var elements: seq<JsonModel.Value> := [];
      ghost var whole := ParseElements(data, pos, depth, nodes, limits, []);
      while true
        invariant before < pos <= |data|
        invariant ParseElements(data, pos, depth, nodes, limits, elements) == whole
        decreases |data| - pos
      {
        var v := Value(depth);
        if v.None? {
          return None;
        }
        elements := elements + [v.value];
        Space();
        closed := Take(RBRACKET);
        if closed {
          return Some(ArrayValue(elements));
        }
        var comma := Take(COMMA);
        if !comma {
          return None;
        }
        Space();
      }
    }

    method Object(depth: nat) returns (r: Option<JsonModel.Value>)
      requires pos < |data|
      modifies this`pos, this`nodes
      ensures InRange()
      ensures match ParseObject(data, old(pos), depth, old(nodes), limits)
              case Fail => r.None?
              case Done(v, q, n) => r == Some(v) && pos == q && nodes == n
      decreases |data| - pos, 0
    {
      hide ParseValue, ScanName;
      if depth > limits.maxDepth {
        return None;
      }
      ghost var before := pos;
      pos := pos + 1;
      Space();
      var closed := Take(RBRACE);
      if closed {
        return Some(ObjectValue([]));
      }
      var members: seq<Member> := [];
      ghost var whole := ParseMembers(data, pos, depth, nodes, limits, []);
      while true
        invariant before < pos <= |data|
        invariant ParseMembers(data, pos, depth, nodes, limits, members) == whole
        decreases |data| - pos
      {
        var name := Name();
        if name.None? {
          return None;
        }
        var v := Value(depth);
        if v.None? {
          return None;
        }
        members := members + [Member(name.value, v.value)];
        Space();
        closed := Take(RBRACE);
        if closed {
          return Some(ObjectValue(members));
        }
        var comma := Take(COMMA);
        if !comma {
          return None;
        }
        Space();
      }
    }

    /** A member name, its colon and the white space before the value. */
    method Name() returns (r: Option<bytes>)
      requires InRange()
      modifies this`pos
      ensures InRange()
      ensures match ScanName(data, old(pos), limits)
              case None => r.None?
              case Some((name, q)) => r == Some(name) && pos == q
    {
      hide ScanString;
      if pos >= |data| || data[pos] != QUOTE {
        return None;
      }
      r := String();
      if r.None? {
        return None;
      }
      Space();
      var colon := Take(COLON);
      if !colon {
        return None;
      }
      Space();
    }
  }

  method DecodeBytes(data: bytes, limits: Limits) returns (r: Result<Value, Error>)
    ensures r == Decode(data, limits)
  {
    hide ParseValue, SkipSpace;
    var normalized := Normalized(limits);
    if normalized.Err? {
      return Err(normalized.error);
    }
    var l := normalized.value;
    if |data| > l.maxBytes {
      return Err(ErrSyntax);
    }
    var p := new Parser(data, l);
    p.Space();
    var value := p.Value(0);
    if value.None? {
      return Err(ErrSyntax);
    }
    p.Space();
    if p.pos != |data| {
      return Err(ErrSyntax);
    }
    return Ok(value.value);
  }
}
