/**
 * The bounded JSON decoder of playdate/json/json.go as functions on the
 * document and a position.  Error texts and offsets are not modelled: a
 * failing scan is None or Fail.
 */
module JsonModel {
  import opened Common
  import opened Utf8

  datatype Kind = Invalid | Null | Bool | Number | String | Array | Object

  datatype Member = Member(name: bytes, value: Value)

  /** The reflection-free tree; a kind uses only some of the fields. */
  datatype Value = Value(kind: Kind, boolean: bool, text: bytes, elements: seq<Value>, members: seq<Member>)

  datatype Limits = Limits(maxBytes: int, maxDepth: int, maxNodes: int, maxStringBytes: int)

  datatype Error = ErrLimits | ErrSyntax

  const NULL := Value(Null, false, [], [], [])
  function BoolValue(b: bool): Value { Value(Bool, b, [], [], []) }
  function NumberValue(text: bytes): Value { Value(Number, false, text, [], []) }
  function StringValue(text: bytes): Value { Value(String, false, text, [], []) }
  function ArrayValue(elements: seq<Value>): Value { Value(Array, false, [], elements, []) }
  function ObjectValue(members: seq<Member>): Value { Value(Object, false, [], [], members) }

  const QUOTE: byte := 0x22
  const BACKSLASH: byte := 0x5C
  const COMMA: byte := 0x2C
  const COLON: byte := 0x3A
  const LBRACKET: byte := 0x5B
  const RBRACKET: byte := 0x5D
  const LBRACE: byte := 0x7B
  const RBRACE: byte := 0x7D
  const MINUS: byte := 0x2D
  const PLUS: byte := 0x2B
  const DOT: byte := 0x2E
  const ZERO: byte := 0x30
  const LOWER_E: byte := 0x65
  const UPPER_E: byte := 0x45
  const LOWER_U: byte := 0x75

  /** "null", "true" and "false" */
  const NULL_TEXT: bytes := [0x6E, 0x75, 0x6C, 0x6C]
  const TRUE_TEXT: bytes := [0x74, 0x72, 0x75, 0x65]
  const FALSE_TEXT: bytes := [0x66, 0x61, 0x6C, 0x73, 0x65]

  function Normalized(l: Limits): Result<Limits, Error>
  {
    if l.maxBytes < 0 || l.maxDepth < 0 || l.maxNodes < 0 || l.maxStringBytes < 0 then Err(ErrLimits)
    else Ok(Limits(
      if l.maxBytes == 0 then 64 * 1024 else l.maxBytes,
      if l.maxDepth == 0 then 32 else l.maxDepth,
      if l.maxNodes == 0 then 4096 else l.maxNodes,
      if l.maxStringBytes == 0 then 16 * 1024 else l.maxStringBytes))
  }

  // -------------------------------------------------------------- scanning

  predicate IsSpace(b: byte)
  {
    b == 0x20 || b == 0x09 || b == 0x0D || b == 0x0A
  }

  predicate IsDigit(b: byte)
  {
    0x30 <= b <= 0x39
  }

  /** The byte at `p`, when there is one and it is `b`. */
  predicate Has(d: bytes, p: nat, b: byte)
  {
    p < |d| && d[p] == b
  }

  function SkipSpace(d: bytes, p: nat): (q: nat)
    requires p <= |d|
    ensures p <= q <= |d|
    decreases |d| - p
  {
    if p < |d| && IsSpace(d[p]) then SkipSpace(d, p + 1) else p
  }

  function SkipDigits(d: bytes, p: nat): (q: nat)
    requires p <= |d|
    ensures p <= q <= |d|
    decreases |d| - p
  {
    if p < |d| && IsDigit(d[p]) then SkipDigits(d, p + 1) else p
  }

  predicate DigitAt(d: bytes, p: nat)
  {
    p < |d| && IsDigit(d[p])
  }

  /** `word` stands at `p`. */
  predicate At(d: bytes, p: nat, word: bytes)
  {
    p + |word| <= |d| && d[p..p + |word|] == word
  }

  // ---------------------------------------------------------------- numbers

  /** The end of the number that starts at `p`. */
  function ScanNumber(d: bytes, p: nat): (r: Option<nat>)
    requires p <= |d|
    ensures r.Some? ==> p < r.value <= |d|
  {
    var p1 := if Has(d, p, MINUS) then p + 1 else p;
    match ScanInteger(d, p1)
    case None => None
    case Some(p2) =>
      match ScanFraction(d, p2)
      case None => None
      case Some(p3) => ScanExponent(d, p3)
  }

  function ScanInteger(d: bytes, p: nat): (r: Option<nat>)
    requires p <= |d|
    ensures r.Some? ==> p < r.value <= |d|
  {
    if Has(d, p, ZERO) then (if DigitAt(d, p + 1) then None else Some(p + 1))
    else if !DigitAt(d, p) then None
    else Some(SkipDigits(d, p + 1))
  }

  function ScanFraction(d: bytes, p: nat): (r: Option<nat>)
    requires p <= |d|
    ensures r.Some? ==> p <= r.value <= |d|
  {
    if !Has(d, p, DOT) then Some(p)
    else if !DigitAt(d, p + 1) then None
    else Some(SkipDigits(d, p + 1))
  }

  function ScanExponent(d: bytes, p: nat): (r: Option<nat>)
    requires p <= |d|
    ensures r.Some? ==> p <= r.value <= |d|
  {
    if !Has(d, p, LOWER_E) && !Has(d, p, UPPER_E) then Some(p)
    else
      var q := if Has(d, p + 1, PLUS) || Has(d, p + 1, MINUS) then p + 2 else p + 1;
      if !DigitAt(d, q) then None else Some(SkipDigits(d, q))
  }

  // ---------------------------------------------------------------- strings

  function HexDigit(b: byte): (r: Option<nat>)
    ensures r.Some? ==> r.value < 16
  {
    if 0x30 <= b <= 0x39 then Some(b - 0x30)
    else if 0x61 <= b <= 0x66 then Some(b - 0x61 + 10)
    else if 0x41 <= b <= 0x46 then Some(b - 0x41 + 10)
    else None
  }

  /** The value of the four hexadecimal digits at `p`. */
  function Hex4(d: bytes, p: nat): (r: Option<nat>)
    ensures r.Some? ==> r.value < 0x1_0000 && p + 4 <= |d|
  {
    if p + 4 > |d| then None
    else
      match (HexDigit(d[p]), HexDigit(d[p + 1]), HexDigit(d[p + 2]), HexDigit(d[p + 3]))
      case (Some(a), Some(b), Some(c), Some(e)) => Some(((a * 16 + b) * 16 + c) * 16 + e)
      case _ => None
  }

  predicate HighSurrogate(r: nat) { 0xD800 <= r <= 0xDBFF }
  predicate LowSurrogate(r: nat) { 0xDC00 <= r <= 0xDFFF }

  function Combine(high: nat, low: nat): (r: nat)
    requires HighSurrogate(high) && LowSurrogate(low)
    ensures IsScalar(r)
  {
    0x1_0000 + (high - 0xD800) * 0x400 + (low - 0xDC00)
  }

  /** The scalar a \u escape stands for and the position behind it; `p` is behind the first "\u". */
  function ScanUnicode(d: bytes, p: nat): (r: Option<(nat, nat)>)
    ensures r.Some? ==> IsScalar(r.value.0) && p < r.value.1 <= |d|
  {
    match Hex4(d, p)
    case None => None
    case Some(first) =>
      if HighSurrogate(first) then
        if !Has(d, p + 4, BACKSLASH) || !Has(d, p + 5, LOWER_U) then None
        else
          match Hex4(d, p + 6)
          case None => None
          case Some(second) =>
            if LowSurrogate(second) then Some((Combine(first, second), p + 10)) else None
      else if LowSurrogate(first) then None
      else Some((first, p + 4))
  }

  /** What one of the two-character escapes stands for. */
  function ShortEscape(letter: byte): Option<byte>
  {
    if letter == 0x22 || letter == 0x5C || letter == 0x2F then Some(letter)
    else if letter == 0x62 then Some(0x08)
    else if letter == 0x66 then Some(0x0C)
    else if letter == 0x6E then Some(0x0A)
    else if letter == 0x72 then Some(0x0D)
    else if letter == 0x74 then Some(0x09)
    else None
  }

  /** One character or escape of a string: the bytes it stands for and the position behind it. */
  function ScanItem(d: bytes, p: nat): (r: Option<(bytes, nat)>)
    requires p < |d|
    ensures r.Some? ==> p < r.value.1 <= |d|
  {
    var b := d[p];
    if b == QUOTE || b < 0x20 then None
    else if b == BACKSLASH then
      if p + 1 >= |d| then None
      else if d[p + 1] == LOWER_U then
        match ScanUnicode(d, p + 2)
        case None => None
        case Some((rune, q)) => Some((EncodeRune(rune), q))
      else
        match ShortEscape(d[p + 1])
        case None => None
        case Some(c) => Some(([c], p + 2))
    else if RuneSize(d, p) == 0 then None
    else Some((d[p..p + RuneSize(d, p)], p + RuneSize(d, p)))
  }

  /** The rest of a string behind its opening quote, `out` being what it decoded to so far. */
  function ScanString(d: bytes, p: nat, out: bytes, max: int): (r: Option<(bytes, nat)>)
    requires p <= |d|
    ensures r.Some? ==> p < r.value.1 <= |d|
    decreases |d| - p
  {
    if p == |d| then None
    else if d[p] == QUOTE then (if |out| > max then None else Some((out, p + 1)))
    else
      match ScanItem(d, p)
      case None => None
      case Some((item, q)) => if |out + item| > max then None else ScanString(d, q, out + item, max)
  }

  // ----------------------------------------------------------------- values

  datatype Parse = Fail | Done(value: Value, pos: nat, nodes: nat)

  function ParseValue(d: bytes, p: nat, depth: nat, nodes: nat, l: Limits): (r: Parse)
    requires p <= |d|
    ensures r.Done? ==> p < r.pos <= |d|
    decreases |d| - p, 1
  {
    if nodes >= l.maxNodes || p == |d| then Fail
    else
      var b := d[p];
      if b == 0x6E then (if At(d, p, NULL_TEXT) then Done(NULL, p + 4, nodes + 1) else Fail)
      else if b == 0x74 then (if At(d, p, TRUE_TEXT) then Done(BoolValue(true), p + 4, nodes + 1) else Fail)
      else if b == 0x66 then (if At(d, p, FALSE_TEXT) then Done(BoolValue(false), p + 5, nodes + 1) else Fail)
      else if b == QUOTE then
        match ScanString(d, p + 1, [], l.maxStringBytes)
        case None => Fail
        case Some((text, q)) => Done(StringValue(text), q, nodes + 1)
      else if b == LBRACKET then ParseArray(d, p, depth + 1, nodes + 1, l)
      else if b == LBRACE then ParseObject(d, p, depth + 1, nodes + 1, l)
      else if b == MINUS || IsDigit(b) then
        match ScanNumber(d, p)
        case None => Fail
        case Some(q) => Done(NumberValue(d[p..q]), q, nodes + 1)
      else Fail
  }

  function ParseArray(d: bytes, p: nat, depth: nat, nodes: nat, l: Limits): (r: Parse)
    requires p < |d|
    ensures r.Done? ==> p < r.pos <= |d|
    decreases |d| - p, 0
  {
    if depth > l.maxDepth then Fail
    else
      var q := SkipSpace(d, p + 1);
      if Has(d, q, RBRACKET) then Done(ArrayValue([]), q + 1, nodes)
      else ParseElements(d, q, depth, nodes, l, [])
  }

  /** The loop of the array parser, an element being due at `p`. */
  function ParseElements(d: bytes, p: nat, depth: nat, nodes: nat, l: Limits, elements: seq<Value>): (r: Parse)
    requires p <= |d|
    ensures r.Done? ==> p < r.pos <= |d|
    decreases |d| - p, 2
  {
    match ParseValue(d, p, depth, nodes, l)
    case Fail => Fail
    case Done(v, p1, n1) =>
      var q := SkipSpace(d, p1);
      if Has(d, q, RBRACKET) then Done(ArrayValue(elements + [v]), q + 1, n1)
      else if Has(d, q, COMMA) then ParseElements(d, SkipSpace(d, q + 1), depth, n1, l, elements + [v])
      else Fail
  }

  function ParseObject(d: bytes, p: nat, depth: nat, nodes: nat, l: Limits): (r: Parse)
    requires p < |d|
    ensures r.Done? ==> p < r.pos <= |d|
    decreases |d| - p, 0
  {
    if depth > l.maxDepth then Fail
    else
      var q := SkipSpace(d, p + 1);
      if Has(d, q, RBRACE) then Done(ObjectValue([]), q + 1, nodes)
      else ParseMembers(d, q, depth, nodes, l, [])
  }

  /** The member's name and the position of its value. */
  function ScanName(d: bytes, p: nat, l: Limits): (r: Option<(bytes, nat)>)
    ensures r.Some? ==> p < r.value.1 <= |d|
  {
    if !Has(d, p, QUOTE) then None
    else
      match ScanString(d, p + 1, [], l.maxStringBytes)
      case None => None
      case Some((name, q)) =>
        var q1 := SkipSpace(d, q);
        if !Has(d, q1, COLON) then None else Some((name, SkipSpace(d, q1 + 1)))
  }

  /** The loop of the object parser, a member name being due at `p`. */
  function ParseMembers(d: bytes, p: nat, depth: nat, nodes: nat, l: Limits, members: seq<Member>): (r: Parse)
    requires p <= |d|
    ensures r.Done? ==> p < r.pos <= |d|
    decreases |d| - p, 2
  {
    match ScanName(d, p, l)
    case None => Fail
    case Some((name, p1)) =>
      match ParseValue(d, p1, depth, nodes, l)
      case Fail => Fail
      case Done(v, p2, n2) =>
        var q := SkipSpace(d, p2);
        if Has(d, q, RBRACE) then Done(ObjectValue(members + [Member(name, v)]), q + 1, n2)
        else if Has(d, q, COMMA) then
          ParseMembers(d, SkipSpace(d, q + 1), depth, n2, l, members + [Member(name, v)])
        else Fail
  }

  /** DecodeBytes: one complete document within the limits. */
  function Decode(d: bytes, limits: Limits): Result<Value, Error>
  {
    match Normalized(limits)
    case Err(error) => Err(error)
    case Ok(l) =>
      if |d| > l.maxBytes then Err(ErrSyntax)
      else
        match ParseValue(d, SkipSpace(d, 0), 0, 0, l)
        case Fail => Err(ErrSyntax)
        case Done(v, q, _) => if SkipSpace(d, q) == |d| then Ok(v) else Err(ErrSyntax)
  }
}
