/**
 * Completeness of the decoder: wherever the text of a well-formed syntax tree
 * stands, the parser reads exactly that tree, provided the limits allow it.
 */
module JsonComplete {
  import opened Common
  import opened Utf8
  import opened JsonModel
  import opened JsonGrammar

  // --------------------------------------------------------------- positions

  lemma AtConcat(d: bytes, p: nat, a: bytes, b: bytes)
    ensures At(d, p, a + b) <==> At(d, p, a) && At(d, p + |a|, b)
    ensures At(d, p, a + b) ==> p + |a| + |b| <= |d|
  {
    if p + |a| + |b| <= |d| {
      var whole := d[p..p + |a| + |b|];
      assert whole[..|a|] == d[p..p + |a|];
      assert whole[|a|..] == d[p + |a|..p + |a| + |b|];
      if whole == a + b {
        assert whole[..|a|] == a && whole[|a|..] == b;
      }
      if At(d, p, a) && At(d, p + |a|, b) {
        assert whole == whole[..|a|] + whole[|a|..];
      }
    }
  }

  lemma AtByte(d: bytes, p: nat, s: bytes, i: nat)
    requires At(d, p, s) && i < |s|
    ensures p + i < |d| && d[p + i] == s[i]
  {
    assert d[p..p + |s|][i] == d[p + i];
  }

  // ------------------------------------------------------------ white space

  lemma {:induction false} SpacesSkipped(d: bytes, p: nat, gap: bytes)
    requires At(d, p, gap) && Spaces(gap)
    requires p + |gap| == |d| || !IsSpace(d[p + |gap|])
    ensures SkipSpace(d, p) == p + |gap|
    decreases |gap|
  {
    if gap != [] {
      AtByte(d, p, gap, 0);
      AtConcat(d, p, [gap[0]], gap[1..]);
      assert gap == [gap[0]] + gap[1..];
      SpacesSkipped(d, p + 1, gap[1..]);
    }
  }

  lemma {:induction false} DigitsSkipped(d: bytes, p: nat, digits: bytes)
    requires At(d, p, digits) && forall i :: 0 <= i < |digits| ==> IsDigit(digits[i])
    requires p + |digits| == |d| || !IsDigit(d[p + |digits|])
    ensures SkipDigits(d, p) == p + |digits|
    decreases |digits|
  {
    if digits != [] {
      AtByte(d, p, digits, 0);
      AtConcat(d, p, [digits[0]], digits[1..]);
      assert digits == [digits[0]] + digits[1..];
      DigitsSkipped(d, p + 1, digits[1..]);
    }
  }

  // ---------------------------------------------------------------- numbers

  /** No number that ends at `q` could go on. */
  predicate NumberEnds(d: bytes, q: nat)
  {
    q < |d| ==> !IsDigit(d[q]) && d[q] != DOT && d[q] != LOWER_E && d[q] != UPPER_E
  }

  lemma DigitsRead(d: bytes, p: nat, digits: bytes)
    requires At(d, p, digits) && Digits(digits)
    requires p + |digits| == |d| || !IsDigit(d[p + |digits|])
    ensures DigitAt(d, p) && SkipDigits(d, p) == p + |digits| && SkipDigits(d, p + 1) == p + |digits|
  {
    AtByte(d, p, digits, 0);
    DigitsSkipped(d, p, digits);
  }

  lemma ExponentRead(d: bytes, p: nat, e: Option<Exponent>)
    requires At(d, p, ExponentText(e)) && NumberEnds(d, p + |ExponentText(e)|)
    requires e.Some? ==> e.value.letter in [LOWER_E, UPPER_E] && e.value.sign in [[], [PLUS], [MINUS]] && Digits(e.value.digits)
    ensures p <= |d| && ScanExponent(d, p) == Some(p + |ExponentText(e)|)
  {
    hide *;
    if e.Some? {
      ExponentUnfold(e);
      SignedDigitsRead(d, p, e.value);
    } else {
      NoExponentRead(d, p);
    }
  }

  lemma NoExponentRead(d: bytes, p: nat)
    requires At(d, p, ExponentText(None)) && NumberEnds(d, p + |ExponentText(None)|)
    ensures p <= |d| && ScanExponent(d, p) == Some(p + |ExponentText(None)|)
  {
  }

  /** The letter, the sign and the digits of an exponent. */
  lemma SignedDigitsRead(d: bytes, p: nat, e: Exponent)
    requires At(d, p, [e.letter] + (e.sign + e.digits)) && NumberEnds(d, p + |[e.letter] + (e.sign + e.digits)|)
    requires e.letter in [LOWER_E, UPPER_E] && e.sign in [[], [PLUS], [MINUS]] && Digits(e.digits)
    ensures p <= |d| && ScanExponent(d, p) == Some(p + |[e.letter] + (e.sign + e.digits)|)
  {
    hide *;
    var q := p + 1 + |e.sign|;
    AtConcat(d, p, [e.letter], e.sign + e.digits);
    AtConcat(d, p + 1, e.sign, e.digits);
    AtByte(d, p, [e.letter], 0);
    if e.sign != [] {
      AtByte(d, p + 1, e.sign, 0);
    }
    NumberEndsDigit(d, q + |e.digits|);
    DigitsRead(d, q, e.digits);
    ExponentScan(d, p, q, e.sign);
  }

  lemma ExponentUnfold(e: Option<Exponent>)
    requires e.Some?
    ensures ExponentText(e) == [e.value.letter] + (e.value.sign + e.value.digits)
  {
  }

  lemma NumberEndsDigit(d: bytes, q: nat)
    requires NumberEnds(d, q) && q <= |d|
    ensures q == |d| || !IsDigit(d[q])
  {
  }

  lemma ExponentScan(d: bytes, p: nat, q: nat, sign: bytes)
    requires p < |d| && d[p] in [LOWER_E, UPPER_E] && q == p + 1 + |sign| && DigitAt(d, q)
    requires sign in [[], [PLUS], [MINUS]] && (sign != [] ==> d[p + 1] == sign[0])
    ensures ScanExponent(d, p) == Some(SkipDigits(d, q))
  {
  }

  lemma FractionRead(d: bytes, p: nat, f: Option<bytes>, rest: bytes)
    requires At(d, p, FractionText(f) + rest) && (f.Some? ==> Digits(f.value))
    requires rest == [] ==> NumberEnds(d, p + |FractionText(f)|)
    requires rest != [] ==> rest[0] == LOWER_E || rest[0] == UPPER_E
    ensures p <= |d| && ScanFraction(d, p) == Some(p + |FractionText(f)|)
    ensures At(d, p + |FractionText(f)|, rest)
  {
    AtConcat(d, p, FractionText(f), rest);
    var q := p + |FractionText(f)|;
    if rest != [] {
      AtByte(d, q, rest, 0);
    }
    if f.Some? {
      AtConcat(d, p, [DOT], f.value);
      AtByte(d, p, [DOT], 0);
      DigitsRead(d, p + 1, f.value);
    }
  }

  lemma IntegerRead(d: bytes, p: nat, integer: bytes)
    requires At(d, p, integer) && Digits(integer) && (integer[0] == ZERO ==> |integer| == 1)
    requires p + |integer| == |d| || !IsDigit(d[p + |integer|])
    ensures p < |d| && IsDigit(d[p]) && ScanInteger(d, p) == Some(p + |integer|)
  {
    DigitsRead(d, p, integer);
    AtByte(d, p, integer, 0);
  }

  /** What may stand behind the integer part: a fraction, an exponent, or the number's end. */
  lemma IntegerStops(d: bytes, p: nat, n: NumberSyntax)
    requires NumberOk(n)
    requires At(d, p, FractionText(n.fraction) + ExponentText(n.exponent))
    requires NumberEnds(d, p + |FractionText(n.fraction)| + |ExponentText(n.exponent)|)
    ensures p == |d| || !IsDigit(d[p])
  {
    var rest := FractionText(n.fraction) + ExponentText(n.exponent);
    if rest != [] {
      AtByte(d, p, rest, 0);
    }
  }

  /** A number is read to its end, whatever follows that cannot continue it. */
  lemma NumberRead(d: bytes, p: nat, n: NumberSyntax)
    requires At(d, p, NumberText(n)) && NumberOk(n) && NumberEnds(d, p + |NumberText(n)|)
    ensures p < |d| && (d[p] == MINUS || IsDigit(d[p]))
    ensures ScanNumber(d, p) == Some(p + |NumberText(n)|)
  {
    hide *;
    var sign := SignText(n.minus);
    var fraction, exponent := FractionText(n.fraction), ExponentText(n.exponent);
    NumberParts(n);
    AtConcat(d, p, sign, n.integer + (fraction + exponent));
    var p1 := p + |sign|;
    AtConcat(d, p1, n.integer, fraction + exponent);
    var p2 := p1 + |n.integer|;
    var p3 := p2 + |fraction|;
    IntegerStops(d, p2, n);
    ExponentStarts(n.exponent);
    ExponentEnd(d, p2, n);
    FractionRead(d, p2, n.fraction, exponent);
    IntegerRead(d, p1, n.integer);
    ExponentRead(d, p3, n.exponent);
    SignRead(d, p, n.minus);
    NumberScan(d, p, p1, p2, p3, p3 + |exponent|);
  }

  lemma NumberParts(n: NumberSyntax)
    requires NumberOk(n)
    ensures Digits(n.integer) && (n.integer[0] == ZERO ==> |n.integer| == 1)
    ensures n.fraction.Some? ==> Digits(n.fraction.value)
    ensures n.exponent.Some? ==>
              n.exponent.value.letter in [LOWER_E, UPPER_E] && n.exponent.value.sign in [[], [PLUS], [MINUS]]
              && Digits(n.exponent.value.digits)
    ensures NumberText(n)
         == SignText(n.minus) + (n.integer + (FractionText(n.fraction) + ExponentText(n.exponent)))
  {
  }

  lemma SignRead(d: bytes, p: nat, minus: bool)
    requires At(d, p, SignText(minus)) && p + |SignText(minus)| < |d| && IsDigit(d[p + |SignText(minus)|])
    ensures p + |SignText(minus)| == if Has(d, p, MINUS) then p + 1 else p
    ensures p < |d| && (d[p] == MINUS || IsDigit(d[p]))
  {
    if minus {
      AtByte(d, p, [MINUS], 0);
    }
  }

  lemma ExponentEnd(d: bytes, p: nat, n: NumberSyntax)
    requires NumberEnds(d, p + |FractionText(n.fraction)| + |ExponentText(n.exponent)|)
    ensures ExponentText(n.exponent) == [] ==> NumberEnds(d, p + |FractionText(n.fraction)|)
  {
  }

  lemma ExponentStarts(e: Option<Exponent>)
    requires e.Some? ==> e.value.letter in [LOWER_E, UPPER_E]
    ensures ExponentText(e) != [] ==> ExponentText(e)[0] == LOWER_E || ExponentText(e)[0] == UPPER_E
  {
  }

  lemma NumberScan(d: bytes, p: nat, p1: nat, p2: nat, p3: nat, q: nat)
    requires p <= p1 <= p2 <= p3 <= |d|
    requires p1 == if Has(d, p, MINUS) then p + 1 else p
    requires ScanInteger(d, p1) == Some(p2) && ScanFraction(d, p2) == Some(p3) && ScanExponent(d, p3) == Some(q)
    ensures ScanNumber(d, p) == Some(q)
  {
    hide ScanInteger, ScanFraction, ScanExponent;
  }

  // ---------------------------------------------------------------- strings

  lemma HexRead(d: bytes, p: nat, digits: bytes)
    requires At(d, p, digits) && HexText(digits)
    ensures Hex4(d, p) == Some(HexValue(digits))
  {
    AtByte(d, p, digits, 0);
    AtByte(d, p, digits, 1);
    AtByte(d, p, digits, 2);
    AtByte(d, p, digits, 3);
    forall i | 0 <= i < 4 ensures Nibble(digits[i] as char) == HexDigit(digits[i]) {
      NibbleIsDigit(digits[i]);
    }
    hide Nibble, HexDigit;
  }

  /** What a pair of escapes means is what the decoder computes. */
  lemma PairMeaning(high: bytes, low: bytes)
    requires ItemOk(Pair(high, low))
    ensures HighSurrogate(HexValue(high)) && LowSurrogate(HexValue(low))
    ensures ItemMeaning(Pair(high, low)) == EncodeRune(Combine(HexValue(high), HexValue(low)))
  {
    hide HexText, HexValue;
    var r: int :| PairOf(r, HexValue(high), HexValue(low));
    forall q: int ensures PairOf(q, HexValue(high), HexValue(low)) <==>
        HighSurrogate(HexValue(high)) && LowSurrogate(HexValue(low)) && q == Combine(HexValue(high), HexValue(low)) {
      CombineExactly(HexValue(high), HexValue(low), q);
    }
  }

  lemma PairRead(d: bytes, p: nat, high: bytes, low: bytes)
    requires At(d, p, ItemText(Pair(high, low))) && ItemOk(Pair(high, low))
    ensures p < |d|
    ensures ScanItem(d, p) == Some((ItemMeaning(Pair(high, low)), p + 12))
  {
    var lead := [BACKSLASH, LOWER_U];
    AtConcat(d, p, lead, high + (lead + low));
    AtConcat(d, p + 2, high, lead + low);
    AtConcat(d, p + 6, lead, low);
    AtByte(d, p, lead, 0);
    AtByte(d, p, lead, 1);
    AtByte(d, p + 6, lead, 0);
    AtByte(d, p + 6, lead, 1);
    HexRead(d, p + 2, high);
    HexRead(d, p + 8, low);
    PairMeaning(high, low);
    hide HexText, HexValue, Hex4, Combine, PairOf, At;
  }

  lemma ItemRead(d: bytes, p: nat, item: Item)
    requires At(d, p, ItemText(item)) && ItemOk(item)
    ensures p < |d| && d[p] != QUOTE
    ensures ScanItem(d, p) == Some((ItemMeaning(item), p + |ItemText(item)|))
  {
    ItemStart(item);
    AtByte(d, p, ItemText(item), 0);
    ItemSizes(item);
    hide *;
    match item
    case Raw(text) => RawRead(d, p, text);
    case Short(letter) => ShortRead(d, p, letter);
    case Hex(digits) => HexItemRead(d, p, digits);
    case Pair(high, low) => PairRead(d, p, high, low);
  }

  lemma ItemStart(item: Item)
    requires ItemOk(item)
    ensures ItemText(item) != [] && ItemText(item)[0] != QUOTE
  {
  }

  lemma ItemSizes(item: Item)
    requires ItemOk(item)
    ensures item.Short? ==> |ItemText(item)| == 2
    ensures item.Hex? ==> |ItemText(item)| == 6
    ensures item.Pair? ==> |ItemText(item)| == 12
  {
  }

  lemma RawRead(d: bytes, p: nat, text: bytes)
    requires At(d, p, ItemText(Raw(text))) && ItemOk(Raw(text))
    ensures p < |d|
    ensures ScanItem(d, p) == Some((ItemMeaning(Raw(text)), p + |ItemText(Raw(text))|))
  {
    AtByte(d, p, text, 0);
    RuneSizeLocal(d, p, text);
  }

  lemma ShortRead(d: bytes, p: nat, letter: byte)
    requires At(d, p, ItemText(Short(letter))) && ItemOk(Short(letter))
    ensures p < |d|
    ensures ScanItem(d, p) == Some((ItemMeaning(Short(letter)), p + 2))
  {
    ShortMeaningIsEscape(letter);
    AtByte(d, p, ItemText(Short(letter)), 0);
    AtByte(d, p, ItemText(Short(letter)), 1);
  }

  lemma HexItemRead(d: bytes, p: nat, digits: bytes)
    requires At(d, p, ItemText(Hex(digits))) && ItemOk(Hex(digits))
    ensures p < |d|
    ensures ScanItem(d, p) == Some((ItemMeaning(Hex(digits)), p + 6))
  {
    var lead := [BACKSLASH, LOWER_U];
    AtConcat(d, p, lead, digits);
    AtByte(d, p, lead, 0);
    AtByte(d, p, lead, 1);
    HexRead(d, p + 2, digits);
  }

  lemma {:induction false} StringRead(d: bytes, p: nat, items: seq<Item>, out: bytes, max: int)
    requires At(d, p, ItemsText(items)) && ItemsOk(items)
    requires |out + Meaning(items)| <= max
    ensures p <= |d|
    ensures ScanString(d, p, out, max) == Some((out + Meaning(items), p + |ItemsText(items)|))
    decreases |items|
  {
    hide *;
    ItemsUnfold(items);
    if items == [] {
      AtByte(d, p, [QUOTE], 0);
      StringStops(d, p, out, max);
      assert out + Meaning(items) == out;
    } else {
      var text, rest := ItemText(items[0]), ItemsText(items[1..]);
      AtConcat(d, p, text, rest);
      ItemRead(d, p, items[0]);
      var out1 := out + ItemMeaning(items[0]);
      assert out1 + Meaning(items[1..]) == out + Meaning(items);
      assert |out1| <= max;
      StringRead(d, p + |text|, items[1..], out1, max);
      StringStep(d, p, out, max, ItemMeaning(items[0]), p + |text|);
    }
  }

  lemma ItemsUnfold(items: seq<Item>)
    requires ItemsOk(items)
    ensures items == [] ==> ItemsText(items) == [QUOTE] && Meaning(items) == []
    ensures items != [] ==>
              && ItemOk(items[0]) && ItemsOk(items[1..])
              && ItemsText(items) == ItemText(items[0]) + ItemsText(items[1..])
              && Meaning(items) == ItemMeaning(items[0]) + Meaning(items[1..])
  {
  }

  lemma StringStops(d: bytes, p: nat, out: bytes, max: int)
    requires p < |d| && d[p] == QUOTE && |out| <= max
    ensures ScanString(d, p, out, max) == Some((out, p + 1))
  {
  }

  /** The string loop, unfolded once. */
  lemma StringStep(d: bytes, p: nat, out: bytes, max: int, item: bytes, q: nat)
    requires p < |d| && d[p] != QUOTE && ScanItem(d, p) == Some((item, q)) && |out + item| <= max
    ensures ScanString(d, p, out, max) == ScanString(d, q, out + item, max)
  {
    hide ScanItem;
  }

  // ----------------------------------------------------------------- values

  /** The resources the parser has left are enough for `v`. */
  predicate Affordable(v: Value, depth: nat, nodes: nat, l: Limits)
  {
    nodes + Nodes(v) <= l.maxNodes && depth + Depth(v) <= l.maxDepth && StringsFit(v, l.maxStringBytes)
  }

  /** What a value's text starts with. */
  lemma TextStart(s: Syntax)
    requires SyntaxOk(s)
    ensures Text(s) != [] && !IsSpace(Text(s)[0]) && Text(s)[0] != RBRACKET
  {
    match s
    case SNumber(n) =>
      if !n.minus {
        assert Text(s)[0] == n.integer[0];
      }
    case _ =>
  }

  /** White space, a comma or a closing bracket: nothing that could continue a value. */
  predicate Delimiter(b: byte)
  {
    IsSpace(b) || b == COMMA || b == RBRACKET || b == RBRACE
  }

  lemma ScalarRead(d: bytes, p: nat, s: Syntax, depth: nat, nodes: nat, l: Limits)
    requires At(d, p, Text(s)) && SyntaxOk(s) && !s.SArray? && !s.SObject?
    requires NumberEnds(d, p + |Text(s)|) && Affordable(Tree(s), depth, nodes, l)
    ensures p <= |d|
    ensures ParseValue(d, p, depth, nodes, l) == Done(Tree(s), p + |Text(s)|, nodes + 1)
  {
    match s
    case SNull => AtByte(d, p, NULL_TEXT, 0);
    case SBool(b) => AtByte(d, p, Text(s), 0);
    case SNumber(n) => NumberValueRead(d, p, n, depth, nodes, l);
    case SString(items) => StringValueRead(d, p, items, depth, nodes, l);
  }

  lemma NumberValueRead(d: bytes, p: nat, n: NumberSyntax, depth: nat, nodes: nat, l: Limits)
    requires At(d, p, NumberText(n)) && NumberOk(n) && NumberEnds(d, p + |NumberText(n)|) && nodes < l.maxNodes
    ensures p < |d|
    ensures ParseValue(d, p, depth, nodes, l) == Done(NumberValue(NumberText(n)), p + |NumberText(n)|, nodes + 1)
  {
    NumberRead(d, p, n);
    hide NumberText, NumberOk, ScanNumber;
  }

  lemma StringValueRead(d: bytes, p: nat, items: seq<Item>, depth: nat, nodes: nat, l: Limits)
    requires At(d, p, StringText(items)) && ItemsOk(items) && nodes < l.maxNodes
    requires |Meaning(items)| <= l.maxStringBytes
    ensures p < |d|
    ensures ParseValue(d, p, depth, nodes, l) == Done(StringValue(Meaning(items)), p + |StringText(items)|, nodes + 1)
  {
    hide StringText, Meaning, ScanString, At;
    QuotedRead(d, p, items, l.maxStringBytes);
  }

  lemma {:induction false} ValueRead(d: bytes, p: nat, s: Syntax, depth: nat, nodes: nat, l: Limits)
    requires At(d, p, Text(s)) && SyntaxOk(s)
    requires NumberEnds(d, p + |Text(s)|) && Affordable(Tree(s), depth, nodes, l)
    ensures p <= |d|
    ensures ParseValue(d, p, depth, nodes, l) == Done(Tree(s), p + |Text(s)|, nodes + Nodes(Tree(s)))
    decreases s, 1
  {
    match s
    case SArray(gap, elements) =>
      ArrayRead(d, p, s, depth, nodes, l);
    case SObject(gap, fields) =>
      ObjectRead(d, p, s, depth, nodes, l);
    case _ =>
      ScalarRead(d, p, s, depth, nodes, l);
  }

  lemma {:induction false} ArrayRead(d: bytes, p: nat, s: Syntax, depth: nat, nodes: nat, l: Limits)
    requires s.SArray? && At(d, p, Text(s)) && SyntaxOk(s) && Affordable(Tree(s), depth, nodes, l)
    ensures p < |d|
    ensures ParseValue(d, p, depth, nodes, l) == Done(Tree(s), p + |Text(s)|, nodes + Nodes(Tree(s)))
    decreases s, 0
  {
    hide *;
    var gap, elements := s.gap, s.elements;
    ArrayUnfold(s, depth, nodes, l);
    AtConcat(d, p, [LBRACKET], gap + ElementsText(elements));
    AtByte(d, p, [LBRACKET], 0);
    if elements == [] {
      assert [LBRACKET] + (gap + [RBRACKET]) == Text(s);
      EmptyArrayRead(d, p, gap, depth, nodes, l);
    } else {
      assert gap + ElementsText(elements) == ElementsText(elements);
      assert [] + ElementTrees(elements) == ElementTrees(elements);
      ElementStartsRead(d, p + 1, elements);
      ElementsRead(d, p + 1, elements, depth + 1, nodes + 1, l, []);
      ArrayOpens(d, p, depth, nodes, l);
    }
  }

  /** What an array's text, value and costs are made of. */
  lemma ArrayUnfold(s: Syntax, depth: nat, nodes: nat, l: Limits)
    requires s.SArray? && SyntaxOk(s) && Affordable(Tree(s), depth, nodes, l)
    ensures Spaces(s.gap) && (s.elements != [] ==> s.gap == []) && ElementsOk(s.elements)
    ensures Text(s) == [LBRACKET] + (s.gap + ElementsText(s.elements))
    ensures Tree(s) == ArrayValue(ElementTrees(s.elements))
    ensures Nodes(Tree(s)) == 1 + ElementNodes(ElementTrees(s.elements))
    ensures nodes < l.maxNodes && depth + 1 <= l.maxDepth
    ensures nodes + 1 + ElementNodes(ElementTrees(s.elements)) <= l.maxNodes
    ensures depth + 1 + ElementDepth(ElementTrees(s.elements)) <= l.maxDepth
    ensures ElementStringsFit(ElementTrees(s.elements), l.maxStringBytes)
    ensures s.elements == [] ==>
              ElementsText(s.elements) == [RBRACKET] && ElementTrees(s.elements) == [] && Nodes(Tree(s)) == 1
  {
  }

  lemma EmptyArrayRead(d: bytes, p: nat, gap: bytes, depth: nat, nodes: nat, l: Limits)
    requires Spaces(gap) && At(d, p, [LBRACKET] + (gap + [RBRACKET])) && nodes < l.maxNodes && depth + 1 <= l.maxDepth
    ensures p < |d| && ParseValue(d, p, depth, nodes, l) == Done(ArrayValue([]), p + 2 + |gap|, nodes + 1)
  {
    AtConcat(d, p, [LBRACKET], gap + [RBRACKET]);
    AtConcat(d, p + 1, gap, [RBRACKET]);
    AtByte(d, p, [LBRACKET], 0);
    AtByte(d, p + 1 + |gap|, [RBRACKET], 0);
    hide At;
    SpacesSkipped(d, p + 1, gap);
  }

  lemma EmptyObjectRead(d: bytes, p: nat, gap: bytes, depth: nat, nodes: nat, l: Limits)
    requires Spaces(gap) && At(d, p, [LBRACE] + (gap + [RBRACE])) && nodes < l.maxNodes && depth + 1 <= l.maxDepth
    ensures p < |d| && ParseValue(d, p, depth, nodes, l) == Done(ObjectValue([]), p + 2 + |gap|, nodes + 1)
  {
    AtConcat(d, p, [LBRACE], gap + [RBRACE]);
    AtConcat(d, p + 1, gap, [RBRACE]);
    AtByte(d, p, [LBRACE], 0);
    AtByte(d, p + 1 + |gap|, [RBRACE], 0);
    hide At;
    SpacesSkipped(d, p + 1, gap);
  }

  lemma ObjectUnfold(s: Syntax, depth: nat, nodes: nat, l: Limits)
    requires s.SObject? && SyntaxOk(s) && Affordable(Tree(s), depth, nodes, l)
    ensures Spaces(s.gap) && (s.fields != [] ==> s.gap == []) && FieldsOk(s.fields)
    ensures Text(s) == [LBRACE] + (s.gap + FieldsText(s.fields))
    ensures Tree(s) == ObjectValue(FieldTrees(s.fields))
    ensures Nodes(Tree(s)) == 1 + MemberNodes(FieldTrees(s.fields))
    ensures nodes < l.maxNodes && depth + 1 <= l.maxDepth
    ensures nodes + 1 + MemberNodes(FieldTrees(s.fields)) <= l.maxNodes
    ensures depth + 1 + MemberDepth(FieldTrees(s.fields)) <= l.maxDepth
    ensures MemberStringsFit(FieldTrees(s.fields), l.maxStringBytes)
    ensures s.fields == [] ==> FieldsText(s.fields) == [RBRACE] && FieldTrees(s.fields) == [] && Nodes(Tree(s)) == 1
  {
  }

  /** An opening bracket with no closing bracket behind the white space enters the element loop. */
  lemma ArrayOpens(d: bytes, p: nat, depth: nat, nodes: nat, l: Limits)
    requires p < |d| && d[p] == LBRACKET && nodes < l.maxNodes && depth + 1 <= l.maxDepth
    requires SkipSpace(d, p + 1) < |d| && d[SkipSpace(d, p + 1)] != RBRACKET
    ensures ParseValue(d, p, depth, nodes, l) == ParseElements(d, SkipSpace(d, p + 1), depth + 1, nodes + 1, l, [])
  {
  }

  lemma ObjectOpens(d: bytes, p: nat, depth: nat, nodes: nat, l: Limits)
    requires p < |d| && d[p] == LBRACE && nodes < l.maxNodes && depth + 1 <= l.maxDepth
    requires !Has(d, SkipSpace(d, p + 1), RBRACE)
    ensures ParseValue(d, p, depth, nodes, l) == ParseMembers(d, SkipSpace(d, p + 1), depth + 1, nodes + 1, l, [])
  {
  }

  lemma ElementsStart(elements: seq<Element>)
    requires elements != [] && ElementsOk(elements)
    ensures ElementOk(elements[0]) && ElementsOk(elements[1..])
    ensures Spaces(elements[0].before) && SyntaxOk(elements[0].syntax) && Spaces(elements[0].after)
  {
  }

  /** Behind the white space stands the value, not a closing bracket. */
  lemma ValueStarts(d: bytes, p: nat, before: bytes, s: Syntax, rest: bytes)
    requires Spaces(before) && SyntaxOk(s) && At(d, p, before + (Text(s) + rest))
    ensures p <= |d| && SkipSpace(d, p) == p + |before| < |d|
    ensures d[p + |before|] != RBRACKET
    ensures At(d, p + |before|, Text(s)) && At(d, p + |before| + |Text(s)|, rest)
  {
    hide SyntaxOk, Text, SkipSpace;
    AtConcat(d, p, before, Text(s) + rest);
    AtConcat(d, p + |before|, Text(s), rest);
    TextStart(s);
    AtByte(d, p + |before|, Text(s), 0);
    hide At, Text;
    SpacesSkipped(d, p, before);
  }

  lemma ElementsUnfold(elements: seq<Element>)
    requires elements != []
    ensures ElementsText(elements)
         == elements[0].before + (Text(elements[0].syntax) + (elements[0].after + MoreElements(elements[1..])))
    ensures |ElementsText(elements)| == |elements[0].before| + |Text(elements[0].syntax)| + |elements[0].after|
                                        + |MoreElements(elements[1..])|
  {
    assert ElementsText(elements) == ElementText(elements[0], MoreElements(elements[1..]));
  }

  lemma MoreElementsStart(more: seq<Element>)
    ensures MoreElements(more) != [] && MoreElements(more)[0] == if more == [] then RBRACKET else COMMA
    ensures Delimiter(MoreElements(more)[0]) && !IsSpace(MoreElements(more)[0])
    ensures more == [] ==> MoreElements(more) == [RBRACKET]
    ensures more != [] ==> MoreElements(more) == [COMMA] + ElementsText(more)
  {
  }

  lemma ElementStartsRead(d: bytes, p: nat, elements: seq<Element>)
    requires elements != [] && ElementsOk(elements) && At(d, p, ElementsText(elements))
    ensures p <= |d| && SkipSpace(d, p) < |d| && d[SkipSpace(d, p)] != RBRACKET
  {
    hide *;
    var e := elements[0];
    ElementsStart(elements);
    ElementsUnfold(elements);
    ValueStarts(d, p, e.before, e.syntax, e.after + MoreElements(elements[1..]));
  }

  /** After an element come white space and a delimiter. */
  lemma TailRead(d: bytes, p: nat, after: bytes, rest: bytes)
    requires At(d, p, after + rest) && Spaces(after) && rest != [] && Delimiter(rest[0]) && !IsSpace(rest[0])
    ensures NumberEnds(d, p)
    ensures p <= |d| && SkipSpace(d, p) == p + |after|
    ensures Has(d, p + |after|, rest[0]) && At(d, p + |after|, rest)
  {
    AtConcat(d, p, after, rest);
    AtByte(d, p + |after|, rest, 0);
    if after != [] {
      AtByte(d, p, after, 0);
    }
    SpacesSkipped(d, p, after);
  }

  lemma TreesStart(elements: seq<Element>)
    requires elements != [] && ElementsOk(elements)
    ensures ElementOk(elements[0]) && ElementsOk(elements[1..])
    ensures ElementTrees(elements) == [Tree(elements[0].syntax)] + ElementTrees(elements[1..])
    ensures elements[1..] == [] ==> ElementTrees(elements[1..]) == []
  {
  }

  lemma ElementCosts(v: Value, vs: seq<Value>, max: int)
    ensures ElementNodes([v] + vs) == Nodes(v) + ElementNodes(vs)
    ensures ElementDepth([v] + vs) == Max(Depth(v), ElementDepth(vs))
    ensures ElementStringsFit([v] + vs, max) <==> StringsFit(v, max) && ElementStringsFit(vs, max)
  {
    assert ([v] + vs)[1..] == vs;
  }

  lemma {:induction false} ElementsRead(d: bytes, p: nat, elements: seq<Element>, depth: nat, nodes: nat, l: Limits, done: seq<Value>)
    requires elements != [] && ElementsOk(elements) && At(d, p, ElementsText(elements))
    requires nodes + ElementNodes(ElementTrees(elements)) <= l.maxNodes
    requires depth + ElementDepth(ElementTrees(elements)) <= l.maxDepth
    requires ElementStringsFit(ElementTrees(elements), l.maxStringBytes)
    ensures p <= |d|
    ensures ParseElements(d, SkipSpace(d, p), depth, nodes, l, done)
         == Done(ArrayValue(done + ElementTrees(elements)), p + |ElementsText(elements)|,
                 nodes + ElementNodes(ElementTrees(elements)))
    decreases elements, 0
  {
    hide *;
    var e, more := elements[0], elements[1..];
    var rest := MoreElements(more);
    ElementsStart(elements);
    TreesStart(elements);
    ElementsUnfold(elements);
    MoreElementsStart(more);
    var v, vs := Tree(e.syntax), ElementTrees(more);
    ElementCosts(v, vs, l.maxStringBytes);
    ValueStarts(d, p, e.before, e.syntax, e.after + rest);
    var p1 := p + |e.before|;
    var p2 := p1 + |Text(e.syntax)|;
    var p3 := p2 + |e.after|;
    TailRead(d, p2, e.after, rest);
    CostsSplit(v, vs, depth, nodes, l);
    ValueRead(d, p1, e.syntax, depth, nodes, l);
    if more == [] {
      assert [v] + vs == [v];
      NoElementNodes();
      LastElement(d, p1, depth, nodes, l, done, v, p2, nodes + Nodes(v));
    } else {
      AtConcat(d, p3, [COMMA], ElementsText(more));
      ElementsRead(d, p3 + 1, more, depth, nodes + Nodes(v), l, done + [v]);
      assert done + [v] + vs == done + ([v] + vs);
      NextElement(d, p1, depth, nodes, l, done, v, p2, nodes + Nodes(v));
    }
  }

  lemma NoElementNodes()
    ensures ElementNodes([]) == 0
  {
  }

  /** Affording all the elements is affording the first and then the others. */
  lemma CostsSplit(v: Value, vs: seq<Value>, depth: nat, nodes: nat, l: Limits)
    requires nodes + (Nodes(v) + ElementNodes(vs)) <= l.maxNodes
    requires depth + Max(Depth(v), ElementDepth(vs)) <= l.maxDepth
    requires StringsFit(v, l.maxStringBytes)
    ensures Affordable(v, depth, nodes, l)
    ensures depth + ElementDepth(vs) <= l.maxDepth
  {
  }

  /** The element loop, unfolded once. */
  lemma LastElement(d: bytes, p: nat, depth: nat, nodes: nat, l: Limits, done: seq<Value>, v: Value, q: nat, n: nat)
    requires p <= |d| && ParseValue(d, p, depth, nodes, l) == Done(v, q, n) && Has(d, SkipSpace(d, q), RBRACKET)
    ensures ParseElements(d, p, depth, nodes, l, done) == Done(ArrayValue(done + [v]), SkipSpace(d, q) + 1, n)
  {
    hide ParseValue;
  }

  lemma NextElement(d: bytes, p: nat, depth: nat, nodes: nat, l: Limits, done: seq<Value>, v: Value, q: nat, n: nat)
    requires p <= |d| && ParseValue(d, p, depth, nodes, l) == Done(v, q, n) && Has(d, SkipSpace(d, q), COMMA)
    ensures ParseElements(d, p, depth, nodes, l, done)
         == ParseElements(d, SkipSpace(d, SkipSpace(d, q) + 1), depth, n, l, done + [v])
  {
    hide ParseValue;
  }

  lemma {:induction false} ObjectRead(d: bytes, p: nat, s: Syntax, depth: nat, nodes: nat, l: Limits)
    requires s.SObject? && At(d, p, Text(s)) && SyntaxOk(s) && Affordable(Tree(s), depth, nodes, l)
    ensures p < |d|
    ensures ParseValue(d, p, depth, nodes, l) == Done(Tree(s), p + |Text(s)|, nodes + Nodes(Tree(s)))
    decreases s, 0
  {
    hide *;
    var gap, fields := s.gap, s.fields;
    ObjectUnfold(s, depth, nodes, l);
    AtConcat(d, p, [LBRACE], gap + FieldsText(fields));
    AtByte(d, p, [LBRACE], 0);
    if fields == [] {
      assert [LBRACE] + (gap + [RBRACE]) == Text(s);
      EmptyObjectRead(d, p, gap, depth, nodes, l);
    } else {
      assert gap + FieldsText(fields) == FieldsText(fields);
      assert [] + FieldTrees(fields) == FieldTrees(fields);
      FieldStartsRead(d, p + 1, fields);
      FieldsRead(d, p + 1, fields, depth + 1, nodes + 1, l, []);
      ObjectOpens(d, p, depth, nodes, l);
    }
  }

  ghost predicate FieldOk(f: Field)
  {
    Spaces(f.before) && ItemsOk(f.name) && Spaces(f.gap)
    && Spaces(f.element.before) && SyntaxOk(f.element.syntax) && Spaces(f.element.after)
  }

  lemma FieldsStart(fields: seq<Field>)
    requires fields != [] && FieldsOk(fields)
    ensures FieldOk(fields[0]) && FieldsOk(fields[1..])
    ensures FieldTrees(fields)
         == [Member(Meaning(fields[0].name), Tree(fields[0].element.syntax))] + FieldTrees(fields[1..])
    ensures fields[1..] == [] ==> FieldTrees(fields[1..]) == []
  {
    assert ElementOk(fields[0].element);
  }

  lemma MemberCosts(m: Member, ms: seq<Member>, max: int)
    ensures MemberNodes([m] + ms) == Nodes(m.value) + MemberNodes(ms)
    ensures MemberDepth([m] + ms) == Max(Depth(m.value), MemberDepth(ms))
    ensures MemberStringsFit([m] + ms, max) <==> |m.name| <= max && StringsFit(m.value, max) && MemberStringsFit(ms, max)
  {
    assert ([m] + ms)[1..] == ms;
  }

  lemma NameStarts(d: bytes, p: nat, before: bytes, name: seq<Item>, rest: bytes)
    requires Spaces(before) && At(d, p, before + (StringText(name) + rest))
    ensures p <= |d| && SkipSpace(d, p) == p + |before|
    ensures Has(d, p + |before|, QUOTE)
    ensures At(d, p + |before|, StringText(name)) && At(d, p + |before| + |StringText(name)|, rest)
  {
    AtConcat(d, p, before, StringText(name) + rest);
    AtConcat(d, p + |before|, StringText(name), rest);
    AtByte(d, p + |before|, StringText(name), 0);
    hide At, ItemsText;
    SpacesSkipped(d, p, before);
  }

  lemma FieldsUnfold(fields: seq<Field>)
    requires fields != []
    ensures var f := fields[0];
            var rest := f.element.after + MoreFields(fields[1..]);
            var value := f.gap + ([COLON] + (f.element.before + (Text(f.element.syntax) + rest)));
            && FieldsText(fields) == f.before + (StringText(f.name) + value)
            && |FieldsText(fields)| == |f.before| + |StringText(f.name)| + |f.gap| + 1 + |f.element.before|
                                       + |Text(f.element.syntax)| + |f.element.after| + |MoreFields(fields[1..])|
  {
    assert FieldsText(fields) == FieldText(fields[0], MoreFields(fields[1..]));
    assert ElementText(fields[0].element, MoreFields(fields[1..]))
        == fields[0].element.before + (Text(fields[0].element.syntax) + (fields[0].element.after + MoreFields(fields[1..])));
  }

  lemma MoreFieldsStart(more: seq<Field>)
    ensures MoreFields(more) != [] && MoreFields(more)[0] == if more == [] then RBRACE else COMMA
    ensures Delimiter(MoreFields(more)[0]) && !IsSpace(MoreFields(more)[0])
    ensures more == [] ==> MoreFields(more) == [RBRACE]
    ensures more != [] ==> MoreFields(more) == [COMMA] + FieldsText(more)
  {
  }

  lemma FieldStartsRead(d: bytes, p: nat, fields: seq<Field>)
    requires fields != [] && FieldsOk(fields) && At(d, p, FieldsText(fields))
    ensures p <= |d| && !Has(d, SkipSpace(d, p), RBRACE)
  {
    var f := fields[0];
    FieldsStart(fields);
    FieldsUnfold(fields);
    hide At, FieldsText;
    NameStarts(d, p, f.before, f.name,
               f.gap + ([COLON] + (f.element.before + (Text(f.element.syntax) + (f.element.after + MoreFields(fields[1..]))))));
  }

  /** The name, the colon and the white space around it. */
  lemma NameRead(d: bytes, p: nat, name: seq<Item>, gap: bytes, before: bytes, s: Syntax, rest: bytes, l: Limits)
    requires ItemsOk(name) && Spaces(gap) && Spaces(before) && SyntaxOk(s)
    requires At(d, p, StringText(name))
    requires At(d, p + |StringText(name)|, gap + ([COLON] + (before + (Text(s) + rest))))
    requires |Meaning(name)| <= l.maxStringBytes
    ensures var q := p + |StringText(name)| + |gap| + 1 + |before|;
            && ScanName(d, p, l) == Some((Meaning(name), q))
            && At(d, q, Text(s)) && At(d, q + |Text(s)|, rest)
  {
    hide *;
    var behind := before + (Text(s) + rest);
    var q := p + |StringText(name)|;
    QuotedRead(d, p, name, l.maxStringBytes);
    ColonRead(d, q, gap, behind);
    ValueStarts(d, q + |gap| + 1, before, s, rest);
    NameScan(d, p, Meaning(name), q, l);
  }

  lemma QuotedRead(d: bytes, p: nat, items: seq<Item>, max: int)
    requires ItemsOk(items) && At(d, p, StringText(items)) && |Meaning(items)| <= max
    ensures Has(d, p, QUOTE) && p + |StringText(items)| <= |d|
    ensures ScanString(d, p + 1, [], max) == Some((Meaning(items), p + |StringText(items)|))
  {
    hide *;
    StringTextUnfold(items);
    AtConcat(d, p, [QUOTE], ItemsText(items));
    AtByte(d, p, [QUOTE], 0);
    QuoteHas(d, p);
    assert [] + Meaning(items) == Meaning(items);
    StringRead(d, p + 1, items, [], max);
  }

  lemma StringTextUnfold(items: seq<Item>)
    ensures StringText(items) == [QUOTE] + ItemsText(items)
  {
  }

  lemma QuoteHas(d: bytes, p: nat)
    requires p < |d| && d[p] == QUOTE
    ensures Has(d, p, QUOTE)
  {
  }

  lemma ColonRead(d: bytes, q: nat, gap: bytes, behind: bytes)
    requires Spaces(gap) && At(d, q, gap + ([COLON] + behind))
    ensures q <= |d| && SkipSpace(d, q) == q + |gap|
    ensures Has(d, q + |gap|, COLON) && At(d, q + |gap| + 1, behind)
  {
    AtConcat(d, q, gap, [COLON] + behind);
    AtConcat(d, q + |gap|, [COLON], behind);
    AtByte(d, q + |gap|, [COLON], 0);
    hide At;
    SpacesSkipped(d, q, gap);
  }

  lemma NameScan(d: bytes, p: nat, name: bytes, q: nat, l: Limits)
    requires Has(d, p, QUOTE) && ScanString(d, p + 1, [], l.maxStringBytes) == Some((name, q)) && q <= |d|
    requires Has(d, SkipSpace(d, q), COLON)
    ensures ScanName(d, p, l) == Some((name, SkipSpace(d, SkipSpace(d, q) + 1)))
  {
  }

  lemma {:induction false} FieldsRead(d: bytes, p: nat, fields: seq<Field>, depth: nat, nodes: nat, l: Limits, done: seq<Member>)
    requires fields != [] && FieldsOk(fields) && At(d, p, FieldsText(fields))
    requires nodes + MemberNodes(FieldTrees(fields)) <= l.maxNodes
    requires depth + MemberDepth(FieldTrees(fields)) <= l.maxDepth
    requires MemberStringsFit(FieldTrees(fields), l.maxStringBytes)
    ensures p <= |d|
    ensures ParseMembers(d, SkipSpace(d, p), depth, nodes, l, done)
         == Done(ObjectValue(done + FieldTrees(fields)), p + |FieldsText(fields)|,
                 nodes + MemberNodes(FieldTrees(fields)))
    decreases fields, 0
  {
    hide *;
    var f, more := fields[0], fields[1..];
    var e, rest := f.element, MoreFields(more);
    FieldsStart(fields);
    FieldsUnfold(fields);
    MoreFieldsStart(more);
    FieldParts(f);
    var m, ms := Member(Meaning(f.name), Tree(e.syntax)), FieldTrees(more);
    MemberCosts(m, ms, l.maxStringBytes);
    NameStarts(d, p, f.before, f.name, f.gap + ([COLON] + (e.before + (Text(e.syntax) + (e.after + rest)))));
    var p1 := p + |f.before|;
    NameRead(d, p1, f.name, f.gap, e.before, e.syntax, e.after + rest, l);
    var p2 := p1 + |StringText(f.name)| + |f.gap| + 1 + |e.before|;
    var p3 := p2 + |Text(e.syntax)|;
    var p4 := p3 + |e.after|;
    TailRead(d, p3, e.after, rest);
    MemberCostsSplit(m, ms, depth, nodes, l);
    ValueRead(d, p2, e.syntax, depth, nodes, l);
    if more == [] {
      assert [m] + ms == [m];
      NoMemberNodes();
      LastMember(d, p1, depth, nodes, l, done, m, p2, p3, nodes + Nodes(m.value));
    } else {
      AtConcat(d, p4, [COMMA], FieldsText(more));
      FieldsRead(d, p4 + 1, more, depth, nodes + Nodes(m.value), l, done + [m]);
      assert done + [m] + ms == done + ([m] + ms);
      NextMember(d, p1, depth, nodes, l, done, m, p2, p3, nodes + Nodes(m.value));
    }
  }

  lemma NoMemberNodes()
    ensures MemberNodes([]) == 0
  {
  }

  lemma FieldParts(f: Field)
    requires FieldOk(f)
    ensures Spaces(f.before) && ItemsOk(f.name) && Spaces(f.gap)
    ensures Spaces(f.element.before) && SyntaxOk(f.element.syntax) && Spaces(f.element.after)
  {
  }

  lemma MemberCostsSplit(m: Member, ms: seq<Member>, depth: nat, nodes: nat, l: Limits)
    requires nodes + (Nodes(m.value) + MemberNodes(ms)) <= l.maxNodes
    requires depth + Max(Depth(m.value), MemberDepth(ms)) <= l.maxDepth
    requires StringsFit(m.value, l.maxStringBytes)
    ensures Affordable(m.value, depth, nodes, l)
    ensures depth + MemberDepth(ms) <= l.maxDepth
  {
  }

  /** The member loop, unfolded once. */
  lemma LastMember(d: bytes, p: nat, depth: nat, nodes: nat, l: Limits, done: seq<Member>, m: Member, p1: nat, q: nat, n: nat)
    requires p <= |d| && ScanName(d, p, l) == Some((m.name, p1))
    requires ParseValue(d, p1, depth, nodes, l) == Done(m.value, q, n) && Has(d, SkipSpace(d, q), RBRACE)
    ensures ParseMembers(d, p, depth, nodes, l, done) == Done(ObjectValue(done + [m]), SkipSpace(d, q) + 1, n)
  {
    hide ParseValue, ScanName;
  }

  lemma NextMember(d: bytes, p: nat, depth: nat, nodes: nat, l: Limits, done: seq<Member>, m: Member, p1: nat, q: nat, n: nat)
    requires p <= |d| && ScanName(d, p, l) == Some((m.name, p1))
    requires ParseValue(d, p1, depth, nodes, l) == Done(m.value, q, n) && Has(d, SkipSpace(d, q), COMMA)
    ensures ParseMembers(d, p, depth, nodes, l, done)
         == ParseMembers(d, SkipSpace(d, SkipSpace(d, q) + 1), depth, n, l, done + [m])
  {
    hide ParseValue, ScanName;
  }

  /** Every document of the language that fits the limits is accepted, with the value it denotes. */
  lemma DecodeComplete(d: bytes, lead: bytes, s: Syntax, trail: bytes, limits: Limits)
    requires SyntaxOk(s) && IsFramed(d, lead, s, trail)
    requires NoNegative(limits) && Fits(d, Tree(s), limits)
    ensures Decode(d, limits) == Ok(Tree(s))
  {
    hide *;
    FitsParts(d, Tree(s), limits);
    var l := Normalized(limits).value;
    var q := |lead| + |Text(s)|;
    FramedParts(d, lead, s, trail);
    ValueStarts(d, 0, lead, s, trail);
    TrailingRead(d, q, trail);
    ValueRead(d, |lead|, s, 0, 0, l);
    DecodeSteps(d, limits, |lead|, Tree(s), q, Nodes(Tree(s)));
  }

  lemma FramedParts(d: bytes, lead: bytes, s: Syntax, trail: bytes)
    requires IsFramed(d, lead, s, trail)
    ensures Spaces(lead) && Spaces(trail) && At(d, 0, lead + (Text(s) + trail))
    ensures |d| == |lead| + |Text(s)| + |trail|
  {
  }

  lemma FitsParts(d: bytes, v: Value, limits: Limits)
    requires NoNegative(limits) && Fits(d, v, limits)
    ensures Normalized(limits).Ok?
    ensures |d| <= Normalized(limits).value.maxBytes && Affordable(v, 0, 0, Normalized(limits).value)
  {
  }

  /** White space up to the end of the document. */
  lemma TrailingRead(d: bytes, q: nat, trail: bytes)
    requires At(d, q, trail) && q + |trail| == |d| && Spaces(trail)
    ensures NumberEnds(d, q) && SkipSpace(d, q) == |d|
  {
    if trail != [] {
      AtByte(d, q, trail, 0);
    }
    SpacesSkipped(d, q, trail);
  }

  lemma DecodeSteps(d: bytes, limits: Limits, p: nat, v: Value, q: nat, n: nat)
    requires Normalized(limits).Ok? && |d| <= Normalized(limits).value.maxBytes
    requires SkipSpace(d, 0) == p && ParseValue(d, p, 0, 0, Normalized(limits).value) == Done(v, q, n)
    requires SkipSpace(d, q) == |d|
    ensures Decode(d, limits) == Ok(v)
  {
    hide ParseValue, Normalized, SkipSpace;
  }
}
