/**
 * Soundness of the decoder, and with it the exact language: what the parser
 * accepts is the text of a well-formed syntax tree that denotes the result
 * and fits the limits.
 */
module JsonSound {
  import opened Common
  import opened Utf8
  import opened JsonModel
  import opened JsonGrammar
  import opened JsonComplete

  /** The document between two positions. */
  function Cut(d: bytes, p: nat, q: nat): bytes
    requires p <= q <= |d|
  {
    d[p..q]
  }

  lemma CutJoin(d: bytes, p: nat, q: nat, r: nat)
    requires p <= q <= r <= |d|
    ensures Cut(d, p, r) == Cut(d, p, q) + Cut(d, q, r)
  {
  }

  lemma CutByte(d: bytes, p: nat, b: byte)
    requires Has(d, p, b)
    ensures p < |d| && Cut(d, p, p + 1) == [b]
  {
  }

  lemma {:induction false} SpacesCut(d: bytes, p: nat)
    requires p <= |d|
    ensures Spaces(Cut(d, p, SkipSpace(d, p)))
    decreases |d| - p
  {
    if p < |d| && IsSpace(d[p]) {
      SpacesCut(d, p + 1);
      CutJoin(d, p, p + 1, SkipSpace(d, p));
    }
  }

  lemma {:induction false} DigitsCut(d: bytes, p: nat)
    requires p <= |d|
    ensures forall i :: 0 <= i < SkipDigits(d, p) - p ==> IsDigit(Cut(d, p, SkipDigits(d, p))[i])
    decreases |d| - p
  {
    if p < |d| && IsDigit(d[p]) {
      DigitsCut(d, p + 1);
      CutJoin(d, p, p + 1, SkipDigits(d, p));
    }
  }

  lemma DigitsFrom(d: bytes, p: nat)
    requires DigitAt(d, p)
    ensures p < SkipDigits(d, p) && SkipDigits(d, p) == SkipDigits(d, p + 1)
    ensures Digits(Cut(d, p, SkipDigits(d, p)))
  {
    DigitsCut(d, p);
  }

  // ---------------------------------------------------------------- numbers

  lemma IntegerSound(d: bytes, p: nat)
    requires p <= |d| && ScanInteger(d, p).Some?
    ensures var integer := Cut(d, p, ScanInteger(d, p).value);
            Digits(integer) && (integer[0] == ZERO ==> |integer| == 1)
  {
    if !Has(d, p, ZERO) {
      DigitsFrom(d, p);
    }
  }

  lemma FractionSound(d: bytes, p: nat) returns (f: Option<bytes>)
    requires p <= |d| && ScanFraction(d, p).Some?
    ensures f.Some? ==> Digits(f.value)
    ensures Cut(d, p, ScanFraction(d, p).value) == FractionText(f)
  {
    if Has(d, p, DOT) {
      DigitsFrom(d, p + 1);
      var q := SkipDigits(d, p + 1);
      CutByte(d, p, DOT);
      CutJoin(d, p, p + 1, q);
      f := Some(Cut(d, p + 1, q));
      assert ScanFraction(d, p) == Some(q);
    } else {
      f := None;
    }
  }

  lemma SignSound(d: bytes, p: nat) returns (sign: bytes)
    requires p < |d|
    ensures sign in [[], [PLUS], [MINUS]] && p + |sign| <= |d|
    ensures p + |sign| == if Has(d, p, PLUS) || Has(d, p, MINUS) then p + 1 else p
    ensures Cut(d, p, p + |sign|) == sign
  {
    sign := if Has(d, p, PLUS) || Has(d, p, MINUS) then [d[p]] else [];
  }

  lemma ExponentSound(d: bytes, p: nat) returns (e: Option<Exponent>)
    requires p <= |d| && ScanExponent(d, p).Some?
    ensures e.Some? ==> e.value.letter in [LOWER_E, UPPER_E] && e.value.sign in [[], [PLUS], [MINUS]] && Digits(e.value.digits)
    ensures Cut(d, p, ScanExponent(d, p).value) == ExponentText(e)
  {
    if Has(d, p, LOWER_E) || Has(d, p, UPPER_E) {
      var letter := d[p];
      var sign := SignSound(d, p + 1);
      var q := p + 1 + |sign|;
      DigitsFrom(d, q);
      var r := SkipDigits(d, q);
      assert ScanExponent(d, p) == Some(r);
      e := Some(Exponent(letter, sign, Cut(d, q, r)));
      ExponentJoin(d, p, letter, sign, q, r);
    } else {
      e := None;
    }
  }

  lemma ExponentJoin(d: bytes, p: nat, letter: byte, sign: bytes, q: nat, r: nat)
    requires Has(d, p, letter) && q == p + 1 + |sign| && q <= r <= |d| && Cut(d, p + 1, q) == sign
    ensures Cut(d, p, r) == [letter] + (sign + Cut(d, q, r))
  {
    CutByte(d, p, letter);
    CutJoin(d, p, p + 1, r);
    CutJoin(d, p + 1, q, r);
  }

  lemma NumberSound(d: bytes, p: nat) returns (n: NumberSyntax)
    requires p <= |d| && ScanNumber(d, p).Some?
    ensures NumberOk(n) && Cut(d, p, ScanNumber(d, p).value) == NumberText(n)
  {
    var p1 := if Has(d, p, MINUS) then p + 1 else p;
    var p2 := ScanInteger(d, p1).value;
    var p3 := ScanFraction(d, p2).value;
    var q := ScanExponent(d, p3).value;
    IntegerSound(d, p1);
    var f := FractionSound(d, p2);
    var e := ExponentSound(d, p3);
    n := NumberSyntax(Has(d, p, MINUS), Cut(d, p1, p2), f, e);
    assert ScanNumber(d, p) == Some(q);
    hide *;
    CutJoin(d, p, p1, q);
    CutJoin(d, p1, p2, q);
    CutJoin(d, p2, p3, q);
    MinusCut(d, p, p1);
    NumberBuilt(n);
  }

  lemma MinusCut(d: bytes, p: nat, p1: nat)
    requires p <= |d| && p1 == if Has(d, p, MINUS) then p + 1 else p
    ensures p1 <= |d| && Cut(d, p, p1) == SignText(Has(d, p, MINUS))
  {
  }

  lemma NumberBuilt(n: NumberSyntax)
    requires Digits(n.integer) && (n.integer[0] == ZERO ==> |n.integer| == 1)
    requires n.fraction.Some? ==> Digits(n.fraction.value)
    requires n.exponent.Some? ==>
               n.exponent.value.letter in [LOWER_E, UPPER_E] && n.exponent.value.sign in [[], [PLUS], [MINUS]]
               && Digits(n.exponent.value.digits)
    ensures NumberOk(n)
    ensures NumberText(n)
         == SignText(n.minus) + (n.integer + (FractionText(n.fraction) + ExponentText(n.exponent)))
  {
  }

  // ---------------------------------------------------------------- strings

  lemma HexSound(d: bytes, p: nat)
    requires Hex4(d, p).Some?
    ensures HexText(Cut(d, p, p + 4)) && HexValue(Cut(d, p, p + 4)) == Hex4(d, p).value
  {
    var digits := Cut(d, p, p + 4);
    forall i | 0 <= i < 4 ensures Nibble(digits[i] as char) == HexDigit(digits[i]) {
      NibbleIsDigit(digits[i]);
    }
    assert digits == [d[p], d[p + 1], d[p + 2], d[p + 3]];
    hide Nibble, HexDigit;
  }

  lemma UnicodeSound(d: bytes, p: nat) returns (item: Item)
    requires p + 1 < |d| && d[p] == BACKSLASH && d[p + 1] == LOWER_U && ScanUnicode(d, p + 2).Some?
    ensures ItemOk(item)
    ensures var (rune, q) := ScanUnicode(d, p + 2).value;
            ItemMeaning(item) == EncodeRune(rune) && Cut(d, p, q) == ItemText(item)
  {
    HexSound(d, p + 2);
    var first := Cut(d, p + 2, p + 6);
    if HighSurrogate(HexValue(first)) {
      HexSound(d, p + 8);
      var second := Cut(d, p + 8, p + 12);
      item := Pair(first, second);
      CombineExactly(HexValue(first), HexValue(second), Combine(HexValue(first), HexValue(second)));
      PairMeaning(first, second);
      hide Hex4, HexDigit, HexValue, HexText;
      CutTwo(d, p, BACKSLASH, LOWER_U);
      CutTwo(d, p + 6, BACKSLASH, LOWER_U);
      CutFour(d, p, p + 2, p + 6, p + 8, p + 12);
    } else {
      item := Hex(first);
      hide Hex4, HexDigit, HexValue, HexText;
      CutTwo(d, p, BACKSLASH, LOWER_U);
      CutJoin(d, p, p + 2, p + 6);
    }
  }

  lemma CutTwo(d: bytes, p: nat, a: byte, b: byte)
    requires Has(d, p, a) && Has(d, p + 1, b)
    ensures p + 2 <= |d| && Cut(d, p, p + 2) == [a, b]
  {
  }

  lemma ItemSound(d: bytes, p: nat) returns (item: Item)
    requires p < |d| && ScanItem(d, p).Some?
    ensures ItemOk(item)
    ensures var (meaning, q) := ScanItem(d, p).value;
            ItemMeaning(item) == meaning && Cut(d, p, q) == ItemText(item)
  {
    if d[p] == BACKSLASH {
      if d[p + 1] == LOWER_U {
        item := UnicodeSound(d, p);
      } else {
        item := Short(d[p + 1]);
        ShortMeaningIsEscape(d[p + 1]);
      }
    } else {
      RuneSizeSlice(d, p);
      item := Raw(Cut(d, p, p + RuneSize(d, p)));
    }
  }

  lemma {:induction false} StringSound(d: bytes, p: nat, out: bytes, max: int) returns (items: seq<Item>)
    requires p <= |d| && ScanString(d, p, out, max).Some?
    ensures ItemsOk(items)
    ensures var (text, q) := ScanString(d, p, out, max).value;
            text == out + Meaning(items) && |text| <= max && Cut(d, p, q) == ItemsText(items)
    decreases |d| - p
  {
    hide *;
    StringUnfold(d, p, out, max);
    if d[p] == QUOTE {
      items := [];
      QuoteHas(d, p);
      CutByte(d, p, QUOTE);
      NoItems();
      assert out + [] == out;
    } else {
      var item := ItemSound(d, p);
      var (meaning, q) := ScanItem(d, p).value;
      var rest := StringSound(d, q, out + meaning, max);
      items := [item] + rest;
      CutJoin(d, p, q, ScanString(d, q, out + meaning, max).value.1);
      ItemsPrepend(item, rest);
      assert out + meaning + Meaning(rest) == out + (meaning + Meaning(rest));
    }
  }

  lemma NoItems()
    ensures ItemsOk([]) && ItemsText([]) == [QUOTE] && Meaning([]) == []
  {
  }

  /** The two ways a string scan goes on. */
  lemma StringUnfold(d: bytes, p: nat, out: bytes, max: int)
    requires p <= |d| && ScanString(d, p, out, max).Some?
    ensures p < |d|
    ensures d[p] == QUOTE ==> |out| <= max && ScanString(d, p, out, max) == Some((out, p + 1))
    ensures d[p] != QUOTE ==>
              && ScanItem(d, p).Some?
              && var (meaning, q) := ScanItem(d, p).value;
              && p < q <= |d| && ScanString(d, p, out, max) == ScanString(d, q, out + meaning, max)
  {
    hide ScanItem;
  }

  lemma ItemsPrepend(item: Item, rest: seq<Item>)
    requires ItemOk(item) && ItemsOk(rest)
    ensures ItemsOk([item] + rest)
    ensures ItemsText([item] + rest) == ItemText(item) + ItemsText(rest)
    ensures Meaning([item] + rest) == ItemMeaning(item) + Meaning(rest)
  {
    var items := [item] + rest;
    assert items[0] == item && items[1..] == rest;
  }

  lemma QuotedSound(d: bytes, p: nat, max: int) returns (items: seq<Item>)
    requires Has(d, p, QUOTE) && ScanString(d, p + 1, [], max).Some?
    ensures ItemsOk(items)
    ensures var (text, q) := ScanString(d, p + 1, [], max).value;
            text == Meaning(items) && |text| <= max && Cut(d, p, q) == StringText(items)
  {
    items := StringSound(d, p + 1, [], max);
    var (text, q) := ScanString(d, p + 1, [], max).value;
    CutByte(d, p, QUOTE);
    CutJoin(d, p, p + 1, q);
    hide ScanString, ItemsText, Meaning;
    assert [] + Meaning(items) == Meaning(items);
  }

  // ----------------------------------------------------------------- values

  /** `s` is what stands between `p` and `r.pos`, denotes `r.value`, and fits what was left of the limits. */
  ghost predicate Explains(d: bytes, p: nat, depth: nat, nodes: nat, l: Limits, r: Parse, s: Syntax)
  {
    && r.Done? && p <= r.pos <= |d|
    && SyntaxOk(s) && Tree(s) == r.value && Cut(d, p, r.pos) == Text(s)
    && r.nodes == nodes + Nodes(r.value) && Affordable(r.value, depth, nodes, l)
  }

  lemma {:induction false} ValueSound(d: bytes, p: nat, depth: nat, nodes: nat, l: Limits) returns (s: Syntax)
    requires p <= |d| && depth <= l.maxDepth && ParseValue(d, p, depth, nodes, l).Done?
    ensures Explains(d, p, depth, nodes, l, ParseValue(d, p, depth, nodes, l), s)
    decreases |d| - p, 1
  {
    if d[p] == LBRACKET {
      s := ArraySound(d, p, depth, nodes, l);
    } else if d[p] == LBRACE {
      s := ObjectSound(d, p, depth, nodes, l);
    } else {
      s := ScalarSound(d, p, depth, nodes, l);
    }
  }

  lemma WordSound(d: bytes, p: nat, word: bytes)
    requires At(d, p, word)
    ensures p + |word| <= |d| && Cut(d, p, p + |word|) == word
  {
  }

  lemma ScalarSound(d: bytes, p: nat, depth: nat, nodes: nat, l: Limits) returns (s: Syntax)
    requires p < |d| && depth <= l.maxDepth && ParseValue(d, p, depth, nodes, l).Done?
    requires d[p] != LBRACKET && d[p] != LBRACE
    ensures Explains(d, p, depth, nodes, l, ParseValue(d, p, depth, nodes, l), s)
  {
    if d[p] == 0x6E {
      WordSound(d, p, NULL_TEXT);
      s := SNull;
    } else if d[p] == 0x74 {
      WordSound(d, p, TRUE_TEXT);
      s := SBool(true);
    } else if d[p] == 0x66 {
      WordSound(d, p, FALSE_TEXT);
      s := SBool(false);
    } else if d[p] == QUOTE {
      var items := QuotedSound(d, p, l.maxStringBytes);
      hide ScanString, Meaning, StringText;
      s := SString(items);
    } else {
      var number := NumberSound(d, p);
      hide ScanNumber, NumberText, NumberOk;
      s := SNumber(number);
    }
  }

  /** Elements, from white space before the first up to the closing bracket. */
  ghost predicate ExplainsElements(d: bytes, p: nat, depth: nat, nodes: nat, l: Limits, done: seq<Value>, r: Parse, es: seq<Element>)
  {
    && r.Done? && p <= r.pos <= |d|
    && es != [] && ElementsOk(es) && Cut(d, p, r.pos) == ElementsText(es)
    && r.value == ArrayValue(done + ElementTrees(es))
    && r.nodes == nodes + ElementNodes(ElementTrees(es)) <= l.maxNodes
    && depth + ElementDepth(ElementTrees(es)) <= l.maxDepth
    && ElementStringsFit(ElementTrees(es), l.maxStringBytes)
  }

  lemma {:induction false} ArraySound(d: bytes, p: nat, depth: nat, nodes: nat, l: Limits) returns (s: Syntax)
    requires p < |d| && depth <= l.maxDepth && d[p] == LBRACKET && ParseValue(d, p, depth, nodes, l).Done?
    ensures Explains(d, p, depth, nodes, l, ParseValue(d, p, depth, nodes, l), s)
    decreases |d| - p, 0
  {
    var q := SkipSpace(d, p + 1);
    var r := ParseValue(d, p, depth, nodes, l);
    if Has(d, q, RBRACKET) {
      s := SArray(Cut(d, p + 1, q), []);
      EmptyArraySound(d, p, depth, nodes, l);
    } else {
      var es := ElementsSound(d, p + 1, depth + 1, nodes + 1, l, []);
      s := SArray([], es);
      assert r == ParseElements(d, q, depth + 1, nodes + 1, l, []);
      hide ParseValue, ParseElements, ParseArray;
      ArrayBuilt(d, p, depth, nodes, l, r, es);
    }
  }

  lemma EmptyArraySound(d: bytes, p: nat, depth: nat, nodes: nat, l: Limits)
    requires p < |d| && d[p] == LBRACKET && ParseValue(d, p, depth, nodes, l).Done?
    requires Has(d, SkipSpace(d, p + 1), RBRACKET)
    ensures Explains(d, p, depth, nodes, l, ParseValue(d, p, depth, nodes, l), SArray(Cut(d, p + 1, SkipSpace(d, p + 1)), []))
  {
    var q := SkipSpace(d, p + 1);
    assert ParseValue(d, p, depth, nodes, l) == Done(ArrayValue([]), q + 1, nodes + 1);
    assert nodes < l.maxNodes && depth + 1 <= l.maxDepth;
    SpacesCut(d, p + 1);
    EmptyArrayExplained(d, p, q, depth, nodes, l);
  }

  lemma EmptyArrayExplained(d: bytes, p: nat, q: nat, depth: nat, nodes: nat, l: Limits)
    requires Has(d, p, LBRACKET) && p < q && Has(d, q, RBRACKET) && Spaces(Cut(d, p + 1, q))
    requires nodes < l.maxNodes && depth + 1 <= l.maxDepth
    ensures Explains(d, p, depth, nodes, l, Done(ArrayValue([]), q + 1, nodes + 1), SArray(Cut(d, p + 1, q), []))
  {
    var s := SArray(Cut(d, p + 1, q), []);
    CutByte(d, p, LBRACKET);
    CutByte(d, q, RBRACKET);
    CutJoin(d, p, p + 1, q + 1);
    CutJoin(d, p + 1, q, q + 1);
    assert SyntaxOk(s);
    assert ElementTrees(s.elements) == [];
    assert Tree(s) == ArrayValue(ElementTrees(s.elements));
    assert Nodes(ArrayValue([])) == 1 && Depth(ArrayValue([])) == 1;
  }

  lemma ArrayBuilt(d: bytes, p: nat, depth: nat, nodes: nat, l: Limits, r: Parse, es: seq<Element>)
    requires Has(d, p, LBRACKET) && ExplainsElements(d, p + 1, depth + 1, nodes + 1, l, [], r, es)
    ensures Explains(d, p, depth, nodes, l, r, SArray([], es))
  {
    CutByte(d, p, LBRACKET);
    CutJoin(d, p, p + 1, r.pos);
    ArrayMade(es);
    hide Cut, Text, Tree, SyntaxOk, ElementsText, ElementTrees, ElementsOk, ElementNodes, ElementDepth, ElementStringsFit;
  }

  lemma ArrayMade(es: seq<Element>)
    requires ElementsOk(es)
    ensures SyntaxOk(SArray([], es)) && Text(SArray([], es)) == [LBRACKET] + ElementsText(es)
    ensures Tree(SArray([], es)) == ArrayValue([] + ElementTrees(es))
  {
    assert [] + ElementTrees(es) == ElementTrees(es);
    assert [] + ElementsText(es) == ElementsText(es);
  }

  lemma {:induction false} ElementsSound(d: bytes, p0: nat, depth: nat, nodes: nat, l: Limits, done: seq<Value>) returns (es: seq<Element>)
    requires p0 <= |d| && depth <= l.maxDepth && ParseElements(d, SkipSpace(d, p0), depth, nodes, l, done).Done?
    ensures ExplainsElements(d, p0, depth, nodes, l, done, ParseElements(d, SkipSpace(d, p0), depth, nodes, l, done), es)
    decreases |d| - p0, 2
  {
    var p := SkipSpace(d, p0);
    var r := ParseElements(d, p, depth, nodes, l, done);
    var t := ParseValue(d, p, depth, nodes, l);
    SpacesCut(d, p0);
    var s := ValueSound(d, p, depth, nodes, l);
    var q := SkipSpace(d, t.pos);
    SpacesCut(d, t.pos);
    var e := Element(Cut(d, p0, p), s, Cut(d, t.pos, q));
    if Has(d, q, RBRACKET) {
      LastElement(d, p, depth, nodes, l, done, t.value, t.pos, t.nodes);
      es := [e];
      hide *;
      LastElementBuilt(d, p0, p, q, depth, nodes, l, done, t, s, r);
    } else {
      NextElement(d, p, depth, nodes, l, done, t.value, t.pos, t.nodes);
      var more := ElementsSound(d, q + 1, depth, t.nodes, l, done + [t.value]);
      es := [e] + more;
      hide *;
      NextElementBuilt(d, p0, p, q, depth, nodes, l, done, t, s, r, more);
    }
  }

  lemma ElementPrepend(e: Element, more: seq<Element>)
    requires Spaces(e.before) && SyntaxOk(e.syntax) && Spaces(e.after) && ElementsOk(more)
    ensures ElementsOk([e] + more)
    ensures ElementsText([e] + more) == e.before + (Text(e.syntax) + (e.after + MoreElements(more)))
    ensures ElementTrees([e] + more) == [Tree(e.syntax)] + ElementTrees(more)
  {
    var es := [e] + more;
    assert es[0] == e && es[1..] == more;
    assert ElementOk(e);
    ElementsUnfold(es);
  }

  lemma CutFour(d: bytes, a: nat, b: nat, c: nat, e: nat, f: nat)
    requires a <= b <= c <= e <= f <= |d|
    ensures Cut(d, a, f) == Cut(d, a, b) + (Cut(d, b, c) + (Cut(d, c, e) + Cut(d, e, f)))
  {
    CutJoin(d, a, b, f);
    CutJoin(d, b, c, f);
    CutJoin(d, c, e, f);
  }

  lemma LastElementBuilt(d: bytes, p0: nat, p: nat, q: nat, depth: nat, nodes: nat, l: Limits, done: seq<Value>, t: Parse, s: Syntax, r: Parse)
    requires p0 <= p && t.Done? && t.pos <= q && Has(d, q, RBRACKET) && depth <= l.maxDepth
    requires Explains(d, p, depth, nodes, l, t, s) && p <= t.pos <= |d|
    requires Spaces(Cut(d, p0, p)) && Spaces(Cut(d, t.pos, q))
    requires r == Done(ArrayValue(done + [t.value]), q + 1, t.nodes)
    ensures ExplainsElements(d, p0, depth, nodes, l, done, r, [Element(Cut(d, p0, p), s, Cut(d, t.pos, q))])
  {
    var e := Element(Cut(d, p0, p), s, Cut(d, t.pos, q));
    CutByte(d, q, RBRACKET);
    CutFour(d, p0, p, t.pos, q, q + 1);
    ElementPrepend(e, []);
    assert [e] + [] == [e];
    ElementCosts(t.value, [], l.maxStringBytes);
    assert [t.value] + [] == [t.value];
    hide Cut, Text, Tree, SyntaxOk, Nodes, Depth, StringsFit;
  }

  lemma NextElementBuilt(d: bytes, p0: nat, p: nat, q: nat, depth: nat, nodes: nat, l: Limits, done: seq<Value>, t: Parse, s: Syntax, r: Parse, more: seq<Element>)
    requires p0 <= p && t.Done? && t.pos <= q && Has(d, q, COMMA)
    requires Explains(d, p, depth, nodes, l, t, s) && p <= t.pos <= |d|
    requires Spaces(Cut(d, p0, p)) && Spaces(Cut(d, t.pos, q))
    requires ExplainsElements(d, q + 1, depth, t.nodes, l, done + [t.value], r, more)
    ensures ExplainsElements(d, p0, depth, nodes, l, done, r, [Element(Cut(d, p0, p), s, Cut(d, t.pos, q))] + more)
  {
    var e := Element(Cut(d, p0, p), s, Cut(d, t.pos, q));
    CutByte(d, q, COMMA);
    CutJoin(d, q, q + 1, r.pos);
    CutFour(d, p0, p, t.pos, q, r.pos);
    ElementPrepend(e, more);
    MoreElementsStart(more);
    ElementCosts(t.value, ElementTrees(more), l.maxStringBytes);
    assert done + [t.value] + ElementTrees(more) == done + ([t.value] + ElementTrees(more));
    hide Cut, Text, Tree, SyntaxOk, Nodes, Depth, StringsFit, ElementsText, MoreElements, ElementTrees, ElementNodes,
         ElementDepth, ElementStringsFit, ElementsOk;
  }

  // ---------------------------------------------------------------- objects

  ghost predicate ExplainsFields(d: bytes, p: nat, depth: nat, nodes: nat, l: Limits, done: seq<Member>, r: Parse, fs: seq<Field>)
  {
    && r.Done? && p <= r.pos <= |d|
    && fs != [] && FieldsOk(fs) && Cut(d, p, r.pos) == FieldsText(fs)
    && r.value == ObjectValue(done + FieldTrees(fs))
    && r.nodes == nodes + MemberNodes(FieldTrees(fs)) <= l.maxNodes
    && depth + MemberDepth(FieldTrees(fs)) <= l.maxDepth
    && MemberStringsFit(FieldTrees(fs), l.maxStringBytes)
  }

  lemma {:induction false} ObjectSound(d: bytes, p: nat, depth: nat, nodes: nat, l: Limits) returns (s: Syntax)
    requires p < |d| && depth <= l.maxDepth && d[p] == LBRACE && ParseValue(d, p, depth, nodes, l).Done?
    ensures Explains(d, p, depth, nodes, l, ParseValue(d, p, depth, nodes, l), s)
    decreases |d| - p, 0
  {
    var q := SkipSpace(d, p + 1);
    var r := ParseValue(d, p, depth, nodes, l);
    if Has(d, q, RBRACE) {
      s := SObject(Cut(d, p + 1, q), []);
      EmptyObjectSound(d, p, depth, nodes, l);
    } else {
      var fs := FieldsSound(d, p + 1, depth + 1, nodes + 1, l, []);
      s := SObject([], fs);
      assert r == ParseMembers(d, q, depth + 1, nodes + 1, l, []);
      hide ParseValue, ParseMembers, ParseObject;
      ObjectBuilt(d, p, depth, nodes, l, r, fs);
    }
  }

  lemma EmptyObjectSound(d: bytes, p: nat, depth: nat, nodes: nat, l: Limits)
    requires p < |d| && d[p] == LBRACE && ParseValue(d, p, depth, nodes, l).Done?
    requires Has(d, SkipSpace(d, p + 1), RBRACE)
    ensures Explains(d, p, depth, nodes, l, ParseValue(d, p, depth, nodes, l), SObject(Cut(d, p + 1, SkipSpace(d, p + 1)), []))
  {
    var q := SkipSpace(d, p + 1);
    assert ParseValue(d, p, depth, nodes, l) == Done(ObjectValue([]), q + 1, nodes + 1);
    assert nodes < l.maxNodes && depth + 1 <= l.maxDepth;
    SpacesCut(d, p + 1);
    EmptyObjectExplained(d, p, q, depth, nodes, l);
  }

  lemma EmptyObjectExplained(d: bytes, p: nat, q: nat, depth: nat, nodes: nat, l: Limits)
    requires Has(d, p, LBRACE) && p < q && Has(d, q, RBRACE) && Spaces(Cut(d, p + 1, q))
    requires nodes < l.maxNodes && depth + 1 <= l.maxDepth
    ensures Explains(d, p, depth, nodes, l, Done(ObjectValue([]), q + 1, nodes + 1), SObject(Cut(d, p + 1, q), []))
  {
    var s := SObject(Cut(d, p + 1, q), []);
    CutByte(d, p, LBRACE);
    CutByte(d, q, RBRACE);
    CutJoin(d, p, p + 1, q + 1);
    CutJoin(d, p + 1, q, q + 1);
    assert SyntaxOk(s);
    assert FieldTrees(s.fields) == [];
    assert Tree(s) == ObjectValue(FieldTrees(s.fields));
    assert Nodes(ObjectValue([])) == 1 && Depth(ObjectValue([])) == 1;
  }

  lemma ObjectBuilt(d: bytes, p: nat, depth: nat, nodes: nat, l: Limits, r: Parse, fs: seq<Field>)
    requires Has(d, p, LBRACE) && ExplainsFields(d, p + 1, depth + 1, nodes + 1, l, [], r, fs)
    ensures Explains(d, p, depth, nodes, l, r, SObject([], fs))
  {
    CutByte(d, p, LBRACE);
    CutJoin(d, p, p + 1, r.pos);
    ObjectMade(fs);
    hide Cut, Text, Tree, SyntaxOk, FieldsText, FieldTrees, FieldsOk, MemberNodes, MemberDepth, MemberStringsFit;
  }

  lemma ObjectMade(fs: seq<Field>)
    requires FieldsOk(fs)
    ensures SyntaxOk(SObject([], fs)) && Text(SObject([], fs)) == [LBRACE] + FieldsText(fs)
    ensures Tree(SObject([], fs)) == ObjectValue([] + FieldTrees(fs))
  {
    assert [] + FieldTrees(fs) == FieldTrees(fs);
    assert [] + FieldsText(fs) == FieldsText(fs);
  }

  /** A name with the colon and the white space around it. */
  ghost predicate ExplainsName(d: bytes, p: nat, l: Limits, name: bytes, q: nat, items: seq<Item>, gap: bytes, before: bytes)
  {
    && p <= q <= |d| && ItemsOk(items) && Meaning(items) == name && |name| <= l.maxStringBytes
    && Spaces(gap) && Spaces(before)
    && Cut(d, p, q) == StringText(items) + (gap + ([COLON] + before))
  }

  lemma NameSound(d: bytes, p: nat, l: Limits) returns (items: seq<Item>, gap: bytes, before: bytes)
    requires ScanName(d, p, l).Some?
    ensures var (name, q) := ScanName(d, p, l).value; ExplainsName(d, p, l, name, q, items, gap, before)
  {
    hide *;
    var name, a, b, q := NameUnfold(d, p, l);
    items := QuotedSound(d, p, l.maxStringBytes);
    SpacesCut(d, a);
    SpacesCut(d, b + 1);
    gap, before := Cut(d, a, b), Cut(d, b + 1, q);
    CutByte(d, b, COLON);
    CutFour(d, p, a, b, b + 1, q);
    NameExplained(d, p, l, name, q, items, gap, before);
  }

  lemma NameUnfold(d: bytes, p: nat, l: Limits) returns (name: bytes, a: nat, b: nat, q: nat)
    requires ScanName(d, p, l).Some?
    ensures ScanName(d, p, l) == Some((name, q)) && Has(d, p, QUOTE)
    ensures ScanString(d, p + 1, [], l.maxStringBytes) == Some((name, a))
    ensures p < a <= b < q <= |d| && b == SkipSpace(d, a) && Has(d, b, COLON) && q == SkipSpace(d, b + 1)
  {
    var (text, end) := ScanString(d, p + 1, [], l.maxStringBytes).value;
    name, a := text, end;
    b := SkipSpace(d, a);
    q := SkipSpace(d, b + 1);
  }

  lemma NameExplained(d: bytes, p: nat, l: Limits, name: bytes, q: nat, items: seq<Item>, gap: bytes, before: bytes)
    requires p <= q <= |d| && ItemsOk(items) && Meaning(items) == name && |name| <= l.maxStringBytes
    requires Spaces(gap) && Spaces(before) && Cut(d, p, q) == StringText(items) + (gap + ([COLON] + before))
    ensures ExplainsName(d, p, l, name, q, items, gap, before)
  {
  }

  lemma {:induction false} FieldsSound(d: bytes, p0: nat, depth: nat, nodes: nat, l: Limits, done: seq<Member>) returns (fs: seq<Field>)
    requires p0 <= |d| && depth <= l.maxDepth && ParseMembers(d, SkipSpace(d, p0), depth, nodes, l, done).Done?
    ensures ExplainsFields(d, p0, depth, nodes, l, done, ParseMembers(d, SkipSpace(d, p0), depth, nodes, l, done), fs)
    decreases |d| - p0, 2
  {
    hide *;
    var p := SkipSpace(d, p0);
    var r := ParseMembers(d, p, depth, nodes, l, done);
    SpacesCut(d, p0);
    MembersUnfold(d, p, depth, nodes, l, done);
    var items, gap, before := NameSound(d, p, l);
    var (name, p1) := ScanName(d, p, l).value;
    var t := ParseValue(d, p1, depth, nodes, l);
    var s := ValueSound(d, p1, depth, nodes, l);
    var q := SkipSpace(d, t.pos);
    SpacesCut(d, t.pos);
    var m := Member(name, t.value);
    var f := Field(Cut(d, p0, p), items, gap, Element(before, s, Cut(d, t.pos, q)));
    FieldCutBuilt(d, p0, p, p1, q, depth, nodes, l, m, t, f);
    if Has(d, q, RBRACE) {
      LastMember(d, p, depth, nodes, l, done, m, p1, t.pos, t.nodes);
      fs := [f];
      LastFieldBuilt(d, p0, p, p1, q, depth, nodes, l, done, m, t, f, r);
    } else {
      NextMember(d, p, depth, nodes, l, done, m, p1, t.pos, t.nodes);
      var more := FieldsSound(d, q + 1, depth, t.nodes, l, done + [m]);
      fs := [f] + more;
      NextFieldBuilt(d, p0, p, p1, q, depth, nodes, l, done, m, t, f, r, more);
    }
  }

  /** What a successful member loop has read first. */
  lemma MembersUnfold(d: bytes, p: nat, depth: nat, nodes: nat, l: Limits, done: seq<Member>)
    requires p <= |d| && ParseMembers(d, p, depth, nodes, l, done).Done?
    ensures ScanName(d, p, l).Some?
    ensures var (name, p1) := ScanName(d, p, l).value;
            && p < p1 <= |d| && ParseValue(d, p1, depth, nodes, l).Done?
            && var t := ParseValue(d, p1, depth, nodes, l);
            && p1 < t.pos <= |d|
            && var q := SkipSpace(d, t.pos);
            && q < |d| && (Has(d, q, RBRACE) || Has(d, q, COMMA))
  {
    hide ScanName;
  }

  lemma FieldCutBuilt(d: bytes, p0: nat, p: nat, p1: nat, q: nat, depth: nat, nodes: nat, l: Limits, m: Member, t: Parse, f: Field)
    requires t.Done? && p0 <= p <= p1 <= t.pos <= q < |d|
    requires f.before == Cut(d, p0, p) && Spaces(f.before)
    requires ExplainsName(d, p, l, m.name, p1, f.name, f.gap, f.element.before)
    requires Explains(d, p1, depth, nodes, l, t, f.element.syntax) && t.value == m.value
    requires f.element.after == Cut(d, t.pos, q) && Spaces(f.element.after)
    ensures FieldCut(d, p0, p, p1, q, depth, nodes, l, m, t, f)
  {
  }

  lemma FieldPrepend(f: Field, more: seq<Field>)
    requires FieldOk(f) && FieldsOk(more)
    ensures FieldsOk([f] + more) && ItemsOk(f.name) && SyntaxOk(f.element.syntax)
    ensures FieldsText([f] + more)
         == f.before + (StringText(f.name) + (f.gap + ([COLON] + (f.element.before
            + (Text(f.element.syntax) + (f.element.after + MoreFields(more)))))))
    ensures FieldTrees([f] + more) == [Member(Meaning(f.name), Tree(f.element.syntax))] + FieldTrees(more)
  {
    var fs := [f] + more;
    assert fs[0] == f && fs[1..] == more;
    assert ElementOk(f.element);
    FieldsUnfold(fs);
  }

  /** One field of the document, from the white space before its name to the delimiter at `q`. */
  ghost predicate FieldCut(d: bytes, p0: nat, p: nat, p1: nat, q: nat, depth: nat, nodes: nat, l: Limits, m: Member, t: Parse, f: Field)
  {
    && t.Done? && p0 <= p <= p1 <= t.pos <= q < |d|
    && f.before == Cut(d, p0, p) && Spaces(f.before)
    && ExplainsName(d, p, l, m.name, p1, f.name, f.gap, f.element.before)
    && Explains(d, p1, depth, nodes, l, t, f.element.syntax) && t.value == m.value
    && f.element.after == Cut(d, t.pos, q) && Spaces(f.element.after)
  }

  lemma FieldCutText(d: bytes, p0: nat, p: nat, p1: nat, q: nat, depth: nat, nodes: nat, l: Limits, m: Member, t: Parse, f: Field, end: nat)
    requires FieldCut(d, p0, p, p1, q, depth, nodes, l, m, t, f) && q <= end <= |d|
    ensures FieldOk(f) && ItemsOk(f.name) && SyntaxOk(f.element.syntax)
    ensures m == Member(Meaning(f.name), Tree(f.element.syntax))
    ensures Cut(d, p0, end)
         == f.before + (StringText(f.name) + (f.gap + ([COLON] + (f.element.before
            + (Text(f.element.syntax) + (f.element.after + Cut(d, q, end)))))))
  {
    hide Cut, Text, Tree, SyntaxOk, Nodes, Affordable, Meaning, StringText, ItemsOk, Spaces;
    CutJoin(d, p0, p, end);
    CutFour(d, p, p1, t.pos, q, end);
    var value := Text(f.element.syntax) + (f.element.after + Cut(d, q, end));
    Regroup(StringText(f.name), f.gap, f.element.before, value);
  }

  lemma Regroup(a: bytes, b: bytes, c: bytes, e: bytes)
    ensures (a + (b + ([COLON] + c))) + e == a + (b + ([COLON] + (c + e)))
  {
  }

  lemma LastFieldBuilt(d: bytes, p0: nat, p: nat, p1: nat, q: nat, depth: nat, nodes: nat, l: Limits, done: seq<Member>, m: Member, t: Parse, f: Field, r: Parse)
    requires FieldCut(d, p0, p, p1, q, depth, nodes, l, m, t, f) && Has(d, q, RBRACE) && depth <= l.maxDepth
    requires r == Done(ObjectValue(done + [m]), q + 1, t.nodes)
    ensures ExplainsFields(d, p0, depth, nodes, l, done, r, [f])
  {
    CutByte(d, q, RBRACE);
    FieldCutText(d, p0, p, p1, q, depth, nodes, l, m, t, f, q + 1);
    FieldPrepend(f, []);
    assert [f] + [] == [f];
    MemberCosts(m, [], l.maxStringBytes);
    assert [m] + [] == [m];
    hide Cut, Text, Tree, SyntaxOk, Nodes, Depth, StringsFit, FieldOk, Meaning, StringText;
  }

  lemma NextFieldText(d: bytes, p0: nat, p: nat, p1: nat, q: nat, depth: nat, nodes: nat, l: Limits, m: Member, t: Parse, f: Field, more: seq<Field>, end: nat)
    requires FieldCut(d, p0, p, p1, q, depth, nodes, l, m, t, f) && Has(d, q, COMMA) && q + 1 <= end <= |d|
    requires more != [] && FieldsOk(more) && Cut(d, q + 1, end) == FieldsText(more)
    ensures FieldsOk([f] + more) && Cut(d, p0, end) == FieldsText([f] + more)
    ensures FieldTrees([f] + more) == [m] + FieldTrees(more)
  {
    CutByte(d, q, COMMA);
    FieldCutText(d, p0, p, p1, q, depth, nodes, l, m, t, f, end);
    hide *;
    CutJoin(d, q, q + 1, end);
    FieldPrepend(f, more);
    MoreFieldsStart(more);
  }

  lemma NextFieldBuilt(d: bytes, p0: nat, p: nat, p1: nat, q: nat, depth: nat, nodes: nat, l: Limits, done: seq<Member>, m: Member, t: Parse, f: Field, r: Parse, more: seq<Field>)
    requires FieldCut(d, p0, p, p1, q, depth, nodes, l, m, t, f) && Has(d, q, COMMA)
    requires ExplainsFields(d, q + 1, depth, t.nodes, l, done + [m], r, more)
    ensures ExplainsFields(d, p0, depth, nodes, l, done, r, [f] + more)
  {
    NextFieldText(d, p0, p, p1, q, depth, nodes, l, m, t, f, more, r.pos);
    hide Cut, Text, Tree, SyntaxOk, Nodes, Depth, StringsFit, FieldOk, Meaning, StringText, FieldsText, MoreFields, FieldTrees,
         MemberNodes, MemberDepth, MemberStringsFit, FieldsOk, ItemsOk, Spaces, ExplainsName, Affordable;
    MemberCosts(m, FieldTrees(more), l.maxStringBytes);
    assert done + [m] + FieldTrees(more) == done + ([m] + FieldTrees(more));
  }

  // --------------------------------------------------------------- documents

  /** Whatever is accepted is a document of the language, denotes the result, and fits. */
  lemma DecodeSound(d: bytes, limits: Limits) returns (s: Syntax)
    requires Decode(d, limits).Ok?
    ensures SyntaxOk(s) && IsDocument(d, s) && Tree(s) == Decode(d, limits).value
    ensures NoNegative(limits) && Fits(d, Tree(s), limits)
  {
    var l := Normalized(limits).value;
    var p := SkipSpace(d, 0);
    var t := ParseValue(d, p, 0, 0, l);
    s := ValueSound(d, p, 0, 0, l);
    SpacesCut(d, 0);
    SpacesCut(d, t.pos);
    assert SkipSpace(d, t.pos) == |d|;
    hide ParseValue, SkipSpace, Text, Tree, SyntaxOk, Nodes, Depth, StringsFit;
    CutJoin(d, 0, p, |d|);
    CutJoin(d, p, t.pos, |d|);
    assert Cut(d, 0, |d|) == d;
    assert IsFramed(d, Cut(d, 0, p), s, Cut(d, t.pos, |d|));
  }

  /**
   * The exact language: DecodeBytes returns `v` precisely when the document
   * has a syntax tree that denotes `v` and `v` fits the limits; negative
   * limits have an error of their own.
   */
  lemma DecodeExact(d: bytes, limits: Limits, v: Value)
    ensures Decode(d, limits) == Ok(v) <==>
            && NoNegative(limits) && Fits(d, v, limits)
            && exists s :: SyntaxOk(s) && Tree(s) == v && IsDocument(d, s)
    ensures Decode(d, limits) == Err(ErrLimits) <==> !NoNegative(limits)
  {
    if Decode(d, limits) == Ok(v) {
      var s := DecodeSound(d, limits);
    }
    if NoNegative(limits) && Fits(d, v, limits)
       && exists s :: SyntaxOk(s) && Tree(s) == v && IsDocument(d, s) {
      var s :| SyntaxOk(s) && Tree(s) == v && IsDocument(d, s);
      var lead: bytes, trail: bytes :| IsFramed(d, lead, s, trail);
      DecodeComplete(d, lead, s, trail, limits);
    }
  }

  /**
   * The two \u escapes of a scalar beyond the basic plane, in any letter case,
   * decode to its UTF-8 encoding.
   */
  lemma PairDecodes(r: int, high: bytes, low: bytes, limits: Limits)
    requires 0x1_0000 <= r < 0x11_0000 && HexText(high) && HexText(low)
    requires HexValue(high) == 0xD800 + (r - 0x1_0000) / 0x400 && HexValue(low) == 0xDC00 + (r - 0x1_0000) % 0x400
    requires NoNegative(limits) && Bound(limits.maxBytes, 64 * 1024) >= 14 && Bound(limits.maxStringBytes, 16 * 1024) >= 4
    ensures Decode([QUOTE, BACKSLASH, LOWER_U] + high + [BACKSLASH, LOWER_U] + low + [QUOTE], limits)
         == Ok(Value(String, false, EncodeRune(r), [], []))
  {
    var item := Pair(high, low);
    var d := [QUOTE, BACKSLASH, LOWER_U] + high + [BACKSLASH, LOWER_U] + low + [QUOTE];
    assert PairOf(r, HexValue(high), HexValue(low));
    PairMeaning(high, low);
    CombineExactly(HexValue(high), HexValue(low), r);
    OneItem(item);
    var s := SString([item]);
    assert d == Text(s);
    assert [] + (Text(s) + []) == Text(s);
    hide Decode, HexText, HexValue, Combine, ItemText, ItemMeaning, Meaning;
    assert IsFramed(d, [], s, []);
    DecodeComplete(d, [], s, [], limits);
  }

  lemma OneItem(item: Item)
    requires ItemOk(item)
    ensures ItemsOk([item]) && Meaning([item]) == ItemMeaning(item) && ItemsText([item]) == ItemText(item) + [QUOTE]
  {
    assert [item][1..] == [];
    ItemsUnfold([item]);
    ItemsUnfold([]);
    assert ItemMeaning(item) + [] == ItemMeaning(item);
  }

  /** A document denotes one value only. */
  lemma Unambiguous(d: bytes, s: Syntax, t: Syntax)
    requires SyntaxOk(s) && SyntaxOk(t) && IsDocument(d, s) && IsDocument(d, t)
    ensures Tree(s) == Tree(t)
  {
    var a: bytes, b: bytes :| IsFramed(d, a, s, b);
    var c: bytes, e: bytes :| IsFramed(d, c, t, e);
    StringsBounded(Tree(s));
    StringsBounded(Tree(t));
    var max := Longest(Tree(s)) + Longest(Tree(t)) + 1;
    StringsFitMore(Tree(s), Longest(Tree(s)), max);
    StringsFitMore(Tree(t), Longest(Tree(t)), max);
    var limits := Limits(|d| + 1, Depth(Tree(s)) + Depth(Tree(t)) + 1, Nodes(Tree(s)) + Nodes(Tree(t)), max);
    hide Tree, Text, SyntaxOk, Nodes, Depth, StringsFit, Decode;
    DecodeComplete(d, a, s, b, limits);
    DecodeComplete(d, c, t, e, limits);
  }

  /** A bound on every string and name in a tree. */
  function Longest(v: Value): nat
    decreases v, 1
  {
    if v.kind == String then |v.text|
    else if v.kind == Array then LongestElement(v.elements)
    else if v.kind == Object then LongestMember(v.members)
    else 0
  }

  function LongestElement(vs: seq<Value>): nat
    decreases vs, 0
  {
    if vs == [] then 0 else Max(Longest(vs[0]), LongestElement(vs[1..]))
  }

  function LongestMember(ms: seq<Member>): nat
    decreases ms, 0
  {
    if ms == [] then 0 else Max(|ms[0].name|, Max(Longest(ms[0].value), LongestMember(ms[1..])))
  }

  lemma {:induction false} StringsFitMore(v: Value, less: nat, more: nat)
    requires StringsFit(v, less) && less <= more
    ensures StringsFit(v, more)
    decreases v, 1
  {
    if v.kind == Array {
      ElementStringsFitMore(v.elements, less, more);
    } else if v.kind == Object {
      MemberStringsFitMore(v.members, less, more);
    }
  }

  lemma {:induction false} ElementStringsFitMore(vs: seq<Value>, less: nat, more: nat)
    requires ElementStringsFit(vs, less) && less <= more
    ensures ElementStringsFit(vs, more)
    decreases vs, 0
  {
    if vs != [] {
      StringsFitMore(vs[0], less, more);
      ElementStringsFitMore(vs[1..], less, more);
    }
  }

  lemma {:induction false} MemberStringsFitMore(ms: seq<Member>, less: nat, more: nat)
    requires MemberStringsFit(ms, less) && less <= more
    ensures MemberStringsFit(ms, more)
    decreases ms, 0
  {
    if ms != [] {
      StringsFitMore(ms[0].value, less, more);
      MemberStringsFitMore(ms[1..], less, more);
    }
  }

  lemma {:induction false} StringsBounded(v: Value)
    ensures StringsFit(v, Longest(v))
    decreases v, 1
  {
    if v.kind == Array {
      ElementStringsBounded(v.elements);
    } else if v.kind == Object {
      MemberStringsBounded(v.members);
    }
  }

  lemma {:induction false} ElementStringsBounded(vs: seq<Value>)
    ensures ElementStringsFit(vs, LongestElement(vs))
    decreases vs, 0
  {
    if vs != [] {
      StringsBounded(vs[0]);
      ElementStringsBounded(vs[1..]);
      StringsFitMore(vs[0], Longest(vs[0]), LongestElement(vs));
      ElementStringsFitMore(vs[1..], LongestElement(vs[1..]), LongestElement(vs));
    }
  }

  lemma {:induction false} MemberStringsBounded(ms: seq<Member>)
    ensures MemberStringsFit(ms, LongestMember(ms))
    decreases ms, 0
  {
    if ms != [] {
      StringsBounded(ms[0].value);
      MemberStringsBounded(ms[1..]);
      StringsFitMore(ms[0].value, Longest(ms[0].value), LongestMember(ms));
      MemberStringsFitMore(ms[1..], LongestMember(ms[1..]), LongestMember(ms));
    }
  }
}
