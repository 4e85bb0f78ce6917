/** UTF-8 as section 4 of RFC 3629 defines it: what Go's utf8 package accepts and writes. */
module Utf8 {
  import opened Common

  predicate IsScalar(r: int)
  {
    0 <= r < 0xD800 || 0xE000 <= r < 0x11_0000
  }

  predicate Tail(b: byte)
  {
    0x80 <= b < 0xC0
  }

  /** The length of the well-formed character at `p`, or 0 when there is none. */
  function RuneSize(s: bytes, p: nat): (n: nat)
    requires p < |s|
    ensures n <= 4 && p + n <= |s|
  {
    var b := s[p];
    if b < 0x80 then 1
    else if 0xC2 <= b <= 0xDF then
      if p + 1 < |s| && Tail(s[p + 1]) then 2 else 0
    else if 0xE0 <= b <= 0xEF then
      if p + 2 < |s| && Second3(b, s[p + 1]) && Tail(s[p + 2]) then 3 else 0
    else if 0xF0 <= b <= 0xF4 then
      if p + 3 < |s| && Second4(b, s[p + 1]) && Tail(s[p + 2]) && Tail(s[p + 3]) then 4 else 0
    else 0
  }

  predicate Second3(lead: byte, b: byte)
  {
    if lead == 0xE0 then 0xA0 <= b < 0xC0 else if lead == 0xED then 0x80 <= b < 0xA0 else Tail(b)
  }

  predicate Second4(lead: byte, b: byte)
  {
    if lead == 0xF0 then 0x90 <= b < 0xC0 else if lead == 0xF4 then 0x80 <= b < 0x90 else Tail(b)
  }

  /** utf8.AppendRune for a scalar value. */
  function EncodeRune(r: int): (s: bytes)
    requires IsScalar(r)
    ensures 1 <= |s| <= 4
  {
    if r < 0x80 then [r]
    else if r < 0x800 then [0xC0 + r / 64, 0x80 + r % 64]
    else if r < 0x1_0000 then [0xE0 + r / 64 / 64, 0x80 + r / 64 % 64, 0x80 + r % 64]
    else [0xF0 + r / 64 / 64 / 64, 0x80 + r / 64 / 64 % 64, 0x80 + r / 64 % 64, 0x80 + r % 64]
  }

  /** The scalar value of a well-formed character. */
  function RuneOf(s: bytes): int
    requires s != [] && RuneSize(s, 0) == |s|
  {
    if |s| == 1 then s[0]
    else if |s| == 2 then 64 * Bits(s[0], 0xC0) + Bits(s[1], 0x80)
    else if |s| == 3 then 64 * (64 * Bits(s[0], 0xE0) + Bits(s[1], 0x80)) + Bits(s[2], 0x80)
    else 64 * (64 * (64 * Bits(s[0], 0xF0) + Bits(s[1], 0x80)) + Bits(s[2], 0x80)) + Bits(s[3], 0x80)
  }

  /** A byte's payload below its fixed high bits. */
  function Bits(b: int, marker: int): int
  {
    b - marker
  }

  /** Every scalar value is written as one well-formed character that reads back as itself. */
  lemma EncodeThenRead(r: int)
    requires IsScalar(r)
    ensures RuneSize(EncodeRune(r), 0) == |EncodeRune(r)|
    ensures RuneOf(EncodeRune(r)) == r
  {
    var q, q', q'' := r / 64, r / 64 / 64, r / 64 / 64 / 64;
    assert r == 64 * q + r % 64 && q == 64 * q' + q % 64 && q' == 64 * q'' + q' % 64;
    if r < 0x80 {
    } else if r < 0x800 {
      assert EncodeRune(r)[0] >= 0xC2;
    } else if r < 0x1_0000 {
      EncodeThree(r);
    } else {
      EncodeFour(r);
    }
  }

  lemma EncodeThree(r: int)
    requires 0x800 <= r < 0x1_0000 && IsScalar(r)
    ensures RuneSize(EncodeRune(r), 0) == 3
  {
    var s := EncodeRune(r);
    assert 0 <= r / 64 / 64 < 16;
    assert Second3(s[0], s[1]);
  }

  lemma EncodeFour(r: int)
    requires 0x1_0000 <= r < 0x11_0000
    ensures RuneSize(EncodeRune(r), 0) == 4
  {
    var s := EncodeRune(r);
    assert 0 <= r / 64 / 64 / 64 < 5;
    assert Second4(s[0], s[1]);
  }

  /** The well-formed characters are exactly the encodings of scalar values. */
  lemma ReadThenEncode(s: bytes)
    requires s != [] && RuneSize(s, 0) == |s|
    ensures IsScalar(RuneOf(s)) && EncodeRune(RuneOf(s)) == s
  {
    if |s| == 2 {
      Digit64(Bits(s[0], 0xC0), Bits(s[1], 0x80));
    } else if |s| == 3 {
      var high := 64 * Bits(s[0], 0xE0) + Bits(s[1], 0x80);
      Digit64(Bits(s[0], 0xE0), Bits(s[1], 0x80));
      Digit64(high, Bits(s[2], 0x80));
      assert 0x800 <= RuneOf(s) < 0x1_0000;
      assert EncodeRune(RuneOf(s)) == [s[0], s[1], s[2]];
    } else if |s| == 4 {
      ReadFour(s);
    }
  }

  lemma ReadFour(s: bytes)
    requires |s| == 4 && RuneSize(s, 0) == 4
    ensures IsScalar(RuneOf(s)) && EncodeRune(RuneOf(s)) == s
  {
    var high := 64 * Bits(s[0], 0xF0) + Bits(s[1], 0x80);
    Digit64(Bits(s[0], 0xF0), Bits(s[1], 0x80));
    Digit64(high, Bits(s[2], 0x80));
    Digit64(64 * high + Bits(s[2], 0x80), Bits(s[3], 0x80));
    assert 0x1_0000 <= RuneOf(s) < 0x11_0000;
    assert EncodeRune(RuneOf(s)) == [s[0], s[1], s[2], s[3]];
  }

  lemma Digit64(high: int, low: int)
    requires 0 <= low < 64
    ensures (64 * high + low) / 64 == high && (64 * high + low) % 64 == low
  {
  }

  /** Byte strings in lexicographic order, neither a prefix of the other. */
  predicate Before(a: bytes, b: bytes)
  {
    a != [] && b != [] && (a[0] < b[0] || (a[0] == b[0] && Before(a[1..], b[1..])))
  }

  lemma {:induction false} FirstDifference(a: bytes, b: bytes, k: nat)
    requires k < |a| && k < |b| && a[..k] == b[..k] && a[k] < b[k]
    ensures Before(a, b)
    decreases k
  {
    if k > 0 {
      assert a[..k][0] == b[..k][0] && a[..k][1..] == a[1..][..k - 1] && b[..k][1..] == b[1..][..k - 1];
      FirstDifference(a[1..], b[1..], k - 1);
    }
  }

  /** Two numbers compare by their quotients, then by their last six bits. */
  lemma ByQuotient(r: int, s: int)
    requires 0 <= r < s
    ensures r / 64 < s / 64 || (r / 64 == s / 64 && r % 64 < s % 64)
  {
    assert r == r / 64 * 64 + r % 64 && s == s / 64 * 64 + s % 64;
  }

  /** Section 1 of RFC 3629: the encodings are in the order of the characters' numbers. */
  lemma EncodeOrdered(r: int, s: int)
    requires IsScalar(r) && IsScalar(s) && r < s
    ensures Before(EncodeRune(r), EncodeRune(s))
  {
    ByQuotient(r, s);
    if r < 0x800 && s < 0x800 && 0x80 <= r {
      FirstDifference(EncodeRune(r), EncodeRune(s), if r / 64 < s / 64 then 0 else 1);
    } else if 0x800 <= r && s < 0x1_0000 {
      ThreeOrdered(r, s);
    } else if 0x1_0000 <= r {
      FourOrdered(r, s);
    } else {
      hide Before;
      LeadOrdered(r, s);
      FirstDifference(EncodeRune(r), EncodeRune(s), 0);
    }
  }

  /** Longer encodings have greater lead bytes. */
  lemma LeadOrdered(r: int, s: int)
    requires IsScalar(r) && IsScalar(s) && r < s
    requires r < 0x80 || (r < 0x800 <= s) || (r < 0x1_0000 <= s)
    ensures EncodeRune(r)[0] < EncodeRune(s)[0]
  {
  }

  lemma ThreeOrdered(r: int, s: int)
    requires IsScalar(r) && IsScalar(s) && 0x800 <= r < s < 0x1_0000
    ensures Before(EncodeRune(r), EncodeRune(s))
  {
    hide Before;
    var p, q := r / 64, s / 64;
    ByQuotient(r, s);
    if p < q {
      ByQuotient(p, q);
      FirstDifference(EncodeRune(r), EncodeRune(s), if p / 64 < q / 64 then 0 else 1);
    } else {
      FirstDifference(EncodeRune(r), EncodeRune(s), 2);
    }
  }

  lemma FourOrdered(r: int, s: int)
    requires 0x1_0000 <= r < s < 0x11_0000
    ensures Before(EncodeRune(r), EncodeRune(s))
  {
    hide Before;
    var p, q := r / 64, s / 64;
    ByQuotient(r, s);
    if p < q {
      ByQuotient(p, q);
      if p / 64 < q / 64 {
        ByQuotient(p / 64, q / 64);
        FirstDifference(EncodeRune(r), EncodeRune(s), if p / 64 / 64 < q / 64 / 64 then 0 else 1);
      } else {
        FirstDifference(EncodeRune(r), EncodeRune(s), 2);
      }
    } else {
      FirstDifference(EncodeRune(r), EncodeRune(s), 3);
    }
  }

  /** A character is recognised by its own bytes, wherever it stands. */
  lemma RuneSizeLocal(s: bytes, p: nat, c: bytes)
    requires c != [] && p + |c| <= |s| && s[p..p + |c|] == c
    requires RuneSize(c, 0) == |c|
    ensures RuneSize(s, p) == |c|
  {
    assert forall i :: 0 <= i < |c| ==> s[p + i] == c[i];
  }

  lemma RuneSizeSlice(s: bytes, p: nat)
    requires p < |s| && RuneSize(s, p) > 0
    ensures var c := s[p..p + RuneSize(s, p)];
            c != [] && RuneSize(c, 0) == |c|
  {
  }

  /** utf8.ValidString, from offset `p`. */
  predicate ValidFrom(s: bytes, p: nat)
    requires p <= |s|
    decreases |s| - p
  {
    p == |s| || (RuneSize(s, p) > 0 && ValidFrom(s, p + RuneSize(s, p)))
  }

  predicate Valid(s: bytes)
  {
    ValidFrom(s, 0)
  }

  /** Valid text followed by one well-formed character is valid text. */
  lemma {:induction false} ValidAppend(s: bytes, c: bytes, p: nat)
    requires p <= |s| && ValidFrom(s, p)
    requires c != [] && RuneSize(c, 0) == |c|
    ensures ValidFrom(s + c, p)
    decreases |s| - p
  {
    var whole := s + c;
    if p == |s| {
      assert whole[p..p + |c|] == c;
      RuneSizeLocal(whole, p, c);
    } else {
      var n := RuneSize(s, p);
      RuneSizeSlice(s, p);
      assert whole[p..p + n] == s[p..p + n];
      RuneSizeLocal(whole, p, s[p..p + n]);
      ValidAppend(s, c, p + n);
    }
  }
}
