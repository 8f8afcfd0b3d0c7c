/** Percent-encoding on literal bytes: what is kept, what an escape is, and what each escape stands for. */
module UrlBytes {
  import opened Bytes
  import opened Chunked
  import opened ChunkSizes
  import opened UrlQuery

  /** Digits, letters, and `-_.!~*'()`. */
  predicate Safe(c: byte) {
    || c in {48, 49, 50, 51, 52, 53, 54, 55, 56, 57}
    || c in {65, 66, 67, 68, 69, 70, 71, 72, 73, 74, 75, 76, 77}
    || c in {78, 79, 80, 81, 82, 83, 84, 85, 86, 87, 88, 89, 90}
    || c in {97, 98, 99, 100, 101, 102, 103, 104, 105, 106, 107, 108, 109}
    || c in {110, 111, 112, 113, 114, 115, 116, 117, 118, 119, 120, 121, 122}
    || c in {45, 95, 46, 33, 126, 42, 39, 40, 41}
  }

  lemma KeptIsSafe(c: byte)
    ensures Kept(c) <==> Safe(c)
  {
  }

  /** A byte is kept or becomes a percent sign and two upper-case hexadecimal digits. */
  lemma EncodeMeaning(c: byte)
    ensures EncodeByte(c) == if Safe(c) then [c] else [37, UPPER[c / 16], UPPER[c % 16]]
  {
    KeptIsSafe(c);
    UpperMeaning(c / 16);
    UpperMeaning(c % 16);
  }

  lemma UpperMeaning(d: nat)
    requires d < 16
    ensures UpperDigit(d) == UPPER[d]
  {
  }

  /** A text is encoded byte by byte. */
  lemma {:induction false} EncodedBytes(s: bytes, i: nat)
    requires i <= |s|
    ensures Encoded(s) == Encoded(s[..i]) + Encoded(s[i..])
  {
    if i == 0 {
      assert s[..0] == [] && s[0..] == s && [] + Encoded(s) == Encoded(s);
    } else {
      EncodedBytes(s[1..], i - 1);
      assert s[..i][1..] == s[1..][..i - 1] && s[1..][i - 1..] == s[i..];
      Assoc(EncodeByte(s[0]), Encoded(s[1..][..i - 1]), Encoded(s[i..]));
    }
  }

  /** A plus is a blank, if that is asked for, and otherwise a plus. */
  lemma PlusMeaning(t: bytes, plus: bool)
    ensures UrlQuery.Decoded([43] + t, plus) == [if plus then 32 else 43] + UrlQuery.Decoded(t, plus)
  {
    assert ([43] + t)[1..] == t;
  }

  /** Any byte but a plus and a percent sign stands for itself. */
  lemma PlainMeaning(c: byte, t: bytes, plus: bool)
    requires c != 37 && c != 43
    ensures UrlQuery.Decoded([c] + t, plus) == [c] + UrlQuery.Decoded(t, plus)
  {
    assert ([c] + t)[1..] == t;
  }

  lemma TwoDigits(s: bytes, i: nat, d: Digit, e: Digit)
    requires d.value < 16 && e.value < 16 && i + 2 <= |s| && s[i] == Spelling(d) && s[i + 1] == Spelling(e)
    ensures HexRun(s, i, 2, 0) == Some(16 * d.value + e.value)
  {
    DigitReads(d);
    DigitReads(e);
    assert HexRun(s, i, 2, 0) == HexRun(s, i + 1, 1, d.value);
    assert HexRun(s, i + 1, 1, d.value) == HexRun(s, i + 2, 0, d.value * 16 + e.value);
  }

  /** A percent sign and two digits of either case are the byte of that value. */
  lemma EscapeMeaning(d: Digit, e: Digit, t: bytes, plus: bool)
    requires d.value < 16 && e.value < 16
    ensures UrlQuery.Decoded([37, Spelling(d), Spelling(e)] + t, plus) == [16 * d.value + e.value] + UrlQuery.Decoded(t, plus)
  {
    var s := [37, Spelling(d), Spelling(e)] + t;
    TwoDigits(s, 1, d, e);
    assert Spelling(d) != 117;
    assert s[3..] == t;
  }

  lemma FourDigits(s: bytes, i: nat, a: Digit, b: Digit, c: Digit, d: Digit)
    requires a.value < 16 && b.value < 16 && c.value < 16 && d.value < 16 && i + 4 <= |s|
    requires s[i] == Spelling(a) && s[i + 1] == Spelling(b) && s[i + 2] == Spelling(c) && s[i + 3] == Spelling(d)
    ensures HexRun(s, i, 4, 0) == Some(4096 * a.value + 256 * b.value + 16 * c.value + d.value)
  {
    DigitReads(a);
    DigitReads(b);
    DigitReads(c);
    DigitReads(d);
    var v := a.value * 16 + b.value;
    assert HexRun(s, i, 4, 0) == HexRun(s, i + 1, 3, a.value);
    assert HexRun(s, i + 1, 3, a.value) == HexRun(s, i + 2, 2, v);
    assert HexRun(s, i + 2, 2, v) == HexRun(s, i + 3, 1, v * 16 + c.value);
    assert HexRun(s, i + 3, 1, v * 16 + c.value) == HexRun(s, i + 4, 0, (v * 16 + c.value) * 16 + d.value);
  }

  /** A percent sign, a `u` and four digits are the UTF-8 bytes of the code point; a surrogate gives nothing. */
  lemma UnicodeMeaning(a: Digit, b: Digit, c: Digit, d: Digit, t: bytes, plus: bool)
    requires a.value < 16 && b.value < 16 && c.value < 16 && d.value < 16
    ensures var v := 4096 * a.value + 256 * b.value + 16 * c.value + d.value;
            var s := [37, 117, Spelling(a), Spelling(b), Spelling(c), Spelling(d)] + t;
            && UrlQuery.Decoded(s, plus) == ToUtf8(v) + UrlQuery.Decoded(t, plus)
            && (if 0xD800 <= v < 0xE000 then ToUtf8(v) == [] else Utf8Value(ToUtf8(v)) == Some(v))
  {
    var v := 4096 * a.value + 256 * b.value + 16 * c.value + d.value;
    var s := [37, 117, Spelling(a), Spelling(b), Spelling(c), Spelling(d)] + t;
    FourDigits(s, 2, a, b, c, d);
    Utf8OfCode(v);
    assert s[6..] == t;
  }

  predicate HexDigit(c: byte) { 48 <= c <= 57 || 65 <= c <= 70 || 97 <= c <= 102 }

  /** A percent sign that begins neither is a percent sign. */
  lemma BareMeaning(t: bytes, plus: bool)
    requires t != [] && t[0] != 117 ==> |t| < 2 || !HexDigit(t[0]) || !HexDigit(t[1])
    requires t != [] && t[0] == 117 ==>
               |t| < 5 || !HexDigit(t[1]) || !HexDigit(t[2]) || !HexDigit(t[3]) || !HexDigit(t[4])
    ensures UrlQuery.Decoded([37] + t, plus) == [37] + UrlQuery.Decoded(t, plus)
  {
    var s := [37] + t;
    assert s[1..] == t;
    if t != [] {
      if t[0] == 117 {
        BareUnicode(t);
      } else {
        BareEscape(t);
      }
    }
  }

  lemma BareEscape(t: bytes)
    requires |t| < 2 || !HexDigit(t[0]) || !HexDigit(t[1])
    ensures HexRun([37] + t, 1, 2, 0) == None
  {
    NoRun2([37] + t);
  }

  lemma BareUnicode(t: bytes)
    requires t != []
    requires |t| < 5 || !HexDigit(t[1]) || !HexDigit(t[2]) || !HexDigit(t[3]) || !HexDigit(t[4])
    ensures HexRun([37] + t, 2, 4, 0) == None
  {
    var s := [37] + t;
    assert |t| >= 5 ==> s[2] == t[1] && s[3] == t[2] && s[4] == t[3] && s[5] == t[4];
    NoRun([37] + t, 2, 4, 0);
  }

  lemma NoRun2(s: bytes)
    requires |s| < 3 || HexValue(s[1]) == None || HexValue(s[2]) == None
    ensures HexRun(s, 1, 2, 0) == None
  {
  }

  lemma {:induction false} NoRun(s: bytes, i: nat, cnt: nat, acc: nat)
    requires cnt > 0
    requires |s| < i + cnt || exists j: nat :: i <= j < i + cnt && HexValue(s[j]) == None
    ensures HexRun(s, i, cnt, acc) == None
    decreases cnt
  {
    if i < |s| && HexValue(s[i]).Some? && cnt > 1 {
      NoRun(s, i + 1, cnt - 1, acc * 16 + HexValue(s[i]).value);
    }
  }
}
