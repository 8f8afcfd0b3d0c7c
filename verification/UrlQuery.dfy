/** Percent-encoding (section 2.1 of RFC 3986), and query strings built from and parsed into an
    ordered multimap. */
module UrlQuery {
  import opened Bytes
  import opened Chunked

  const AMP: byte := 38
  const PERCENT: byte := 37
  const PLUS: byte := 43
  const SPACE: byte := 32
  const EQUALS: byte := 61
  const LOWER_U: byte := 117

  // ----- percent-encoding -----

  predicate Kept(c: byte) {
    || 48 <= c <= 57 || 65 <= c <= 90 || 97 <= c <= 122
    || c in {45, 95, 46, 33, 126, 42, 39, 40, 41}
  }

  function UpperDigit(d: nat): byte
    requires d < 16
  {
    if d < 10 then 48 + d else 55 + d
  }

  function EncodeByte(c: byte): bytes {
    if Kept(c) then [c] else [PERCENT, UpperDigit(c / 16), UpperDigit(c % 16)]
  }

  function Encoded(value: bytes): bytes {
    if value == [] then [] else EncodeByte(value[0]) + Encoded(value[1..])
  }

  lemma {:induction false} EncodedSnoc(s: bytes, c: byte)
    ensures Encoded(s + [c]) == Encoded(s) + EncodeByte(c)
  {
    if s == [] {
      assert Encoded([c]) == EncodeByte(c) + Encoded([]);
    } else {
      EncodedSnoc(s[1..], c);
      assert (s + [c])[1..] == s[1..] + [c];
      Assoc(EncodeByte(s[0]), Encoded(s[1..]), EncodeByte(c));
    }
  }

  method EncodeQueryParam(value: bytes) returns (escaped: bytes)
    ensures escaped == Encoded(value)
  {
    escaped := [];
    for i := 0 to |value|
      invariant escaped == Encoded(value[..i])
    {
      var c := value[i];
      EncodedSnoc(value[..i], c);
      assert value[..i + 1] == value[..i] + [c];
      if Kept(c) {
        escaped := escaped + [c];
      } else {
        escaped := escaped + [PERCENT, UpperDigit(c / 16), UpperDigit(c % 16)];
      }
    }
    assert value[..|value|] == value;
  }

  /** The number `cnt` hexadecimal digits at `i` continue. */
  function HexRun(s: bytes, i: nat, cnt: nat, acc: nat): (r: Option<nat>)
    ensures r.Some? ==> i + cnt <= |s| || cnt == 0
    decreases cnt
  {
    if cnt == 0 then Some(acc)
    else if i >= |s| || HexValue(s[i]).None? then None
    else HexRun(s, i + 1, cnt - 1, acc * 16 + HexValue(s[i]).value)
  }

  /** Reading past the end finds the terminating zero, which is no digit. */
  method FromHexToI(s: bytes, i: nat, cnt: nat) returns (ok: bool, val: nat)
    ensures cnt > 0 ==> ok == HexRun(s, i, cnt, 0).Some?
    ensures cnt > 0 && ok ==> val == HexRun(s, i, cnt, 0).value
  {
    if i >= |s| {
      return false, 0;
    }
    ok, val := false, 0;
    var j: nat, left: nat := i, cnt;
    while left > 0
      invariant j <= |s| && left <= cnt && HexRun(s, i, cnt, 0) == HexRun(s, j, left, val)
      decreases left
    {
      if j == |s| || s[j] == 0 || HexValue(s[j]).None? {
        return false, val;
      }
      val := val * 16 + HexValue(s[j]).value;
      j, left := j + 1, left - 1;
    }
    ok := true;
  }

  /** UTF-8 of a code point; nothing for surrogates and beyond the last plane. */
  function ToUtf8(code: nat): (r: bytes)
    ensures |r| <= 4
    ensures code < 0x10000 ==> |r| <= 3
  {
    if code < 0x80 then [code]
    else if code < 0x800 then [0xC0 + code / 64, 0x80 + code % 64]
    else if code < 0xD800 then [0xE0 + code / 4096, 0x80 + code / 64 % 64, 0x80 + code % 64]
    else if code < 0xE000 then []
    else if code < 0x10000 then [0xE0 + code / 4096, 0x80 + code / 64 % 64, 0x80 + code % 64]
    else if code < 0x110000 then
      [0xF0 + code / 262144, 0x80 + code / 4096 % 64, 0x80 + code / 64 % 64, 0x80 + code % 64]
    else []
  }

  predicate Continuation(c: byte) { 0x80 <= c < 0xC0 }

  /** The code point a byte string encodes, by the definition of UTF-8 (section 3 of RFC 3629); nothing
      for overlong forms, surrogates and malformed bytes. */
  function Utf8Value(b: bytes): Option<nat> {
    var v: nat :=
      if |b| == 1 && b[0] < 0x80 then b[0]
      else if |b| == 2 && 0xC0 <= b[0] < 0xE0 && Continuation(b[1]) then Join(b[0] - 0xC0, b[1])
      else if |b| == 3 && 0xE0 <= b[0] < 0xF0 && Continuation(b[1]) && Continuation(b[2]) then
        Join(Join(b[0] - 0xE0, b[1]), b[2])
      else if |b| == 4 && 0xF0 <= b[0] < 0xF8 && Continuation(b[1]) && Continuation(b[2]) && Continuation(b[3]) then
        Join(Join(Join(b[0] - 0xF0, b[1]), b[2]), b[3])
      else BEYOND;
    if v < BEYOND && !(0xD800 <= v < 0xE000) && |b| == Width(v) then Some(v) else None
  }

  const BEYOND: nat := 0x110000

  /** Six more bits. */
  function Join(high: nat, c: byte): nat
    requires Continuation(c)
  {
    high * 64 + (c - 0x80)
  }

  function Width(v: nat): nat { if v < 0x80 then 1 else if v < 0x800 then 2 else if v < 0x10000 then 3 else 4 }

  lemma JoinSplit(v: nat)
    ensures Continuation(0x80 + v % 64) && Join(v / 64, 0x80 + v % 64) == v
  {
  }

  lemma QuotientTwice(v: nat)
    ensures v / 64 / 64 == v / 4096 && v / 64 / 64 / 64 == v / 262144
    ensures v / 4096 % 64 == v / 64 / 64 % 64
  {
  }

  /** The UTF-8 bytes of every code point, and nothing for surrogates and beyond the last plane. */
  lemma Utf8OfCode(code: nat)
    ensures ToUtf8(code) == [] <==> 0xD800 <= code < 0xE000 || code >= BEYOND
    ensures ToUtf8(code) != [] ==> Utf8Value(ToUtf8(code)) == Some(code)
  {
    QuotientTwice(code);
    JoinSplit(code);
    JoinSplit(code / 64);
    JoinSplit(code / 64 / 64);
  }

  /** What one step of the decoder takes and gives. */
  datatype Piece = Piece(taken: nat, given: bytes)

  function NextPiece(s: bytes, plus: bool): (p: Piece)
    requires s != []
    ensures 1 <= p.taken <= |s| && |p.given| <= p.taken
    ensures |p.given| == p.taken ==> p.taken == 1
  {
    if s[0] == PERCENT && |s| > 1 then
      if s[1] == LOWER_U then
        match HexRun(s, 2, 4, 0)
        case Some(v) => HexRun4(s, 2); Piece(6, ToUtf8(v))
        case None => Piece(1, [s[0]])
      else
        match HexRun(s, 1, 2, 0)
        case Some(v) => HexRun2(s, 1, 0); Piece(3, [v])
        case None => Piece(1, [s[0]])
    else if plus && s[0] == PLUS then Piece(1, [SPACE])
    else Piece(1, [s[0]])
  }

  lemma HexRun2(s: bytes, i: nat, acc: nat)
    ensures var r := HexRun(s, i, 2, acc); r.Some? ==> r.value < acc * 256 + 256
  {
    if HexRun(s, i, 2, acc).Some? {
      var a := acc * 16 + HexValue(s[i]).value;
      assert HexRun(s, i, 2, acc) == HexRun(s, i + 1, 1, a);
      assert HexRun(s, i + 1, 1, a) == HexRun(s, i + 2, 0, a * 16 + HexValue(s[i + 1]).value);
    }
  }

  lemma HexRun4(s: bytes, i: nat)
    ensures var r := HexRun(s, i, 4, 0); r.Some? ==> r.value < 0x10000
  {
    if HexRun(s, i, 4, 0).Some? {
      var a := HexValue(s[i]).value;
      assert HexRun(s, i, 4, 0) == HexRun(s, i + 1, 3, a);
      assert HexRun(s, i + 1, 3, a) == HexRun(s, i + 2, 2, a * 16 + HexValue(s[i + 1]).value);
      HexRun2(s, i + 2, a * 16 + HexValue(s[i + 1]).value);
    }
  }

  function Decoded(s: bytes, plus: bool): bytes
    decreases |s|
  {
    if s == [] then []
    else var p := NextPiece(s, plus); p.given + Decoded(s[p.taken..], plus)
  }

  lemma {:induction false} HexRunSuffix(s: bytes, at: nat, i: nat, cnt: nat, acc: nat)
    requires at <= |s|
    ensures HexRun(s[at..], i, cnt, acc) == HexRun(s, at + i, cnt, acc)
    decreases cnt
  {
    if cnt > 0 && at + i < |s| && HexValue(s[at + i]).Some? {
      HexRunSuffix(s, at, i + 1, cnt - 1, acc * 16 + HexValue(s[at + i]).value);
    }
  }

  /** The decoder at index `i`: what it appends, and the index it goes on from. */
  method DecodeStep(s: bytes, i: nat, plus: bool) returns (given: bytes, next: nat)
    requires i < |s|
    ensures var p := NextPiece(s[i..], plus); given == p.given && next == i + p.taken
  {
    HexRunSuffix(s, i, 2, 4, 0);
    HexRunSuffix(s, i, 1, 2, 0);
    next := i;
    if s[i] == PERCENT && i + 1 < |s| {
      if s[i + 1] == LOWER_U {
        var ok, val := FromHexToI(s, i + 2, 4);
        if ok {
          HexRun4(s, i + 2);
          given := ToUtf8(val);
          next := next + 5;
        } else {
          given := [s[i]];
        }
      } else {
        var ok, val := FromHexToI(s, i + 1, 2);
        if ok {
          HexRun2(s, i + 1, 0);
          given := [val];
          next := next + 2;
        } else {
          given := [s[i]];
        }
      }
    } else if plus && s[i] == PLUS {
      given := [SPACE];
    } else {
      given := [s[i]];
    }
    next := next + 1;
  }

  method DecodeUrl(s: bytes, plus: bool) returns (result: bytes)
    ensures result == Decoded(s, plus)
  {
    result := [];
    var i := 0;
    while i < |s|
      invariant i <= |s| && Decoded(s, plus) == result + Decoded(s[i..], plus)
    {
      ghost var rest := Decoded(s[i..], plus);
      var given, next := DecodeStep(s, i, plus);
      assert s[i..][next - i..] == s[next..];
      assert rest == given + Decoded(s[next..], plus);
      assert result + rest == result + given + Decoded(s[next..], plus);
      result, i := result + given, next;
    }
  }

  lemma UpperDigitValue(d: nat)
    requires d < 16
    ensures HexValue(UpperDigit(d)) == Some(d) && UpperDigit(d) != LOWER_U
  {
  }

  /** One encoded byte in front of any text. */
  lemma DecodeEncodedByte(c: byte, t: bytes, plus: bool)
    ensures Decoded(EncodeByte(c) + t, plus) == [c] + Decoded(t, plus)
  {
    var s := EncodeByte(c) + t;
    if Kept(c) {
      assert s[1..] == t;
    } else {
      UpperDigitValue(c / 16);
      UpperDigitValue(c % 16);
      assert HexRun(s, 1, 2, 0) == HexRun(s, 2, 1, c / 16) == HexRun(s, 3, 0, c / 16 * 16 + c % 16);
      assert s[3..] == t;
    }
  }

  /** Decoding inverts encoding in front of any text, with or without plus-to-space. */
  lemma {:induction false} DecodeEncoded(value: bytes, t: bytes, plus: bool)
    ensures Decoded(Encoded(value) + t, plus) == value + Decoded(t, plus)
  {
    if value == [] {
      assert Encoded(value) + t == t;
    } else {
      DecodeEncoded(value[1..], t, plus);
      var e, rest := EncodeByte(value[0]), Encoded(value[1..]);
      DecodeEncodedByte(value[0], rest + t, plus);
      Assoc(e, rest, t);
      Assoc([value[0]], value[1..], Decoded(t, plus));
      assert [value[0]] + value[1..] == value;
    }
  }

  lemma {:induction false} RoundTrip(value: bytes, plus: bool)
    ensures Decoded(Encoded(value), plus) == value
  {
    DecodeEncoded(value, [], plus);
    assert Encoded(value) + [] == Encoded(value);
    assert value + [] == value;
  }

  /** Whether an escape the decoder understands starts at `i`, or a plus stands there. */
  predicate Changes(s: bytes, i: nat)
    requires i < |s|
  {
    || s[i] == PLUS
    || (s[i] == PERCENT && i + 1 < |s|
        && if s[i + 1] == LOWER_U then HexRun(s, i + 2, 4, 0).Some? else HexRun(s, i + 1, 2, 0).Some?)
  }

  lemma ChangesSuffix(s: bytes, i: nat)
    requires 0 < i < |s|
    ensures Changes(s, i) <==> Changes(s[1..], i - 1)
  {
    HexRunSuffix(s, 1, i + 1, 4, 0);
    HexRunSuffix(s, 1, i, 2, 0);
  }

  lemma FirstPiece(s: bytes)
    requires s != []
    ensures !Changes(s, 0) ==> NextPiece(s, true) == Piece(1, [s[0]])
    ensures Changes(s, 0) ==> var p := NextPiece(s, true); |p.given| < p.taken || p.given != [s[0]]
  {
  }

  /** Decoding never lengthens a text, and leaves it alone exactly when there is nothing to decode. */
  lemma {:induction false} DecodedUnchanged(s: bytes)
    ensures |Decoded(s, true)| <= |s|
    ensures Decoded(s, true) == s <==> forall i :: 0 <= i < |s| ==> !Changes(s, i)
    decreases |s|
  {
    if s != [] {
      var p := NextPiece(s, true);
      DecodedUnchanged(s[p.taken..]);
      FirstPiece(s);
      if !Changes(s, 0) {
        forall i | 0 < i < |s| ensures Changes(s, i) <==> Changes(s[1..], i - 1)
        {
          ChangesSuffix(s, i);
        }
        var t := s[1..];
        assert forall i :: 0 <= i < |t| ==> (Changes(t, i) <==> Changes(s, i + 1));
        assert Decoded(s, true) == [s[0]] + Decoded(t, true);
        assert s == [s[0]] + t;
        assert ([s[0]] + Decoded(t, true))[1..] == Decoded(t, true);
      }
    }
  }
}
