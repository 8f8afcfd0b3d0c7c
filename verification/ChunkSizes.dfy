/** Any spelling of a chunked body: chunk sizes in either case, with leading zeros, blanks, a sign or a prefix,
    with extensions and trailers, on literal bytes; and what is not one. */
module ChunkSizes {
  import opened Bytes
  import opened HttpStream
  import opened Chunked

  // ----- hexadecimal digits -----

  /** `0123456789abcdef` and `0123456789ABCDEF`. */
  const LOWER: bytes := [48, 49, 50, 51, 52, 53, 54, 55, 56, 57, 97, 98, 99, 100, 101, 102]
  const UPPER: bytes := [48, 49, 50, 51, 52, 53, 54, 55, 56, 57, 65, 66, 67, 68, 69, 70]

  /** A digit in one of the two cases. */
  datatype Digit = Digit(value: nat, upper: bool)

  function Spelling(d: Digit): byte
    requires d.value < 16
  {
    if d.upper then UPPER[d.value] else LOWER[d.value]
  }

  predicate Hexadecimal(ds: seq<Digit>) { forall i :: 0 <= i < |ds| ==> ds[i].value < 16 }

  function Spell(ds: seq<Digit>): bytes
    requires Hexadecimal(ds)
  {
    if ds == [] then [] else [Spelling(ds[0])] + Spell(ds[1..])
  }

  /** The sum of each digit times 16 to the power of its place. */
  function Places(ds: seq<Digit>): nat { if ds == [] then 0 else ds[0].value * Pow16(|ds| - 1) + Places(ds[1..]) }

  lemma DigitReads(d: Digit)
    requires d.value < 16
    ensures HexValue(Spelling(d)) == Some(d.value)
  {
  }

  /** Nothing else is a digit. */
  lemma OnlyDigits(c: byte)
    ensures HexValue(c) == None <==> c !in LOWER && c !in UPPER
  {
    assert HexValue(c).Some? ==> c == LOWER[HexValue(c).value] || c == UPPER[HexValue(c).value];
    if c in LOWER { var i :| 0 <= i < |LOWER| && LOWER[i] == c; }
    if c in UPPER { var i :| 0 <= i < |UPPER| && UPPER[i] == c; }
  }

  predicate NoDigit(rest: bytes) { rest == [] || (rest[0] !in LOWER && rest[0] !in UPPER) }

  lemma Regroup(acc: nat, v: nat, p: nat)
    ensures (acc * 16 + v) * p == acc * (16 * p) + v * p
  {
    MulDist(acc * 16, v, p);
    MulAssoc(acc, 16, p);
  }

  lemma MulAssoc(a: int, b: int, c: int)
    ensures a * b * c == a * (b * c)
  {
  }

  lemma DigitsStep(c: byte, t: bytes, acc: nat)
    requires HexValue(c).Some?
    ensures Digits([c] + t, acc) == Digits(t, acc * 16 + HexValue(c).value)
  {
    assert ([c] + t)[1..] == t;
  }

  lemma DigitsEnd(rest: bytes, acc: nat)
    requires NoDigit(rest)
    ensures Digits(rest, acc) == acc
  {
    if rest != [] { OnlyDigits(rest[0]); }
  }

  /** The digits of a text in front of anything else, by their places. */
  lemma {:induction false} DigitsPlaces(ds: seq<Digit>, acc: nat, rest: bytes)
    requires Hexadecimal(ds) && NoDigit(rest)
    ensures Digits(Spell(ds) + rest, acc) == acc * Pow16(|ds|) + Places(ds)
    decreases |ds|
  {
    if ds == [] {
      assert Spell(ds) + rest == rest;
      DigitsEnd(rest, acc);
    } else {
      var c, t, v := Spelling(ds[0]), Spell(ds[1..]) + rest, ds[0].value;
      DigitReads(ds[0]);
      assert Spell(ds) + rest == [c] + t;
      DigitsStep(c, t, acc);
      DigitsPlaces(ds[1..], acc * 16 + v, rest);
      Regroup(acc, v, Pow16(|ds| - 1));
    }
  }

  // ----- the number a line begins with -----

  /** Blanks, tabs, line feeds, vertical tabs, form feeds and returns. */
  predicate Blank(bs: bytes) { forall i :: 0 <= i < |bs| ==> bs[i] in {32, 9, 10, 11, 12, 13} }

  lemma {:induction false} SkipBlank(bs: bytes, t: bytes)
    requires Blank(bs) && (t == [] || t[0] !in {32, 9, 10, 11, 12, 13})
    ensures SkipSpace(bs + t) == t
  {
    if bs == [] {
      assert bs + t == t;
    } else {
      assert (bs + t)[1..] == bs[1..] + t;
      SkipBlank(bs[1..], t);
    }
  }

  /** What becomes of a value: it saturates, and a minus takes it from 2 to the 64. */
  function Word(v: nat, minus: bool): nat {
    if v > 0xFFFF_FFFF_FFFF_FFFF then 0xFFFF_FFFF_FFFF_FFFF
    else if minus && v > 0 then 0x1_0000_0000_0000_0000 - v
    else v
  }

  const MINUS: bytes := [45]
  const SIGNS: set<bytes> := {[], [43], [45]}
  const PREFIXES: set<bytes> := {[], [48, 120], [48, 88]}

  /** What follows the digits is no digit, and a lone digit is not followed by an x. */
  predicate Closed(prefix: bytes, ds: seq<Digit>, rest: bytes) {
    NoDigit(rest) && (prefix == [] && |ds| == 1 && rest != [] ==> rest[0] !in {120, 88})
  }

  lemma SpellStarts(ds: seq<Digit>)
    requires Hexadecimal(ds) && ds != []
    ensures |Spell(ds)| == |ds| && Spell(ds)[0] == Spelling(ds[0])
    ensures |ds| > 1 ==> Spell(ds)[1] == Spelling(ds[1])
  {
    SpellLength(ds);
    if |ds| > 1 { assert Spell(ds)[1] == Spell(ds[1..])[0]; }
  }

  lemma {:induction false} SpellLength(ds: seq<Digit>)
    requires Hexadecimal(ds)
    ensures |Spell(ds)| == |ds|
  {
    if ds != [] { SpellLength(ds[1..]); }
  }

  /** What `0x` in front of a digit is taken off. */
  function Unprefixed(t: bytes): bytes {
    if |t| >= 3 && t[0] == 48 && t[1] in {120, 88} && HexValue(t[2]).Some? then t[2..] else t
  }

  lemma PrefixTaken(prefix: bytes, u: bytes)
    requires prefix == [48, 120] || prefix == [48, 88]
    requires u != [] && HexValue(u[0]).Some?
    ensures Unprefixed(prefix + u) == u
  {
  }

  lemma NoPrefix(ds: seq<Digit>, rest: bytes)
    requires Hexadecimal(ds) && ds != [] && Closed([], ds, rest)
    ensures Unprefixed(Spell(ds) + rest) == Spell(ds) + rest
  {
    SpellStarts(ds);
    var t := Spell(ds) + rest;
    if |ds| > 1 {
      DigitReads(ds[1]);
      assert t[1] == Spelling(ds[1]);
    } else if rest != [] {
      assert t[1] == rest[0];
    }
  }

  /** The digits behind a prefix, if there is one. */
  lemma AfterPrefix(prefix: bytes, ds: seq<Digit>, rest: bytes)
    requires prefix in PREFIXES && Hexadecimal(ds) && ds != [] && Closed(prefix, ds, rest)
    ensures Unprefixed(prefix + Spell(ds) + rest) == Spell(ds) + rest
  {
    Assoc(prefix, Spell(ds), rest);
    if prefix == [] {
      NoPrefix(ds, rest);
      assert [] + (Spell(ds) + rest) == Spell(ds) + rest;
    } else {
      SpellStarts(ds);
      DigitReads(ds[0]);
      PrefixTaken(prefix, Spell(ds) + rest);
    }
  }

  lemma SpellReads(ds: seq<Digit>, rest: bytes)
    requires Hexadecimal(ds) && ds != [] && NoDigit(rest)
    ensures var u := Spell(ds) + rest; HexValue(u[0]).Some? && Digits(u, 0) == Places(ds)
  {
    SpellStarts(ds);
    DigitReads(ds[0]);
    DigitsPlaces(ds, 0, rest);
  }

  /** The first byte behind the blanks. */
  lemma NoBlankFirst(sign: bytes, prefix: bytes, ds: seq<Digit>, rest: bytes)
    requires sign in SIGNS && prefix in PREFIXES && Hexadecimal(ds) && ds != []
    ensures var t := prefix + Spell(ds) + rest;
            && |t| > 0 && t[0] !in {32, 9, 10, 11, 12, 13} && t[0] != 45 && t[0] != 43
            && (sign + t)[0] !in {32, 9, 10, 11, 12, 13}
            && (sign == [] ==> sign + t == t) && (sign != [] ==> (sign + t)[1..] == t)
  {
    SpellStarts(ds);
    var t := prefix + Spell(ds) + rest;
    assert prefix == [] ==> t[0] == Spelling(ds[0]);
  }

  /** The parts a line is taken apart into. */
  lemma FromParts(line: bytes, s: bytes, t: bytes, u: bytes)
    requires s == SkipSpace(line) && t == (if s != [] && (s[0] == 45 || s[0] == 43) then s[1..] else s)
    requires u == Unprefixed(t)
    requires u != [] && HexValue(u[0]).Some?
    ensures Strtoul16(line) == Some(Word(Digits(u, 0), s != [] && s[0] == 45))
  {
  }

  /** Blanks, a sign, a prefix, digits of either case: the number is the sum over the places. */
  lemma NumberRead(blanks: bytes, sign: bytes, prefix: bytes, ds: seq<Digit>, rest: bytes)
    requires Blank(blanks) && sign in SIGNS && prefix in PREFIXES && Hexadecimal(ds) && ds != [] && Closed(prefix, ds, rest)
    ensures Strtoul16(blanks + (sign + (prefix + Spell(ds) + rest))) == Some(Word(Places(ds), sign == MINUS))
  {
    var t, u := prefix + Spell(ds) + rest, Spell(ds) + rest;
    NoBlankFirst(sign, prefix, ds, rest);
    SkipBlank(blanks, sign + t);
    AfterPrefix(prefix, ds, rest);
    SpellReads(ds, rest);
    var s := sign + t;
    assert s[0] == if sign == [] then t[0] else sign[0];
    FromParts(blanks + s, s, t, u);
  }

  /** Without a digit there is no number. */
  lemma NoNumber(blanks: bytes, sign: bytes, rest: bytes)
    requires Blank(blanks) && sign in SIGNS && NoDigit(rest)
    requires sign == [] && rest != [] ==> rest[0] !in {32, 9, 10, 11, 12, 13, 43, 45}
    ensures Strtoul16(blanks + (sign + rest)) == None
  {
    SkipBlank(blanks, sign + rest);
    if rest != [] { OnlyDigits(rest[0]); }
    if sign == [] { assert sign + rest == rest; } else { assert (sign + rest)[1..] == rest; }
  }

  // ----- bodies spelled in any way -----

  /** A chunk: its size, an extension, and its data. */
  datatype Piece = Piece(size: seq<Digit>, ext: bytes, data: bytes)

  function SizeText(size: seq<Digit>, ext: bytes): bytes
    requires Hexadecimal(size)
  {
    Spell(size) + ext + [13, 10]
  }

  /** A size line that fits: at least one digit, and an extension that begins with neither a digit nor an x and holds
      no line feed. */
  predicate SizeOk(size: seq<Digit>, ext: bytes) {
    && size != [] && Hexadecimal(size) && 10 !in ext && |size| + |ext| + 2 <= MAX_LINE
    && (ext != [] ==> ext[0] !in LOWER && ext[0] !in UPPER && ext[0] !in {120, 88})
  }

  predicate PieceOk(p: Piece) { SizeOk(p.size, p.ext) && Places(p.size) == |p.data| && 0 < |p.data| < 0xFFFF_FFFF_FFFF_FFFF }

  lemma {:induction false} SpellNoFeed(ds: seq<Digit>)
    requires Hexadecimal(ds)
    ensures 10 !in Spell(ds)
  {
    if ds != [] {
      SpellNoFeed(ds[1..]);
      assert Spelling(ds[0]) != 10;
    }
  }

  /** A text without a line feed, and CRLF, is a line. */
  lemma TextLine(t: bytes, rest: bytes)
    requires 10 !in t && |t| + 2 <= MAX_LINE
    ensures NextLine(t + [13, 10] + rest) == Some(t + [13, 10])
  {
    var line := t + [13, 10];
    forall i | i < |line| - 2 ensures !CrlfAt(line, i)
    {
      if i >= 0 && i + 1 < |t| { assert line[i + 1] == t[i + 1] && t[i + 1] in t; }
    }
    LineIs(line, rest);
  }

  lemma SizeTextLine(size: seq<Digit>, ext: bytes, rest: bytes)
    requires SizeOk(size, ext)
    ensures NextLine(SizeText(size, ext) + rest) == Some(SizeText(size, ext))
  {
    SpellLength(size);
    SpellNoFeed(size);
    TextLine(Spell(size) + ext, rest);
  }

  lemma SizeTextNumber(size: seq<Digit>, ext: bytes)
    requires SizeOk(size, ext)
    ensures Strtoul16(SizeText(size, ext)) == Some(Word(Places(size), false))
  {
    var after := ext + [13, 10];
    assert after[0] == if ext == [] then 13 else ext[0];
    NumberRead([], [], [], size, after);
    Bare(Spell(size), ext, [13, 10]);
  }

  lemma Bare(a: bytes, b: bytes, c: bytes)
    ensures [] + ([] + ([] + a + (b + c))) == a + b + c
  {
  }

  lemma SizeLineReads(size: seq<Digit>, ext: bytes, rest: bytes)
    requires SizeOk(size, ext)
    ensures NextLine(SizeText(size, ext) + rest) == Some(SizeText(size, ext))
    ensures Strtoul16(SizeText(size, ext)) == Some(Word(Places(size), false))
  {
    SizeTextLine(size, ext, rest);
    SizeTextNumber(size, ext);
  }

  function Chunked1(p: Piece): bytes
    requires SizeOk(p.size, p.ext)
  {
    SizeText(p.size, p.ext) + (p.data + [13, 10])
  }

  predicate PiecesOk(ps: seq<Piece>) { ps == [] || (PieceOk(ps[0]) && PiecesOk(ps[1..])) }

  function ChunksText(ps: seq<Piece>): bytes
    requires PiecesOk(ps)
  {
    if ps == [] then [] else Chunked1(ps[0]) + ChunksText(ps[1..])
  }

  function Datas(ps: seq<Piece>): bytes { if ps == [] then [] else ps[0].data + Datas(ps[1..]) }

  lemma CrlfReads(rest: bytes)
    ensures NextLine([13, 10] + rest) == Some([13, 10])
  {
    TextLine([], rest);
    assert [] + [13, 10] + rest == [13, 10] + rest && [] + [13, 10] == [13, 10];
  }

  lemma PieceReads(p: Piece, rest: bytes)
    requires PieceOk(p)
    ensures Chunks(Chunked1(p) + rest) == Prepend(p.data, Chunks(rest))
  {
    var line, after := SizeText(p.size, p.ext), p.data + ([13, 10] + rest);
    Assoc(line, p.data + [13, 10], rest);
    Assoc(p.data, [13, 10], rest);
    FrontBack(line, after);
    FrontBack(p.data, [13, 10] + rest);
    SizeLineReads(p.size, p.ext, after);
    CrlfReads(rest);
    assert after[|p.data| + 2..] == rest;
  }

  lemma {:induction false} PiecesRead(ps: seq<Piece>, rest: bytes)
    requires PiecesOk(ps)
    ensures Chunks(ChunksText(ps) + rest)
         == if Chunks(rest) == None then None else Some((Datas(ps) + Chunks(rest).value.0, Chunks(rest).value.1))
  {
    if ps == [] {
      assert ChunksText(ps) + rest == rest;
      PrependNothing(Chunks(rest));
    } else {
      PiecesRead(ps[1..], rest);
      Assoc(Chunked1(ps[0]), ChunksText(ps[1..]), rest);
      PieceReads(ps[0], ChunksText(ps[1..]) + rest);
      PrependTwice(ps[0].data, Datas(ps[1..]), Chunks(rest));
    }
  }

  /** The last chunk: a size of zero, however many zeros, and an extension. */
  lemma LastReads(zeros: seq<Digit>, ext: bytes, rest: bytes)
    requires SizeOk(zeros, ext) && Places(zeros) == 0
    ensures Chunks(SizeText(zeros, ext) + rest) == Some(([], rest))
  {
    SizeLineReads(zeros, ext, rest);
    FrontBack(SizeText(zeros, ext), rest);
  }

  /** Trailer fields: lines that are not empty and not too long. */
  predicate TrailersOk(ts: seq<bytes>) {
    forall i :: 0 <= i < |ts| ==> ts[i] != [] && 10 !in ts[i] && |ts[i]| + 2 <= 8192
  }

  function TrailerText(ts: seq<bytes>): bytes { if ts == [] then [] else ts[0] + [13, 10] + TrailerText(ts[1..]) }

  lemma {:induction false} TrailersRead(ts: seq<bytes>, rest: bytes)
    requires TrailersOk(ts)
    ensures var s := TrailerText(ts) + ([13, 10] + rest);
            NextLine(s).Some? && TrailerFrom(NextLine(s).value, s[|NextLine(s).value|..])
  {
    var s := TrailerText(ts) + ([13, 10] + rest);
    if ts == [] {
      assert s == [13, 10] + rest;
      CrlfReads(rest);
    } else {
      var line, after := ts[0] + [13, 10], TrailerText(ts[1..]) + ([13, 10] + rest);
      Assoc(line, TrailerText(ts[1..]), [13, 10] + rest);
      TextLine(ts[0], after);
      FrontBack(line, after);
      assert line[0] == ts[0][0];
      TrailersRead(ts[1..], rest);
    }
  }

  /** Chunks of any spelling, the last one, trailers, the empty line, and whatever follows: the data of the chunks. */
  lemma AnySpelling(ps: seq<Piece>, zeros: seq<Digit>, ext: bytes, ts: seq<bytes>, rest: bytes)
    requires PiecesOk(ps) && SizeOk(zeros, ext) && Places(zeros) == 0 && TrailersOk(ts)
    ensures Decoded(ChunksText(ps) + (SizeText(zeros, ext) + (TrailerText(ts) + ([13, 10] + rest)))) == Some(Datas(ps))
  {
    var after := TrailerText(ts) + ([13, 10] + rest);
    LastReads(zeros, ext, after);
    PiecesRead(ps, SizeText(zeros, ext) + after);
    TrailersRead(ts, rest);
    assert Datas(ps) + [] == Datas(ps);
  }

  // ----- what is no chunked body -----

  /** A line that is just CRLF is read only where CRLF stands. */
  lemma OnlyCrlf(s: bytes)
    ensures NextLine(s) == Some([13, 10]) ==> [13, 10] <= s
  {
  }

  /** A chunk whose data is cut short, or not followed by CRLF, does not decode. */
  lemma BadEnding(size: seq<Digit>, ext: bytes, rest: bytes)
    requires SizeOk(size, ext) && 0 < Places(size) < 0xFFFF_FFFF_FFFF_FFFF
    requires |rest| < Places(size) || !([13, 10] <= rest[Places(size)..])
    ensures Chunks(SizeText(size, ext) + rest) == None
  {
    SizeLineReads(size, ext, rest);
    FrontBack(SizeText(size, ext), rest);
    if |rest| >= Places(size) { OnlyCrlf(rest[Places(size)..]); }
  }

  /** A size that fills the word, and a line without a number, are refused. */
  lemma BadSize(size: seq<Digit>, ext: bytes, rest: bytes)
    requires SizeOk(size, ext) && Places(size) >= 0xFFFF_FFFF_FFFF_FFFF
    ensures Chunks(SizeText(size, ext) + rest) == None
  {
    SizeLineReads(size, ext, rest);
    FrontBack(SizeText(size, ext), rest);
  }

  /** A trailer line that is too long, or none after one that is not empty, is refused. */
  lemma BadTrailer(t: bytes, rest: bytes)
    requires t != [] && 10 !in t && |t| + 2 <= MAX_LINE && (|t| + 2 > 8192 || rest == [])
    ensures !TrailerOk(t + [13, 10] + rest)
  {
    var line := t + [13, 10];
    TextLine(t, rest);
    FrontBack(line, rest);
    assert line[0] == t[0];
    assert rest == [] ==> NextLine(rest) == None;
    assert |t| > 0 ==> line != CRLF;
  }

  /** `1A` announces 26 bytes. */
  lemma UpperCase()
    ensures Strtoul16([49, 65, 13, 10]) == Some(26)
  {
    var ds := [Digit(1, false), Digit(10, true)];
    assert ds[1..] == [Digit(10, true)] && ds[1..][1..] == [];
    assert Spell(ds[1..]) == [65] && Spell(ds) == [49, 65];
    assert Pow16(1) == 16 && Places(ds[1..]) == 10 && Places(ds) == 26;
    NumberRead([], [], [], ds, [13, 10]);
    assert [] + ([] + ([] + Spell(ds) + [13, 10])) == [49, 65, 13, 10];
  }

  // ----- what the writer spells -----

  lemma {:induction false} PlacesSnoc(ds: seq<Digit>, d: Digit)
    ensures Places(ds + [d]) == 16 * Places(ds) + d.value
  {
    if ds == [] {
      assert [] + [d] == [d] && [d][1..] == [];
    } else {
      assert (ds + [d])[1..] == ds[1..] + [d];
      PlacesSnoc(ds[1..], d);
      ShiftPlace(ds[0].value, Pow16(|ds| - 1));
    }
  }

  lemma ShiftPlace(v: nat, p: nat)
    ensures v * (16 * p) == 16 * (v * p)
  {
  }

  lemma {:induction false} SpellSnoc(ds: seq<Digit>, d: Digit)
    requires Hexadecimal(ds) && d.value < 16
    ensures Hexadecimal(ds + [d]) && Spell(ds + [d]) == Spell(ds) + [Spelling(d)]
  {
    if ds == [] {
      assert [] + [d] == [d];
      assert Spell([d]) == [Spelling(d)] + Spell([]);
    } else {
      SpellSnoc(ds[1..], d);
      assert (ds + [d])[1..] == ds[1..] + [d];
    }
  }

  lemma HexFront(n: nat)
    ensures Hex(n) == (if n < 16 then [] else Hex(n / 16)) + [Spelling(Digit(n % 16, false))]
  {
    assert HexDigit(n % 16) == LOWER[n % 16];
  }

  lemma OneMore(front: seq<Digit>, d: Digit)
    requires Hexadecimal(front) && d.value < 16
    ensures Hexadecimal(front + [d]) && Spell(front + [d]) == Spell(front) + [Spelling(d)]
    ensures Places(front + [d]) == 16 * Places(front) + d.value
  {
    SpellSnoc(front, d);
    PlacesSnoc(front, d);
  }

  /** Lower case, without leading zeros. */
  predicate Canonical(ds: seq<Digit>, n: nat) {
    ds != [] && (forall i :: 0 <= i < |ds| ==> !ds[i].upper) && (n > 0 ==> ds[0].value != 0) && (n == 0 ==> |ds| == 1)
  }

  lemma CanonicalMore(front: seq<Digit>, d: Digit, n: nat)
    requires !d.upper && d.value == n % 16 && (if n < 16 then front == [] else Canonical(front, n / 16))
    ensures Canonical(front + [d], n)
  {
  }

  /** The sizes written are spelled in lower case, without leading zeros. */
  lemma {:induction false} HexSpelled(n: nat) returns (ds: seq<Digit>)
    ensures Hexadecimal(ds) && Hex(n) == Spell(ds) && Places(ds) == n && Canonical(ds, n)
  {
    var d, front := Digit(n % 16, false), [];
    if n >= 16 { front := HexSpelled(n / 16); }
    ds := front + [d];
    HexFront(n);
    OneMore(front, d);
    CanonicalMore(front, d, n);
  }

  /** A non-empty write is its size, CRLF, its bytes, CRLF; `done` is the last chunk and an empty line. */
  lemma WireBytes(d: bytes)
    requires d != []
    ensures Wire(Data(d)) == Hex(|d|) + [13, 10] + d + [13, 10]
    ensures Wire(Done) == [48, 13, 10, 13, 10] && Wire(Data([])) == []
  {
  }
}
