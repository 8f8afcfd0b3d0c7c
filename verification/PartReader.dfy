/** A reader of multipart byte ranges (section 14.6 of RFC 9110), on literal bytes, and what it makes of the answers
    produced. */
module PartReader {
  import opened Bytes
  import opened ByteRanges

  // ----- the reader -----

  /** Where the first line ends, behind its CRLF. */
  function LineEnd(s: bytes): (r: Option<nat>)
    ensures r.Some? ==> 2 <= r.value <= |s|
  {
    if |s| < 2 then None
    else if s[0] == 13 && s[1] == 10 then Some(2)
    else
      match LineEnd(s[1..])
      case None => None
      case Some(n) => Some(n + 1)
  }

  /** Header lines up to the empty one, and what follows it. */
  function Headers(s: bytes): Option<(seq<bytes>, bytes)>
    decreases |s|
  {
    match LineEnd(s)
    case None => None
    case Some(n) =>
      if n == 2 then Some(([], s[2..]))
      else
        match Headers(s[n..])
        case None => None
        case Some((hs, rest)) => Some(([s[..n - 2]] + hs, rest))
  }

  function Power10(k: nat): nat { if k == 0 then 1 else 10 * Power10(k - 1) }

  /** `0123456789`. */
  const TEN: bytes := [48, 49, 50, 51, 52, 53, 54, 55, 56, 57]

  /** The sum of each digit times 10 to the power of its place; nothing unless all are digits, and at least one. */
  function Amount(ds: bytes): Option<nat> {
    if ds == [] || ds[0] !in TEN then None
    else if |ds| == 1 then Some(ds[0] - 48)
    else
      match Amount(ds[1..])
      case None => None
      case Some(v) => Some((ds[0] - 48) * Power10(|ds| - 1) + v)
  }

  /** What precedes and what follows the first `c`. */
  function SplitAt(s: bytes, c: byte): Option<(bytes, bytes)> {
    if s == [] then None
    else if s[0] == c then Some(([], s[1..]))
    else
      match SplitAt(s[1..], c)
      case None => None
      case Some((a, b)) => Some(([s[0]] + a, b))
  }

  /** `Content-Range: bytes `. */
  const FIELD: bytes := [67, 111, 110, 116, 101, 110, 116, 45, 82, 97, 110, 103, 101, 58, 32, 98, 121, 116, 101, 115, 32]

  /** `Content-Type: `. */
  const TYPE: bytes := [67, 111, 110, 116, 101, 110, 116, 45, 84, 121, 112, 101, 58, 32]

  datatype Span = Span(first: nat, last: nat, total: nat)

  /** First and last position, with a dash between, and the length behind a slash. */
  function SpanOf(header: bytes): Option<Span> {
    if !(FIELD <= header) then None
    else
      match SplitAt(header[21..], 45)
      case None => None
      case Some((a, rest)) =>
        match SplitAt(rest, 47)
        case None => None
        case Some((b, c)) =>
          match (Amount(a), Amount(b), Amount(c))
          case (Some(first), Some(last), Some(total)) => Some(Span(first, last, total))
          case _ => None
  }

  function FirstSpan(hs: seq<bytes>): Option<Span> {
    if hs == [] then None else if SpanOf(hs[0]).Some? then SpanOf(hs[0]) else FirstSpan(hs[1..])
  }

  datatype Part = Part(headers: seq<bytes>, span: Span, data: bytes)

  /** Parts up to the closing delimiter, with which the text must end. */
  function ReadParts(s: bytes, boundary: bytes): Option<seq<Part>>
    decreases |s|
  {
    if s == [45, 45] + boundary + [45, 45] then Some([])
    else if !([45, 45] + boundary + [13, 10] <= s) then None
    else
      match Headers(s[|boundary| + 4..])
      case None => None
      case Some((hs, rest)) =>
        HeadersRest(s[|boundary| + 4..]);
        match FirstSpan(hs)
        case None => None
        case Some(span) =>
          var n := span.last - span.first + 1;
          if n < 0 || |rest| < n + 2 || rest[n..n + 2] != [13, 10] then None
          else
            match ReadParts(rest[n + 2..], boundary)
            case None => None
            case Some(ps) => Some([Part(hs, span, rest[..n])] + ps)
  }

  lemma {:induction false} HeadersRest(s: bytes)
    ensures Headers(s).Some? ==> |Headers(s).value.1| < |s|
    decreases |s|
  {
    if LineEnd(s).Some? && LineEnd(s).value > 2 { HeadersRest(s[LineEnd(s).value..]); }
  }

  // ----- decimal numbers -----

  lemma MulAssoc10(a: int, b: int)
    ensures a * (10 * b) == 10 * (a * b)
  {
  }

  lemma {:induction false} AmountSnoc(ds: bytes, c: byte)
    requires Amount(ds).Some? && c in TEN
    ensures Amount(ds + [c]) == Some(10 * Amount(ds).value + (c - 48))
  {
    var all := ds + [c];
    if |ds| == 1 {
      assert all[1..] == [c] && Power10(1) == 10;
    } else {
      assert all[1..] == ds[1..] + [c];
      AmountSnoc(ds[1..], c);
      MulAssoc10(ds[0] - 48, Power10(|ds| - 1));
    }
  }

  /** The digits printed are those of the number. */
  lemma {:induction false} DecimalAmount(n: nat)
    ensures Amount(Decimal(n)) == Some(n)
    ensures forall i :: 0 <= i < |Decimal(n)| ==> Decimal(n)[i] in TEN
  {
    var c: byte := 48 + n % 10;
    assert TEN[n % 10] == c;
    if n >= 10 {
      DecimalAmount(n / 10);
      AmountSnoc(Decimal(n / 10), c);
    }
  }

  lemma {:induction false} SplitHere(a: bytes, c: byte, b: bytes)
    requires c !in a
    ensures SplitAt(a + ([c] + b), c) == Some((a, b))
  {
    var s := a + ([c] + b);
    if a == [] {
      assert s == [c] + b && s[1..] == b;
    } else {
      assert s[1..] == a[1..] + ([c] + b);
      SplitHere(a[1..], c, b);
      assert [a[0]] + a[1..] == a;
    }
  }

  lemma FieldText(a: bytes, b: bytes, c: bytes)
    ensures CONTENT_RANGE + (BYTES_UNIT + a + [45] + b + [47] + c) == FIELD + (a + ([45] + (b + ([47] + c))))
  {
    assert CONTENT_RANGE + BYTES_UNIT == FIELD;
    Flat(CONTENT_RANGE, BYTES_UNIT, a, [45], b, [47], c);
  }

  lemma Flat(p: bytes, q: bytes, a: bytes, d: bytes, b: bytes, e: bytes, c: bytes)
    ensures p + (q + a + d + b + e + c) == (p + q) + (a + (d + (b + (e + c))))
  {
  }

  lemma SpanParts(a: bytes, b: bytes, c: bytes)
    requires 45 !in a && 47 !in b && Amount(a).Some? && Amount(b).Some? && Amount(c).Some?
    ensures SpanOf(FIELD + (a + ([45] + (b + ([47] + c))))) == Some(Span(Amount(a).value, Amount(b).value, Amount(c).value))
  {
    var rest := a + ([45] + (b + ([47] + c)));
    FrontBack(FIELD, rest);
    assert |FIELD| == 21;
    SplitHere(a, 45, b + ([47] + c));
    SplitHere(b, 47, c);
  }

  /** The field of a range reads back as the range. */
  lemma FieldReads(first: nat, length: nat, total: nat)
    requires length > 0
    ensures var h := CONTENT_RANGE + ContentRange(first, length, total);
            SpanOf(h) == Some(Span(first, first + length - 1, total)) && 10 !in h && h != []
  {
    var a, b, c := Decimal(first), Decimal(first + length - 1), Decimal(total);
    DecimalAmount(first);
    DecimalAmount(first + length - 1);
    DecimalAmount(total);
    assert 45 !in TEN && 47 !in TEN && 10 !in TEN;
    FieldText(a, b, c);
    SpanParts(a, b, c);
    NoFeed(a, b, c);
  }

  lemma NoFeed(a: bytes, b: bytes, c: bytes)
    requires 10 !in a && 10 !in b && 10 !in c
    ensures 10 !in FIELD + (a + ([45] + (b + ([47] + c))))
  {
  }

  // ----- lines -----

  lemma {:induction false} LineHere(t: bytes, rest: bytes)
    requires 10 !in t
    ensures LineEnd(t + ([13, 10] + rest)) == Some(|t| + 2)
  {
    var s := t + ([13, 10] + rest);
    if t == [] {
      assert s == [13, 10] + rest;
    } else {
      assert s[1..] == t[1..] + ([13, 10] + rest);
      LineHere(t[1..], rest);
      assert s[1] == if |t| > 1 then t[1] else 13;
    }
  }

  lemma HeaderHere(t: bytes, rest: bytes)
    requires 10 !in t && t != []
    ensures Headers(t + ([13, 10] + rest)) == match Headers(rest) case None => None case Some((hs, r)) => Some(([t] + hs, r))
  {
    var s := t + ([13, 10] + rest);
    LineHere(t, rest);
    FrontBack(t, [13, 10] + rest);
    assert s[|t| + 2..] == rest;
  }

  lemma EmptyHere(rest: bytes)
    ensures Headers([13, 10] + rest) == Some(([], rest))
  {
    LineHere([], rest);
    assert [] + ([13, 10] + rest) == [13, 10] + rest;
    assert ([13, 10] + rest)[2..] == rest;
  }

  /** The header lines of a part. */
  function HeaderLines(r: Range, contentType: bytes, len: nat): seq<bytes>
    requires Fits(r, len)
  {
    (if contentType == [] then [] else [TYPE + contentType])
    + [FIELD + Decimal(r.first) + [45] + Decimal(r.last) + [47] + Decimal(len)]
  }

  lemma TypeIsNoSpan(t: bytes)
    ensures SpanOf(TYPE + t) == None
  {
    assert (TYPE + t)[8] == 84 && FIELD[8] == 82;
  }

  lemma Unflat(p: bytes, a: bytes, d: bytes, b: bytes, e: bytes, c: bytes)
    ensures p + (a + (d + (b + (e + c)))) == p + a + d + b + e + c
  {
  }

  lemma RangeLine(r: Range, len: nat)
    requires Fits(r, len)
    ensures CONTENT_RANGE + ContentRange(r.first, r.last - r.first + 1, len)
         == FIELD + Decimal(r.first) + [45] + Decimal(r.last) + [47] + Decimal(len)
  {
    var a, b, c := Decimal(r.first), Decimal(r.last), Decimal(len);
    assert r.first + (r.last - r.first + 1) - 1 == r.last;
    FieldText(a, b, c);
    Unflat(FIELD, a, [45], b, [47], c);
  }

  // ----- what was produced -----

  /** A part as produced, with its data. */
  function PartText(r: Range, boundary: bytes, contentType: bytes, body: bytes): bytes
    requires Fits(r, |body|)
  {
    PartHead(r, boundary, contentType, |body|) + body[r.first..r.last + 1] + CRLF
  }

  /** The head of a part: the delimiter line, the header lines and the empty line. */
  lemma HeadIs(r: Range, boundary: bytes, contentType: bytes, len: nat, rest: bytes)
    requires Fits(r, len)
    ensures var field := CONTENT_RANGE + ContentRange(r.first, r.last - r.first + 1, len);
            var lines := if contentType == [] then field + ([13, 10] + ([13, 10] + rest))
                         else (TYPE + contentType) + ([13, 10] + (field + ([13, 10] + ([13, 10] + rest))));
            PartHead(r, boundary, contentType, len) + rest == [45, 45] + boundary + [13, 10] + lines
  {
    var field := ContentRange(r.first, r.last - r.first + 1, len);
    if contentType == [] {
      HeadWithout(boundary, CONTENT_RANGE, field, rest);
    } else {
      HeadWith(boundary, contentType, CONTENT_RANGE, field, rest);
    }
  }

  lemma HeadWithout(boundary: bytes, name: bytes, field: bytes, rest: bytes)
    ensures [45, 45] + boundary + [13, 10] + [] + name + field + [13, 10] + [13, 10] + rest
         == [45, 45] + boundary + [13, 10] + ((name + field) + ([13, 10] + ([13, 10] + rest)))
  {
  }

  lemma HeadWith(boundary: bytes, contentType: bytes, name: bytes, field: bytes, rest: bytes)
    ensures [45, 45] + boundary + [13, 10] + (TYPE + contentType + [13, 10]) + name + field + [13, 10] + [13, 10] + rest
         == [45, 45] + boundary + [13, 10]
            + ((TYPE + contentType) + ([13, 10] + ((name + field) + ([13, 10] + ([13, 10] + rest)))))
  {
  }

  lemma OneLine(field: bytes, rest: bytes)
    requires 10 !in field && field != []
    ensures Headers(field + ([13, 10] + ([13, 10] + rest))) == Some(([field], rest))
  {
    EmptyHere(rest);
    HeaderHere(field, [13, 10] + rest);
    assert [field] + [] == [field];
  }

  lemma TwoLines(t: bytes, field: bytes, rest: bytes)
    requires 10 !in t && t != [] && 10 !in field && field != []
    ensures Headers(t + ([13, 10] + (field + ([13, 10] + ([13, 10] + rest))))) == Some(([t] + [field], rest))
  {
    OneLine(field, rest);
    HeaderHere(t, field + ([13, 10] + ([13, 10] + rest)));
  }

  /** The span is found behind a content type, if there is one. */
  lemma SpanFound(r: Range, contentType: bytes, len: nat)
    requires Fits(r, len)
    ensures FirstSpan(HeaderLines(r, contentType, len)) == Some(Span(r.first, r.last, len))
  {
    FieldReads(r.first, r.last - r.first + 1, len);
    RangeLine(r, len);
    var field := FIELD + Decimal(r.first) + [45] + Decimal(r.last) + [47] + Decimal(len);
    if contentType == [] {
      assert [] + [field] == [field];
    } else {
      TypeIsNoSpan(contentType);
      assert ([TYPE + contentType] + [field])[1..] == [field];
    }
  }

  /** The head reads as its header lines, up to and including the empty line. */
  lemma HeadReads(r: Range, boundary: bytes, contentType: bytes, len: nat, rest: bytes)
    requires Fits(r, len) && 10 !in contentType
    ensures var s := PartHead(r, boundary, contentType, len) + rest;
            && [45, 45] + boundary + [13, 10] <= s
            && Headers(s[|boundary| + 4..]) == Some((HeaderLines(r, contentType, len), rest))
  {
    var field := CONTENT_RANGE + ContentRange(r.first, r.last - r.first + 1, len);
    var after := field + ([13, 10] + ([13, 10] + rest));
    HeadIs(r, boundary, contentType, len, rest);
    FieldReads(r.first, r.last - r.first + 1, len);
    RangeLine(r, len);
    var front := [45, 45] + boundary + [13, 10];
    if contentType == [] {
      OneLine(field, rest);
      FrontBack(front, after);
      assert [] + [field] == [field];
    } else {
      var t := TYPE + contentType;
      TwoLines(t, field, rest);
      FrontBack(front, t + ([13, 10] + after));
    }
  }

  /** What the reader should find of a range. */
  function Expected(r: Range, contentType: bytes, body: bytes): Part
    requires Fits(r, |body|)
  {
    Part(HeaderLines(r, contentType, |body|), Span(r.first, r.last, |body|), body[r.first..r.last + 1])
  }

  /** One round of the reader. */
  lemma ReadOne(s: bytes, boundary: bytes, hs: seq<bytes>, span: Span, data: bytes, more: bytes)
    requires [45, 45] + boundary + [13, 10] <= s && FirstSpan(hs) == Some(span)
    requires Headers(s[|boundary| + 4..]) == Some((hs, data + ([13, 10] + more)))
    requires |data| == span.last - span.first + 1
    ensures ReadParts(s, boundary)
         == match ReadParts(more, boundary) case None => None case Some(ps) => Some([Part(hs, span, data)] + ps)
  {
    DelimiterDiffers(boundary, s);
    Framed(data, more);
  }

  lemma Framed(data: bytes, more: bytes)
    ensures var rest, n := data + ([13, 10] + more), |data|;
            && |rest| >= n + 2 && rest[..n] == data && rest[n..n + 2] == [13, 10] && rest[n + 2..] == more
  {
  }

  lemma OneWith(r: Range, boundary: bytes, contentType: bytes, len: nat, data: bytes, rest: bytes)
    requires Fits(r, len) && 10 !in contentType && |data| == r.last - r.first + 1
    ensures ReadParts(PartHead(r, boundary, contentType, len) + data + CRLF + rest, boundary)
         == match ReadParts(rest, boundary)
            case None => None
            case Some(ps) => Some([Part(HeaderLines(r, contentType, len), Span(r.first, r.last, len), data)] + ps)
  {
    var head := PartHead(r, boundary, contentType, len);
    Pieces(head, data, rest);
    HeadReads(r, boundary, contentType, len, data + ([13, 10] + rest));
    SpanFound(r, contentType, len);
    ReadOne(head + data + CRLF + rest, boundary, HeaderLines(r, contentType, len), Span(r.first, r.last, len), data, rest);
  }

  lemma OnePart(r: Range, boundary: bytes, contentType: bytes, body: bytes, rest: bytes)
    requires Fits(r, |body|) && 10 !in contentType
    ensures ReadParts(PartText(r, boundary, contentType, body) + rest, boundary)
         == match ReadParts(rest, boundary) case None => None case Some(ps) => Some([Expected(r, contentType, body)] + ps)
  {
    OneWith(r, boundary, contentType, |body|, body[r.first..r.last + 1], rest);
  }

  lemma Pieces(a: bytes, b: bytes, c: bytes)
    ensures a + b + [13, 10] + c == a + (b + ([13, 10] + c))
  {
  }

  /** A delimiter line is not the closing delimiter. */
  lemma DelimiterDiffers(boundary: bytes, s: bytes)
    requires [45, 45] + boundary + [13, 10] <= s
    ensures s != [45, 45] + boundary + [45, 45]
  {
    var front := [45, 45] + boundary + [13, 10];
    assert front[|boundary| + 2] == 13;
    assert ([45, 45] + boundary + [45, 45])[|boundary| + 2] == 45;
  }

  lemma PartsSnoc(rs: seq<Range>, boundary: bytes, contentType: bytes, body: bytes)
    requires AllFit(rs, |body|) && rs != []
    ensures var k := |rs| - 1;
            AllFit(rs[..k], |body|)
            && Parts(rs, boundary, contentType, body)
               == Parts(rs[..k], boundary, contentType, body) + PartText(rs[k], boundary, contentType, body)
  {
    var k := |rs| - 1;
    Tail4(Parts(rs[..k], boundary, contentType, body), PartHead(rs[k], boundary, contentType, |body|),
          body[rs[k].first..rs[k].last + 1], CRLF);
  }

  lemma {:induction false} FirstPart(rs: seq<Range>, boundary: bytes, contentType: bytes, body: bytes)
    requires AllFit(rs, |body|) && rs != []
    ensures AllFit(rs[1..], |body|)
    ensures Parts(rs, boundary, contentType, body)
         == PartText(rs[0], boundary, contentType, body) + Parts(rs[1..], boundary, contentType, body)
    decreases |rs|
  {
    var k := |rs| - 1;
    var first, last := PartText(rs[0], boundary, contentType, body), PartText(rs[k], boundary, contentType, body);
    PartsSnoc(rs, boundary, contentType, body);
    if k == 0 {
      assert rs[..0] == [] && rs[1..] == [];
      assert [] + last == last == last + [];
    } else {
      FirstPart(rs[..k], boundary, contentType, body);
      var rest := rs[1..];
      assert rs[..k][1..] == rest[..k - 1] && rest[k - 1] == rs[k];
      PartsSnoc(rest, boundary, contentType, body);
      Assoc(first, Parts(rest[..k - 1], boundary, contentType, body), last);
    }
  }

  lemma Tail4(a: bytes, b: bytes, c: bytes, d: bytes)
    ensures a + b + c + d == a + (b + c + d)
  {
  }

  function AllExpected(rs: seq<Range>, contentType: bytes, body: bytes): seq<Part>
    requires AllFit(rs, |body|)
  {
    seq(|rs|, i requires 0 <= i < |rs| => Expected(rs[i], contentType, body))
  }

  lemma ExpectedFirst(rs: seq<Range>, contentType: bytes, body: bytes)
    requires AllFit(rs, |body|) && rs != []
    ensures AllFit(rs[1..], |body|)
    ensures AllExpected(rs, contentType, body) == [Expected(rs[0], contentType, body)] + AllExpected(rs[1..], contentType, body)
  {
  }

  /** The answer reads back as one part for each range, in order: the header lines, the positions, and exactly the bytes
      of the range; and it ends with two dashes, the boundary and two dashes. */
  lemma {:induction false} AnswerReads(rs: seq<Range>, boundary: bytes, contentType: bytes, body: bytes)
    requires AllFit(rs, |body|) && 10 !in contentType
    ensures ReadParts(Parts(rs, boundary, contentType, body) + Closing(boundary), boundary)
         == Some(AllExpected(rs, contentType, body))
    decreases |rs|
  {
    var end := Closing(boundary);
    if rs == [] {
      assert [] + end == end == [45, 45] + boundary + [45, 45];
      assert AllExpected(rs, contentType, body) == [];
    } else {
      FirstPart(rs, boundary, contentType, body);
      AnswerReads(rs[1..], boundary, contentType, body);
      var first, rest := PartText(rs[0], boundary, contentType, body), Parts(rs[1..], boundary, contentType, body);
      Assoc(first, rest, end);
      OnePart(rs[0], boundary, contentType, body, rest + end);
      ExpectedFirst(rs, contentType, body);
    }
  }

  /** `MakeMultipartRanges` and the reader, together. */
  method MakeAndRead(rs: seq<Range>, boundary: bytes, contentType: bytes, body: bytes) returns (data: bytes)
    requires AllFit(rs, |body|) && 10 !in contentType
    ensures ReadParts(data, boundary) == Some(AllExpected(rs, contentType, body))
  {
    data := MakeMultipartRanges(rs, boundary, contentType, body);
    AnswerReads(rs, boundary, contentType, body);
  }
}
