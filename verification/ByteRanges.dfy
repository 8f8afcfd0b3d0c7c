/** Byte-range requests (section 14.1.2 of RFC 9110): validation in place, and the multipart answer
    with its length computed ahead. */
module ByteRanges {
  import opened Bytes

  /** A parsed range; -1 stands for an absent position. */
  datatype Range = Range(first: int, last: int)

  const MAX_COUNT: nat := 1024

  class Request {
    var ranges: seq<Range>

    constructor (ranges: seq<Range>)
      ensures this.ranges == ranges
    {
      this.ranges := ranges;
    }
  }

  // ----- what a range selects -----

  /** The positions a range asks for: all, the last `last` bytes, from `first` on, or between. */
  predicate Selects(r: Range, len: nat, pos: int) {
    && 0 <= pos < len
    && if r.first == -1 && r.last == -1 then true
       else if r.first == -1 then pos >= len - r.last
       else if r.last == -1 then pos >= r.first
       else r.first <= pos <= r.last
  }

  /** The in-place rewriting of one range. */
  function Normal(r: Range, len: nat): Range {
    var a := if r.first == -1 && r.last == -1 then Range(0, len) else r;
    var b := if a.first == -1 then Range(len - a.last, len - 1) else a;
    if b.last == -1 || b.last >= len then Range(b.first, len - 1) else b
  }

  predicate Fits(r: Range, len: nat) { 0 <= r.first <= r.last <= len - 1 }

  /** The longest suffix the code serves is the content itself; RFC 9110 would serve longer ones too. */
  predicate SuffixTooLong(r: Range, len: nat) { r.first == -1 && r.last > len }

  /** An accepted range denotes exactly the positions asked for, and a range is refused exactly when it
      asks for none or is an over-long suffix. */
  lemma NormalMeaning(r: Range, len: nat)
    requires r.first >= -1 && r.last >= -1
    ensures Fits(Normal(r, len), len) ==>
      forall pos :: Selects(r, len, pos) <==> Normal(r, len).first <= pos <= Normal(r, len).last
    ensures Fits(Normal(r, len), len) <==> (exists pos :: Selects(r, len, pos)) && !SuffixTooLong(r, len)
  {
    var n := Normal(r, len);
    if Fits(n, len) {
      assert Selects(r, len, n.first);
    }
  }

  // ----- validation -----

  function Normals(rs: seq<Range>, len: nat): seq<Range> {
    seq(|rs|, i requires 0 <= i < |rs| => Normal(rs[i], len))
  }

  predicate Meet(a: Range, b: Range) { a.first <= b.last && b.first <= a.last }

  /** Range `i` overlaps an earlier one. */
  predicate Overlaps(rs: seq<Range>, i: nat)
    requires i < |rs|
  {
    exists j :: 0 <= j < i && Meet(rs[j], rs[i])
  }

  /** How many ranges overlap an earlier one. */
  function OverlapCount(rs: seq<Range>): nat {
    if rs == [] then 0
    else OverlapCount(rs[..|rs| - 1]) + if Overlaps(rs, |rs| - 1) then 1 else 0
  }

  predicate AllFit(rs: seq<Range>, len: nat) { forall i :: 0 <= i < |rs| ==> Fits(rs[i], len) }

  predicate Ascending(rs: seq<Range>) { forall i, j :: 0 <= i < j < |rs| ==> rs[i].first < rs[j].first }

  predicate Acceptable(rs: seq<Range>, len: nat) {
    AllFit(rs, len) && Ascending(rs) && OverlapCount(rs) <= 2
  }

  predicate Active(rs: seq<Range>, status: int) { rs != [] && 200 <= status < 300 }

  /** What the loop remembers of the ranges before: the largest positions. */
  predicate Remembers(rs: seq<Range>, prevFirst: int, prevLast: int) {
    && (forall i :: 0 <= i < |rs| ==> rs[i].first <= prevFirst && rs[i].last <= prevLast)
    && (rs == [] ==> prevFirst == -1 && prevLast == -1)
    && (rs != [] ==> prevFirst == rs[|rs| - 1].first && exists i :: 0 <= i < |rs| && rs[i].last == prevLast)
  }

  /** In ascending order, meeting some earlier range is starting before the largest end. */
  lemma MeetsEarlier(rs: seq<Range>, r: Range, len: nat, prevFirst: int, prevLast: int)
    requires AllFit(rs, len) && Remembers(rs, prevFirst, prevLast) && Fits(r, len) && r.first > prevFirst
    ensures Overlaps(rs + [r], |rs|) <==> r.first <= prevLast
  {
    var all := rs + [r];
    assert forall i :: 0 <= i < |rs| ==> all[i] == rs[i];
    if r.first <= prevLast {
      var j :| 0 <= j < |rs| && rs[j].last == prevLast;
      assert Meet(all[j], all[|rs|]);
    }
  }

  lemma RemembersMore(rs: seq<Range>, r: Range, prevFirst: int, prevLast: int)
    requires Remembers(rs, prevFirst, prevLast) && r.first > prevFirst && r.first >= 0 && r.last >= -1
    ensures Remembers(rs + [r], Max(prevFirst, r.first), Max(prevLast, r.last))
  {
    var all := rs + [r];
    assert all[|rs|] == r && forall i :: 0 <= i < |rs| ==> all[i] == rs[i];
    if rs != [] {
      var j :| 0 <= j < |rs| && rs[j].last == prevLast;
      assert all[j].last == prevLast;
    }
    assert all[|rs|].last == r.last;
  }

  /** One more range, judged by the two remembered positions. */
  lemma NextRange(rs: seq<Range>, r: Range, len: nat, prevFirst: int, prevLast: int)
    requires Acceptable(rs, len) && Remembers(rs, prevFirst, prevLast) && Fits(r, len)
    ensures Ascending(rs + [r]) <==> r.first > prevFirst
    ensures r.first > prevFirst ==> (Overlaps(rs + [r], |rs|) <==> r.first <= prevLast)
    ensures OverlapCount(rs + [r]) == OverlapCount(rs) + if Overlaps(rs + [r], |rs|) then 1 else 0
    ensures r.first > prevFirst ==> Remembers(rs + [r], Max(prevFirst, r.first), Max(prevLast, r.last))
  {
    var all := rs + [r];
    assert all[..|rs|] == rs && all[|rs|] == r;
    if r.first > prevFirst {
      MeetsEarlier(rs, r, len, prevFirst, prevLast);
      RemembersMore(rs, r, prevFirst, prevLast);
    } else {
      assert rs != [] && all[|rs| - 1].first >= all[|rs|].first;
    }
  }

  lemma {:induction false} PrefixAcceptable(rs: seq<Range>, k: nat, len: nat)
    requires Acceptable(rs, len) && k <= |rs|
    ensures Acceptable(rs[..k], len)
    decreases |rs|
  {
    if k < |rs| {
      var t := rs[..|rs| - 1];
      assert t[..k] == rs[..k];
      PrefixAcceptable(t, k, len);
    } else {
      assert rs[..k] == rs;
    }
  }

  lemma NotAcceptable(ns: seq<Range>, k: nat, len: nat)
    requires k <= |ns|
    ensures !Acceptable(ns[..k], len) ==> !Acceptable(ns, len)
  {
    if Acceptable(ns, len) { PrefixAcceptable(ns, k, len); }
  }

  /** The assignments to `first_pos` and `last_pos`. */
  method Rewrite(r: Range, len: nat) returns (n: Range)
    ensures n == Normal(r, len)
  {
    var first, last := r.first, r.last;
    if first == -1 && last == -1 {
      first := 0;
      last := len;
    }
    if first == -1 {
      first := len - last;
      last := len - 1;
    }
    if last == -1 || last >= len {
      last := len - 1;
    }
    n := Range(first, last);
  }

  /** The tests on one rewritten range, against the two remembered positions. */
  method Judge(ghost ns: seq<Range>, r: Range, len: nat, prevFirst: int, prevLast: int, count: nat)
    returns (error: bool, first: int, last: int, overwrapping: nat)
    requires Acceptable(ns, len) && Remembers(ns, prevFirst, prevLast) && count == OverlapCount(ns)
    ensures error <==> !Acceptable(ns + [r], len)
    ensures !error ==> Remembers(ns + [r], first, last) && overwrapping == OverlapCount(ns + [r])
  {
    error, first, last, overwrapping := true, prevFirst, prevLast, count;
    ghost var all := ns + [r];
    assert all[|ns|] == r;
    if !(0 <= r.first && r.first <= r.last && r.last <= len - 1) {
      return;
    }
    NextRange(ns, r, len, prevFirst, prevLast);
    if r.first <= prevFirst {
      return;
    }
    if r.first <= prevLast {
      overwrapping := overwrapping + 1;
      if overwrapping > 2 {
        return;
      }
    }
    error, first, last := false, Max(prevFirst, r.first), Max(prevLast, r.last);
  }

  lemma Rewritten(rs: seq<Range>, ns: seq<Range>, k: nat)
    requires k < |rs| == |ns|
    ensures var now := ns[..k] + rs[k..]; now[k] == rs[k] && now[k := ns[k]] == ns[..k + 1] + rs[k + 1..]
    ensures ns[..k] + [ns[k]] == ns[..k + 1]
  {
  }

  /** What the loop knows after the ranges `ns`. */
  predicate Judged(ns: seq<Range>, len: nat, prevFirst: int, prevLast: int, count: nat) {
    Acceptable(ns, len) && Remembers(ns, prevFirst, prevLast) && count == OverlapCount(ns)
  }

  /** The suffix of `len` bytes is served whole; asking for one byte more, which RFC 9110 serves alike, is refused. */
  lemma LongSuffixIsRefused(len: nat, status: int)
    requires len > 0 && 200 <= status < 300
    ensures forall pos :: Selects(Range(-1, len), len, pos) <==> Selects(Range(-1, len + 1), len, pos)
    ensures Acceptable(Normals([Range(-1, len)], len), len)
    ensures Active([Range(-1, len + 1)], status) && !Acceptable(Normals([Range(-1, len + 1)], len), len)
  {
    var served, refused := Normals([Range(-1, len)], len), Normals([Range(-1, len + 1)], len);
    assert served == [] + [Range(0, len - 1)] && refused[0] == Range(-1, len - 1);
    NextRange([], Range(0, len - 1), len, -1, -1);
  }

  /** One round of the loop: rewrite range `k` and judge it. */
  method JudgeNext(req: Request, ghost rs: seq<Range>, k: nat, len: nat, prevFirst: int, prevLast: int, count: nat)
    returns (error: bool, first: int, last: int, overwrapping: nat)
    requires k < |rs| && req.ranges == Normals(rs, len)[..k] + rs[k..]
    requires Judged(Normals(rs, len)[..k], len, prevFirst, prevLast, count)
    modifies req
    ensures req.ranges == Normals(rs, len)[..k + 1] + rs[k + 1..]
    ensures error <==> !Acceptable(Normals(rs, len)[..k + 1], len)
    ensures !error ==> Judged(Normals(rs, len)[..k + 1], len, first, last, overwrapping)
  {
    ghost var ns := Normals(rs, len);
    Rewritten(rs, ns, k);
    var r := Rewrite(req.ranges[k], len);
    req.ranges := req.ranges[k := r];
    error, first, last, overwrapping := Judge(ns[..k], r, len, prevFirst, prevLast, count);
  }

  /** The loop over the ranges; `bad` is the first offending one. */
  method JudgeAll(req: Request, len: nat) returns (error: bool, ghost bad: nat)
    modifies req
    ensures var rs, ns := old(req.ranges), Normals(old(req.ranges), len);
            && (!error ==> req.ranges == ns && Acceptable(ns, len))
            && (error ==> bad < |rs| && Acceptable(ns[..bad], len) && !Acceptable(ns[..bad + 1], len)
                          && req.ranges == ns[..bad + 1] + rs[bad + 1..])
  {
    ghost var rs, ns := req.ranges, Normals(req.ranges, len);
    var first, last, overwrapping: nat := -1, -1, 0;
    var k: nat := 0;
    while k < |req.ranges|
      invariant k <= |rs| == |req.ranges| && req.ranges == ns[..k] + rs[k..]
      invariant Judged(ns[..k], len, first, last, overwrapping)
    {
      error, first, last, overwrapping := JudgeNext(req, rs, k, len, first, last, overwrapping);
      if error {
        return true, k;
      }
      k := k + 1;
    }
    AllRewritten(rs, ns);
    assert k == |rs|;
    return false, k;
  }

  lemma AllRewritten(rs: seq<Range>, ns: seq<Range>)
    requires |rs| == |ns|
    ensures ns[..|rs|] == ns && ns + rs[|rs|..] == ns
  {
  }

  /** `range_error`: the requested ranges are rewritten in place up to the first offending one; no error
      means that all of them lie in the content, ascend, and at most two overlap earlier ones. */
  method RangeError(req: Request, status: int, len: nat) returns (error: bool)
    modifies req
    ensures var rs, ns := old(req.ranges), Normals(old(req.ranges), len);
            && (!Active(rs, status) ==> !error && req.ranges == rs)
            && (Active(rs, status) ==> (error <==> |rs| > MAX_COUNT || !Acceptable(ns, len)))
            && (Active(rs, status) && !error ==> req.ranges == ns)
            && (Active(rs, status) && |rs| > MAX_COUNT ==> req.ranges == rs)
            && (error && |rs| <= MAX_COUNT ==>
                  exists k :: 0 <= k < |rs| && Acceptable(ns[..k], len) && !Acceptable(ns[..k + 1], len)
                              && req.ranges == ns[..k + 1] + rs[k + 1..])
  {
    ghost var rs, ns := req.ranges, Normals(req.ranges, len);
    error := false;
    if req.ranges != [] && 200 <= status < 300 {
      if |req.ranges| > MAX_COUNT {
        return true;
      }
      ghost var bad;
      error, bad := JudgeAll(req, len);
      if error { NotAcceptable(ns, bad + 1, len); }
    }
  }

  // ----- the multipart answer -----

  function Decimal(n: nat): bytes {
    if n < 10 then [48 + n] else Decimal(n / 10) + [48 + n % 10]
  }

  /** `Content-Type: ` and `Content-Range: bytes `. */
  const CONTENT_TYPE: bytes := [67, 111, 110, 116, 101, 110, 116, 45, 84, 121, 112, 101, 58, 32]
  const CONTENT_RANGE: bytes := [67, 111, 110, 116, 101, 110, 116, 45, 82, 97, 110, 103, 101, 58, 32]
  const BYTES_UNIT: bytes := [98, 121, 116, 101, 115, 32]

  function OffsetAndLength(r: Range, len: nat): (nat, nat)
    requires Fits(r, len)
  {
    (r.first, r.last - r.first + 1)
  }

  function ContentRange(offset: nat, length: nat, len: nat): bytes
    requires length > 0
  {
    BYTES_UNIT + Decimal(offset) + [45] + Decimal(offset + length - 1) + [47] + Decimal(len)
  }

  predicate IsDigit(c: byte) { 48 <= c <= 57 }

  /** The number that leading digits continue, and what follows it. */
  function ReadNumber(s: bytes, acc: nat): (nat, bytes)
    decreases |s|
  {
    if s != [] && IsDigit(s[0]) then ReadNumber(s[1..], acc * 10 + (s[0] - 48)) else (acc, s)
  }

  lemma {:induction false} ReadDecimal(n: nat, rest: bytes)
    requires rest == [] || !IsDigit(rest[0])
    ensures ReadNumber(Decimal(n) + rest, 0) == (n, rest)
  {
    ReadPrefix(n, rest);
  }

  lemma {:induction false} ReadPrefix(n: nat, rest: bytes)
    ensures ReadNumber(Decimal(n) + rest, 0) == ReadNumber(rest, n)
  {
    var d: bytes := [48 + n % 10];
    if n < 10 {
      assert (d + rest)[1..] == rest;
    } else {
      ReadPrefix(n / 10, d + rest);
      Assoc(Decimal(n / 10), d, rest);
      assert (d + rest)[1..] == rest;
    }
  }

  /** The field names the first and last position and the content length. */
  lemma ContentRangeReadsBack(offset: nat, length: nat, len: nat)
    requires length > 0
    ensures var field := ContentRange(offset, length, len);
            && BYTES_UNIT <= field
            && var (first, more) := ReadNumber(field[|BYTES_UNIT|..], 0);
            && first == offset && more != [] && more[0] == 45
            && var (last, rest) := ReadNumber(more[1..], 0);
            && last == offset + length - 1 && rest != [] && rest[0] == 47
            && ReadNumber(rest[1..], 0) == (len, [])
  {
    var a, b, c := Decimal(offset), Decimal(offset + length - 1), Decimal(len);
    var field, dash, slash: bytes := ContentRange(offset, length, len), [45], [47];
    var rest := slash + c;
    var more := dash + (b + rest);
    assert field[|BYTES_UNIT|..] == a + more;
    ReadDecimal(offset, more);
    assert more[1..] == b + rest;
    ReadDecimal(offset + length - 1, rest);
    assert rest[1..] == c == c + [];
    ReadDecimal(len, []);
  }

  /** The header of one part. */
  function PartHead(r: Range, boundary: bytes, contentType: bytes, len: nat): bytes
    requires Fits(r, len)
  {
    DASHES + boundary + CRLF
    + (if contentType != [] then CONTENT_TYPE + contentType + CRLF else [])
    + CONTENT_RANGE + ContentRange(r.first, r.last - r.first + 1, len) + CRLF + CRLF
  }

  /** The parts: each carries exactly the bytes its range names. */
  function Parts(rs: seq<Range>, boundary: bytes, contentType: bytes, body: bytes): bytes
    requires AllFit(rs, |body|)
  {
    if rs == [] then []
    else
      var r := rs[|rs| - 1];
      Parts(rs[..|rs| - 1], boundary, contentType, body)
      + PartHead(r, boundary, contentType, |body|) + body[r.first..r.last + 1] + CRLF
  }

  lemma {:induction false} PartsStep(rs: seq<Range>, k: nat, boundary: bytes, contentType: bytes, body: bytes)
    requires AllFit(rs, |body|) && k < |rs|
    ensures Parts(rs[..k + 1], boundary, contentType, body)
         == Parts(rs[..k], boundary, contentType, body)
            + PartHead(rs[k], boundary, contentType, |body|) + body[rs[k].first..rs[k].last + 1] + CRLF
  {
    assert rs[..k + 1][..k] == rs[..k];
  }

  function Closing(boundary: bytes): bytes { DASHES + boundary + DASHES }

  method MakeContentRange(offset: nat, length: nat, len: nat) returns (field: bytes)
    requires length > 0
    ensures field == ContentRange(offset, length, len)
  {
    var st := offset;
    var ed := st + length - 1;
    field := BYTES_UNIT;
    field := field + Decimal(st);
    field := field + [45];
    field := field + Decimal(ed);
    field := field + [47];
    field := field + Decimal(len);
  }

  /** The tokens before one part's content, appended. */
  method PutHead(data: bytes, r: Range, boundary: bytes, contentType: bytes, len: nat)
    returns (out: bytes, offset: nat, length: nat)
    requires Fits(r, len)
    ensures out == data + PartHead(r, boundary, contentType, len)
    ensures offset == r.first && length == r.last - r.first + 1
  {
    ghost var t := if contentType != [] then CONTENT_TYPE + contentType + CRLF else [];
    out := data + DASHES;
    out := out + boundary;
    out := out + CRLF;
    if contentType != [] {
      out := out + CONTENT_TYPE;
      out := out + contentType;
      out := out + CRLF;
    }
    assert out == data + (DASHES + boundary + CRLF + t);
    offset, length := OffsetAndLength(r, len).0, OffsetAndLength(r, len).1;
    out := out + CONTENT_RANGE;
    var field := MakeContentRange(offset, length, len);
    out := out + field;
    out := out + CRLF;
    out := out + CRLF;
    Regroup(data, DASHES + boundary + CRLF + t, CONTENT_RANGE, field);
  }

  lemma Regroup(a: bytes, b: bytes, c: bytes, d: bytes)
    ensures ((((a + b) + c) + d) + CRLF) + CRLF == a + (((b + c) + d) + CRLF + CRLF)
  {
  }

  /** The tokens of one part's header, counted. */
  method CountHead(n: nat, r: Range, boundary: bytes, contentType: bytes, len: nat)
    returns (out: nat, offset: nat, length: nat)
    requires Fits(r, len)
    ensures out == n + |PartHead(r, boundary, contentType, len)|
    ensures offset == r.first && length == r.last - r.first + 1
  {
    out := n + |DASHES|;
    out := out + |boundary|;
    out := out + |CRLF|;
    if contentType != [] {
      out := out + |CONTENT_TYPE|;
      out := out + |contentType|;
      out := out + |CRLF|;
    }
    offset, length := OffsetAndLength(r, len).0, OffsetAndLength(r, len).1;
    out := out + |CONTENT_RANGE|;
    var field := MakeContentRange(offset, length, len);
    out := out + |field|;
    out := out + |CRLF|;
    out := out + |CRLF|;
  }

  method MakeMultipartRanges(rs: seq<Range>, boundary: bytes, contentType: bytes, body: bytes)
    returns (data: bytes)
    requires AllFit(rs, |body|)
    ensures data == Parts(rs, boundary, contentType, body) + Closing(boundary)
  {
    data := [];
    for i := 0 to |rs|
      invariant data == Parts(rs[..i], boundary, contentType, body)
    {
      PartsStep(rs, i, boundary, contentType, body);
      var offset, length;
      data, offset, length := PutHead(data, rs[i], boundary, contentType, |body|);
      data := data + body[offset..offset + length];
      data := data + CRLF;
    }
    assert rs[..|rs|] == rs;
    ghost var parts := data;
    data := data + DASHES;
    data := data + boundary;
    data := data + DASHES;
    assert data == parts + (DASHES + boundary + DASHES);
  }

  /** The length announced before anything is produced is the length produced. */
  method MultipartRangesLength(rs: seq<Range>, boundary: bytes, contentType: bytes, len: nat, ghost body: bytes)
    returns (n: nat)
    requires |body| == len && AllFit(rs, len)
    ensures n == |Parts(rs, boundary, contentType, body) + Closing(boundary)|
  {
    n := 0;
    for i := 0 to |rs|
      invariant n == |Parts(rs[..i], boundary, contentType, body)|
    {
      PartsStep(rs, i, boundary, contentType, body);
      var offset, length;
      n, offset, length := CountHead(n, rs[i], boundary, contentType, len);
      n := n + length;
      n := n + |CRLF|;
    }
    assert rs[..|rs|] == rs;
    n := n + |DASHES|;
    n := n + |boundary|;
    n := n + |DASHES|;
  }
}
