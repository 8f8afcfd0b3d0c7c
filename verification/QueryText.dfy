/** Query strings printed from and parsed into a multimap of parameters. */
module QueryText {
  import opened Bytes
  import opened UrlQuery

  datatype Param = Param(key: bytes, value: bytes)

  // ----- splitting -----

  predicate IsBlank(c: byte) { c == 32 || c == 9 }

  function StripLeft(s: bytes): bytes { if s != [] && IsBlank(s[0]) then StripLeft(s[1..]) else s }

  function StripRight(s: bytes): bytes {
    if s != [] && IsBlank(s[|s| - 1]) then StripRight(s[..|s| - 1]) else s
  }

  function Strip(s: bytes): bytes { StripRight(StripLeft(s)) }

  predicate AllBlank(s: bytes) { forall i :: 0 <= i < |s| ==> IsBlank(s[i]) }

  lemma {:induction false} StripLeftIs(s: bytes, n: nat)
    requires n <= |s| && AllBlank(s[..n]) && (n == |s| || !IsBlank(s[n]))
    ensures StripLeft(s) == s[n..]
  {
    if n > 0 {
      assert IsBlank(s[..n][0]);
      assert s[1..][..n - 1] == s[..n][1..];
      StripLeftIs(s[1..], n - 1);
    }
  }

  lemma {:induction false} StripRightIs(s: bytes, n: nat)
    requires n <= |s| && AllBlank(s[n..]) && (n == 0 || !IsBlank(s[n - 1]))
    ensures StripRight(s) == s[..n]
  {
    if n < |s| {
      assert IsBlank(s[n..][|s| - 1 - n]);
      assert s[..|s| - 1][n..] == s[n..][..|s| - 1 - n];
      assert s[..|s| - 1][..n] == s[..n];
      StripRightIs(s[..|s| - 1], n);
    }
  }

  /** `trim`: the two scans run over the whole text, past the piece if it is blank. */
  method Trim(s: bytes, left: nat, right: nat) returns (l: nat, r: nat)
    requires left <= right <= |s|
    ensures l < r ==> left <= l && r <= right && s[l..r] == Strip(s[left..right])
    ensures l >= r ==> Strip(s[left..right]) == []
  {
    l, r := left, right;
    while l < |s| && IsBlank(s[l])
      invariant left <= l <= |s| && forall i :: left <= i < l ==> IsBlank(s[i])
    {
      l := l + 1;
    }
    while r > 0 && IsBlank(s[r - 1])
      invariant r <= right && forall i :: r <= i < right ==> IsBlank(s[i])
    {
      r := r - 1;
    }
    StripSlice(s, left, right, l, r);
  }

  lemma StripSlice(s: bytes, left: nat, right: nat, l: nat, r: nat)
    requires left <= right <= |s| && left <= l <= |s| && r <= right
    requires forall i :: left <= i < l ==> IsBlank(s[i])
    requires forall i :: r <= i < right ==> IsBlank(s[i])
    requires l < |s| ==> !IsBlank(s[l])
    requires r > 0 ==> !IsBlank(s[r - 1])
    ensures l < r ==> s[l..r] == Strip(s[left..right])
    ensures l >= r ==> Strip(s[left..right]) == []
  {
    if l < r {
      StripSlicePiece(s, left, right, l, r);
    } else {
      assert AllBlank(s[left..right]);
      StripLeftIs(s[left..right], right - left);
    }
  }

  lemma StripSlicePiece(s: bytes, left: nat, right: nat, l: nat, r: nat)
    requires left <= l < r <= right <= |s|
    requires forall i :: left <= i < l ==> IsBlank(s[i])
    requires forall i :: r <= i < right ==> IsBlank(s[i])
    requires !IsBlank(s[l]) && !IsBlank(s[r - 1])
    ensures s[l..r] == Strip(s[left..right])
  {
    var t, u := s[left..right], s[l..right];
    assert t[l - left..] == u;
    StripLeftIs(t, l - left);
    StripRightIs(u, r - l);
    assert u[..r - l] == s[l..r];
  }

  /** The pieces between the separators. */
  function Cut(s: bytes, d: byte): (r: seq<bytes>)
    ensures |r| > 0
  {
    if s == [] then [[]]
    else
      var rest := Cut(s[1..], d);
      if s[0] == d then [[]] + rest else [[s[0]] + rest[0]] + rest[1..]
  }

  function NonEmpty(ps: seq<bytes>): seq<bytes> {
    if ps == [] then [] else (if Strip(ps[0]) == [] then [] else [Strip(ps[0])]) + NonEmpty(ps[1..])
  }

  /** A piece without separators in front of a separator, or alone. */
  lemma {:induction false} CutFirst(p: bytes, d: byte, t: bytes)
    requires d !in p
    ensures Cut(p, d) == [p]
    ensures Cut(p + [d] + t, d) == [p] + Cut(t, d)
  {
    var s := p + [d] + t;
    if p == [] {
      assert s[1..] == t;
    } else {
      CutFirst(p[1..], d, t);
      assert s[1..] == p[1..] + [d] + t;
      assert [p[0]] + p[1..] == p;
    }
  }

  function Added(before: seq<bytes>, p: bytes): seq<bytes> {
    if Strip(p) == [] then before else before + [Strip(p)]
  }

  /** Hand on the trimmed piece if it is not empty. */
  method AddPiece(s: bytes, beg: nat, i: nat, before: seq<bytes>) returns (pieces: seq<bytes>)
    requires beg <= i <= |s|
    ensures pieces == Added(before, s[beg..i])
  {
    pieces := before;
    var l, r := Trim(s, beg, i);
    if l < r {
      pieces := pieces + [s[l..r]];
    }
  }

  lemma AddStep(before: seq<bytes>, p: bytes, ps: seq<bytes>)
    ensures before + NonEmpty([p] + ps) == Added(before, p) + NonEmpty(ps)
  {
    assert ([p] + ps)[1..] == ps;
  }

  lemma CutAt(s: bytes, beg: nat, i: nat, d: byte, before: seq<bytes>)
    requires beg <= i < |s| && s[i] == d && d !in s[beg..i]
    ensures before + NonEmpty(Cut(s[beg..], d)) == Added(before, s[beg..i]) + NonEmpty(Cut(s[i + 1..], d))
  {
    assert s[beg..] == s[beg..i] + [d] + s[i + 1..];
    CutFirst(s[beg..i], d, s[i + 1..]);
    AddStep(before, s[beg..i], Cut(s[i + 1..], d));
  }

  lemma CutEnd(s: bytes, beg: nat, d: byte, before: seq<bytes>)
    requires beg <= |s| && d !in s[beg..|s|]
    ensures before + NonEmpty(Cut(s[beg..], d)) == Added(before, s[beg..|s|])
  {
    assert s[beg..] == s[beg..|s|];
    CutFirst(s[beg..], d, []);
    AddStep(before, s[beg..], []);
  }

  /** The pieces so far and the piece being scanned make up the whole. */
  ghost predicate Splitting(all: seq<bytes>, s: bytes, d: byte, beg: nat, i: nat, pieces: seq<bytes>) {
    beg <= i <= |s| && d !in s[beg..i] && all == pieces + NonEmpty(Cut(s[beg..], d))
  }

  /** The loop body: at a separator the piece before it is handed on. */
  method SplitStep(s: bytes, d: byte, beg: nat, i: nat, pieces: seq<bytes>, ghost all: seq<bytes>)
    returns (beg': nat, pieces': seq<bytes>)
    requires i < |s| && Splitting(all, s, d, beg, i, pieces)
    ensures Splitting(all, s, d, beg', i + 1, pieces')
  {
    beg', pieces' := beg, pieces;
    if s[i] == d {
      CutAt(s, beg, i, d, pieces);
      pieces' := AddPiece(s, beg, i, pieces);
      beg' := i + 1;
    }
  }

  /** `split`: the trimmed pieces that are not empty, in order. */
  method Split(s: bytes, d: byte) returns (pieces: seq<bytes>)
    ensures pieces == NonEmpty(Cut(s, d))
  {
    var i: nat, beg: nat := 0, 0;
    pieces := [];
    ghost var all := NonEmpty(Cut(s, d));
    assert s[0..] == s;
    while i < |s|
      invariant Splitting(all, s, d, beg, i, pieces)
    {
      beg, pieces := SplitStep(s, d, beg, i, pieces, all);
      i := i + 1;
    }
    CutEnd(s, beg, d, pieces);
    if i > 0 {
      pieces := AddPiece(s, beg, i, pieces);
    }
  }

  // ----- the multimap -----

  /** Byte order of keys. */
  predicate Less(a: bytes, b: bytes) {
    b != [] && (a == [] || a[0] < b[0] || (a[0] == b[0] && Less(a[1..], b[1..])))
  }

  predicate Sorted(ps: seq<Param>) { forall i, j :: 0 <= i < j < |ps| ==> !Less(ps[j].key, ps[i].key) }

  /** Where `emplace` puts a key: behind all keys that are not greater. */
  function UpperBound(ps: seq<Param>, key: bytes): (n: nat)
    ensures n <= |ps|
    ensures forall i :: 0 <= i < n ==> !Less(key, ps[i].key)
    ensures n < |ps| ==> Less(key, ps[n].key)
  {
    if ps == [] || Less(key, ps[0].key) then 0 else 1 + UpperBound(ps[1..], key)
  }

  function Emplace(ps: seq<Param>, p: Param): seq<Param> {
    var n := UpperBound(ps, p.key); ps[..n] + [p] + ps[n..]
  }

  lemma {:induction false} LessTransitive(a: bytes, b: bytes, c: bytes)
    requires !Less(b, a) && !Less(c, b)
    ensures !Less(c, a)
  {
    if a != [] && b != [] && c != [] && a[0] == b[0] == c[0] {
      LessTransitive(a[1..], b[1..], c[1..]);
    }
  }

  lemma {:induction false} LessAsymmetric(a: bytes, b: bytes)
    requires Less(a, b)
    ensures !Less(b, a)
  {
    if a != [] && a[0] == b[0] {
      LessAsymmetric(a[1..], b[1..]);
    }
  }

  /** Everything from the upper bound on is not smaller than the key. */
  lemma Beyond(ps: seq<Param>, key: bytes, j: nat)
    requires Sorted(ps) && UpperBound(ps, key) <= j < |ps|
    ensures !Less(ps[j].key, key)
  {
    var n := UpperBound(ps, key);
    LessAsymmetric(key, ps[n].key);
    if j > n { LessTransitive(key, ps[n].key, ps[j].key); }
  }

  lemma {:induction false} LessIrreflexive(a: bytes)
    ensures !Less(a, a)
  {
    if a != [] { LessIrreflexive(a[1..]); }
  }

  /** ... and not equal to it. */
  lemma Above(ps: seq<Param>, key: bytes, j: nat)
    requires Sorted(ps) && UpperBound(ps, key) <= j < |ps|
    ensures ps[j].key != key
  {
    var n := UpperBound(ps, key);
    if j > n { assert !Less(ps[j].key, ps[n].key); }
    LessIrreflexive(key);
  }

  /** `emplace` keeps the order. */
  lemma EmplaceSorted(ps: seq<Param>, p: Param)
    requires Sorted(ps)
    ensures Sorted(Emplace(ps, p))
  {
    var n, r := UpperBound(ps, p.key), Emplace(ps, p);
    forall i, j | 0 <= i < j < |r| ensures !Less(r[j].key, r[i].key)
    {
      var ii, jj := if i < n then i else i - 1, if j < n then j else j - 1;
      if i == n {
        Beyond(ps, p.key, jj);
      } else if j != n {
        assert !Less(ps[jj].key, ps[ii].key);
      }
    }
  }

  /** `emplace` adds one entry. */
  lemma EmplaceAdds(ps: seq<Param>, p: Param)
    ensures multiset(Emplace(ps, p)) == multiset(ps) + multiset{p}
  {
    var n := UpperBound(ps, p.key);
    assert ps == ps[..n] + ps[n..];
  }

  // ----- printing and parsing -----

  function Pair(p: Param): bytes { p.key + [EQUALS] + Encoded(p.value) }

  function Printed(ps: seq<Param>): bytes {
    if ps == [] then [] else if |ps| == 1 then Pair(ps[0]) else Pair(ps[0]) + [AMP] + Printed(ps[1..])
  }

  lemma {:induction false} PrintedSnoc(ps: seq<Param>, p: Param)
    ensures Printed(ps + [p]) == Printed(ps) + (if ps == [] then [] else [AMP]) + Pair(p)
  {
    if ps == [] {
      assert ps + [p] == [p];
    } else {
      var first, rest := Pair(ps[0]) + [AMP], ps[1..];
      PrintedSnoc(rest, p);
      assert (ps + [p])[1..] == rest + [p];
      if rest != [] {
        Assoc(first, Printed(rest), [AMP]);
        Assoc(first, Printed(rest) + [AMP], Pair(p));
      } else {
        assert Printed(rest) + [] + Pair(p) == Pair(p);
      }
    }
  }

  method ParamsToQueryStr(ps: seq<Param>) returns (query: bytes)
    ensures query == Printed(ps)
  {
    query := [];
    for i := 0 to |ps|
      invariant query == Printed(ps[..i])
    {
      PrintedSnoc(ps[..i], ps[i]);
      assert ps[..i + 1] == ps[..i] + [ps[i]];
      if i != 0 {
        query := query + [AMP];
      }
      query := query + ps[i].key;
      query := query + [EQUALS];
      var value := EncodeQueryParam(ps[i].value);
      query := query + value;
      assert query == Printed(ps[..i]) + (if i == 0 then [] else [AMP]) + Pair(ps[i]);
    }
    assert ps[..|ps|] == ps;
  }

  /** The first separator, or the length. */
  function FirstOf(s: bytes, d: byte): (n: nat)
    ensures n <= |s| && d !in s[..n] && (n < |s| ==> s[n] == d)
  {
    if s == [] || s[0] == d then 0
    else
      assert forall n :: 0 <= n < |s| ==> s[..n + 1] == [s[0]] + s[1..][..n];
      1 + FirstOf(s[1..], d)
  }

  lemma {:induction false} FirstOfIs(s: bytes, d: byte, n: nat)
    requires n <= |s| && d !in s[..n] && (n < |s| ==> s[n] == d)
    ensures FirstOf(s, d) == n
  {
    if n > 0 {
      assert s[..n][0] == s[0];
      assert s[1..][..n - 1] == s[..n][1..];
      FirstOfIs(s[1..], d, n - 1);
    }
  }

  /** `divide`: what precedes and what follows the first separator. */
  method Divide(s: bytes, d: byte) returns (lhs: bytes, rhs: bytes)
    ensures lhs == s[..FirstOf(s, d)]
    ensures rhs == if FirstOf(s, d) < |s| then s[FirstOf(s, d) + 1..] else []
  {
    var i: nat := 0;
    while i < |s| && s[i] != d
      invariant i <= |s| && d !in s[..i]
    {
      i := i + 1;
    }
    FirstOfIs(s, d, i);
    lhs := s[..i];
    rhs := if i < |s| then s[i + 1..] else [];
  }

  function ParamOf(kv: bytes): Param {
    var n := FirstOf(kv, EQUALS);
    Param(Decoded(kv[..n], true), if n < |kv| then Decoded(kv[n + 1..], true) else [])
  }

  /** Parsing piece by piece: repeated pieces and empty names are skipped. */
  function Collected(pieces: seq<bytes>, seen: set<bytes>, ps: seq<Param>): seq<Param>
  {
    if pieces == [] then ps
    else if pieces[0] in seen then Collected(pieces[1..], seen, ps)
    else
      Collected(pieces[1..], seen + {pieces[0]},
                if FirstOf(pieces[0], EQUALS) == 0 then ps else Emplace(ps, ParamOf(pieces[0])))
  }

  function Parsed(s: bytes, ps: seq<Param>): seq<Param> { Collected(NonEmpty(Cut(s, AMP)), {}, ps) }

  // ----- what a parsed text holds -----

  function EmplaceAll(ps: seq<Param>, more: seq<Param>): seq<Param>
    decreases |more|
  {
    if more == [] then ps else EmplaceAll(Emplace(ps, more[0]), more[1..])
  }

  /** The entries of a text: one for each piece that has a name and was not seen before. */
  function Entries(pieces: seq<bytes>, seen: set<bytes>): seq<Param>
  {
    if pieces == [] then []
    else if pieces[0] in seen then Entries(pieces[1..], seen)
    else
      (if FirstOf(pieces[0], EQUALS) == 0 then [] else [ParamOf(pieces[0])]) + Entries(pieces[1..], seen + {pieces[0]})
  }

  lemma {:induction false} CollectedEntries(pieces: seq<bytes>, seen: set<bytes>, ps: seq<Param>)
    ensures Collected(pieces, seen, ps) == EmplaceAll(ps, Entries(pieces, seen))
    decreases |pieces|
  {
    if pieces != [] {
      var x, rest := pieces[0], pieces[1..];
      var more := Entries(rest, seen + {x});
      if x in seen {
        CollectedEntries(rest, seen, ps);
      } else if FirstOf(x, EQUALS) == 0 {
        CollectedEntries(rest, seen + {x}, ps);
        assert [] + more == more;
      } else {
        CollectedEntries(rest, seen + {x}, Emplace(ps, ParamOf(x)));
        assert ([ParamOf(x)] + more)[1..] == more;
      }
    }
  }

  /** The entries of one key, in order. */
  function OfKey(ps: seq<Param>, key: bytes): seq<Param> {
    if ps == [] then [] else (if ps[0].key == key then [ps[0]] else []) + OfKey(ps[1..], key)
  }

  lemma {:induction false} OfKeyAppend(a: seq<Param>, b: seq<Param>, key: bytes)
    ensures OfKey(a + b, key) == OfKey(a, key) + OfKey(b, key)
  {
    if a == [] {
      assert a + b == b;
    } else {
      OfKeyAppend(a[1..], b, key);
      assert (a + b)[1..] == a[1..] + b;
    }
  }

  lemma {:induction false} OfKeyNone(ps: seq<Param>, key: bytes)
    requires forall i :: 0 <= i < |ps| ==> ps[i].key != key
    ensures OfKey(ps, key) == []
  {
    if ps != [] { OfKeyNone(ps[1..], key); }
  }

  /** `emplace` puts an entry behind those of its own key and leaves the other keys alone. */
  lemma EmplaceOfKey(ps: seq<Param>, p: Param, key: bytes)
    requires Sorted(ps)
    ensures OfKey(Emplace(ps, p), key) == OfKey(ps, key) + OfKey([p], key)
  {
    var n := UpperBound(ps, p.key);
    var low, high := ps[..n], ps[n..];
    OfKeyAppend(low + [p], high, key);
    OfKeyAppend(low, [p], key);
    OfKeyAppend(low, high, key);
    assert low + high == ps;
    if key == p.key {
      forall i | 0 <= i < |high| ensures high[i].key != key
      {
        Above(ps, key, n + i);
      }
      OfKeyNone(high, key);
    }
  }

  /** A text adds its entries to a multimap: none is lost or made up, keys stay in order, and the entries of one
      key stay in the order of the text. */
  lemma {:induction false} EmplaceAllAdds(ps: seq<Param>, more: seq<Param>, key: bytes)
    requires Sorted(ps)
    ensures Sorted(EmplaceAll(ps, more))
    ensures multiset(EmplaceAll(ps, more)) == multiset(ps) + multiset(more)
    ensures OfKey(EmplaceAll(ps, more), key) == OfKey(ps, key) + OfKey(more, key)
    decreases |more|
  {
    if more != [] {
      var p, rest := more[0], more[1..];
      EmplaceSorted(ps, p);
      EmplaceAdds(ps, p);
      EmplaceOfKey(ps, p, key);
      EmplaceAllAdds(Emplace(ps, p), rest, key);
      assert more == [p] + rest;
      OfKeyAppend([p], rest, key);
    }
  }

  lemma ParsedAdds(s: bytes, ps: seq<Param>, key: bytes)
    requires Sorted(ps)
    ensures var es, r := Entries(NonEmpty(Cut(s, AMP)), {}), Parsed(s, ps);
            && Sorted(r)
            && multiset(r) == multiset(ps) + multiset(es)
            && OfKey(r, key) == OfKey(ps, key) + OfKey(es, key)
  {
    var pieces := NonEmpty(Cut(s, AMP));
    CollectedEntries(pieces, {}, ps);
    EmplaceAllAdds(ps, Entries(pieces, {}), key);
  }

  // ----- the loops of parsing -----

  lemma ParamIs(kv: bytes, key: bytes, val: bytes)
    requires key == kv[..FirstOf(kv, EQUALS)]
    requires val == if FirstOf(kv, EQUALS) < |kv| then kv[FirstOf(kv, EQUALS) + 1..] else []
    ensures ParamOf(kv) == Param(Decoded(key, true), Decoded(val, true))
    ensures key == [] <==> FirstOf(kv, EQUALS) == 0
  {
  }

  /** One piece that was not seen before. */
  method AddParam(kv: bytes, params: seq<Param>) returns (ps: seq<Param>)
    ensures ps == if FirstOf(kv, EQUALS) == 0 then params else Emplace(params, ParamOf(kv))
  {
    ps := params;
    var key, val := Divide(kv, EQUALS);
    ParamIs(kv, key, val);
    if key != [] {
      var k := DecodeUrl(key, true);
      var v := DecodeUrl(val, true);
      ps := Emplace(ps, Param(k, v));
    }
  }

  method ParseQueryText(s: bytes, params: seq<Param>) returns (ps: seq<Param>)
    ensures ps == Parsed(s, params)
  {
    var pieces := Split(s, AMP);
    var cache: set<bytes> := {};
    ps := params;
    assert pieces[0..] == pieces;
    for i := 0 to |pieces|
      invariant Collected(pieces, {}, params) == Collected(pieces[i..], cache, ps)
    {
      assert pieces[i..][1..] == pieces[i + 1..];
      var kv := pieces[i];
      if kv !in cache {
        cache := cache + {kv};
        ps := AddParam(kv, ps);
      }
    }
  }

  // ----- round trip -----

  /** A key that printing leaves readable. */
  predicate Plain(key: bytes) {
    && key != [] && !IsBlank(key[0]) && AMP !in key && EQUALS !in key
    && forall i :: 0 <= i < |key| ==> !Changes(key, i)
  }

  predicate AllPlain(ps: seq<Param>) { ps == [] || (Plain(ps[0].key) && AllPlain(ps[1..])) }

  lemma {:induction false} EncodedClean(v: bytes)
    ensures forall i :: 0 <= i < |Encoded(v)| ==>
      Encoded(v)[i] != AMP && Encoded(v)[i] != EQUALS && !IsBlank(Encoded(v)[i])
  {
    if v != [] { EncodedClean(v[1..]); }
  }

  /** A printed pair is one piece, is not trimmed, and reads back as the pair. */
  lemma PairReadsBack(p: Param)
    requires Plain(p.key)
    ensures AMP !in Pair(p) && Strip(Pair(p)) == Pair(p) && Pair(p) != []
    ensures FirstOf(Pair(p), EQUALS) == |p.key| > 0
    ensures ParamOf(Pair(p)) == p
  {
    var kv, e := Pair(p), Encoded(p.value);
    EncodedClean(p.value);
    assert kv[0] == p.key[0];
    StripLeftIs(kv, 0);
    assert kv[0..] == kv;
    assert !IsBlank(kv[|kv| - 1]) by {
      if e != [] { assert kv[|kv| - 1] == e[|e| - 1]; }
    }
    StripRightIs(kv, |kv|);
    assert kv[..|kv|] == kv;
    assert kv[..|p.key|] == p.key && kv[|p.key| + 1..] == e;
    FirstOfIs(kv, EQUALS, |p.key|);
    DecodedUnchanged(p.key);
    RoundTrip(p.value, true);
  }

  function Pairs(ps: seq<Param>): seq<bytes> {
    if ps == [] then [] else [Pair(ps[0])] + Pairs(ps[1..])
  }

  lemma {:induction false} PiecesOfPrinted(ps: seq<Param>)
    requires AllPlain(ps)
    ensures NonEmpty(Cut(Printed(ps), AMP)) == Pairs(ps)
  {
    if ps == [] {
      assert NonEmpty([[]]) == NonEmpty([[]][1..]);
    } else {
      var kv := Pair(ps[0]);
      PairReadsBack(ps[0]);
      if |ps| == 1 {
        CutFirst(kv, AMP, []);
        AddStep([], kv, []);
        assert Pairs(ps) == [kv] + Pairs([]);
        assert [kv] + [] == [kv];
      } else {
        PiecesOfPrinted(ps[1..]);
        CutFirst(kv, AMP, Printed(ps[1..]));
        AddStep([], kv, Cut(Printed(ps[1..]), AMP));
      }
    }
  }

  /** The entries of `ps` that are not in `seen` and not repeated. */
  function Dedup(ps: seq<Param>, seen: set<Param>): seq<Param> {
    if ps == [] then []
    else if ps[0] in seen then Dedup(ps[1..], seen)
    else [ps[0]] + Dedup(ps[1..], seen + {ps[0]})
  }

  predicate Distinct(ps: seq<Param>) { forall i, j :: 0 <= i < j < |ps| ==> ps[i] != ps[j] }

  lemma {:induction false} DedupDistinct(ps: seq<Param>, seen: set<Param>)
    ensures |Dedup(ps, seen)| <= |ps|
    ensures Dedup(ps, seen) == ps <==> Distinct(ps) && forall p :: p in ps ==> p !in seen
  {
    if ps != [] {
      var t := ps[1..];
      DedupDistinct(t, seen);
      DedupDistinct(t, seen + {ps[0]});
      assert ps == [ps[0]] + t;
      if ps[0] !in seen {
        assert Dedup(ps, seen)[1..] == Dedup(t, seen + {ps[0]});
        assert Distinct(ps) <==> Distinct(t) && ps[0] !in t;
      }
    }
  }

  lemma {:induction false} UpperBoundEnd(ps: seq<Param>, key: bytes)
    requires forall i :: 0 <= i < |ps| ==> !Less(key, ps[i].key)
    ensures UpperBound(ps, key) == |ps|
  {
  }

  /** The pieces are the texts of the entries seen. */
  predicate Cached(pieces: set<bytes>, seen: set<Param>) {
    && (forall p :: p in seen ==> Pair(p) in pieces)
    && (forall kv :: kv in pieces ==> ParamOf(kv) in seen)
  }

  lemma CachedGrows(pieces: set<bytes>, seen: set<Param>, p: Param)
    requires Cached(pieces, seen) && Plain(p.key)
    ensures Pair(p) in pieces <==> p in seen
    ensures Cached(pieces + {Pair(p)}, seen + {p})
  {
    PairReadsBack(p);
  }

  lemma CollectedOne(p: Param, rest: seq<bytes>, pieces: set<bytes>, done: seq<Param>)
    requires Plain(p.key)
    ensures Collected([Pair(p)] + rest, pieces, done)
         == if Pair(p) in pieces then Collected(rest, pieces, done)
            else Collected(rest, pieces + {Pair(p)}, Emplace(done, p))
  {
    var kvs := [Pair(p)] + rest;
    assert kvs[0] == Pair(p) && kvs[1..] == rest;
    PairReadsBack(p);
  }

  lemma DedupOne(p: Param, ps: seq<Param>, seen: set<Param>, done: seq<Param>)
    ensures EmplaceAll(done, Dedup([p] + ps, seen))
         == if p in seen then EmplaceAll(done, Dedup(ps, seen))
            else EmplaceAll(Emplace(done, p), Dedup(ps, seen + {p}))
  {
    assert ([p] + ps)[1..] == ps;
    var d := Dedup(ps, seen + {p});
    assert ([p] + d)[1..] == d;
  }

  /** The cache of piece texts drops exactly the repeated entries. */
  lemma {:induction false} CollectedPairs(done: seq<Param>, ps: seq<Param>, pieces: set<bytes>, seen: set<Param>)
    requires AllPlain(ps) && Cached(pieces, seen)
    ensures Collected(Pairs(ps), pieces, done) == EmplaceAll(done, Dedup(ps, seen))
    decreases |ps|
  {
    if ps != [] {
      var p, rest := ps[0], ps[1..];
      assert ps == [p] + rest;
      CachedGrows(pieces, seen, p);
      CollectedOne(p, Pairs(rest), pieces, done);
      DedupOne(p, rest, seen, done);
      if p in seen {
        CollectedPairs(done, rest, pieces, seen);
      } else {
        CollectedPairs(Emplace(done, p), rest, pieces + {Pair(p)}, seen + {p});
      }
    }
  }

  /** Emplacing sorted entries one after the other appends them. */
  lemma {:induction false} EmplaceSortedAll(ps: seq<Param>, more: seq<Param>)
    requires Sorted(ps + more)
    ensures EmplaceAll(ps, more) == ps + more
    decreases |more|
  {
    if more == [] {
      assert ps + more == ps;
    } else {
      var all, n := ps + more, |ps|;
      assert forall i :: 0 <= i < n ==> all[i] == ps[i];
      assert all[n] == more[0];
      UpperBoundEnd(ps, more[0].key);
      assert Emplace(ps, more[0]) == ps + [more[0]];
      assert (ps + [more[0]]) + more[1..] == ps + more;
      EmplaceSortedAll(ps + [more[0]], more[1..]);
    }
  }

  lemma {:induction false} DedupSorted(ps: seq<Param>, seen: set<Param>)
    requires Sorted(ps)
    ensures Sorted(Dedup(ps, seen)) && forall p :: p in Dedup(ps, seen) ==> p in ps
  {
    if ps != [] {
      DedupSorted(ps[1..], seen);
      DedupSorted(ps[1..], seen + {ps[0]});
      forall q | q in ps[1..] ensures !Less(q.key, ps[0].key)
      {
        var i :| 0 <= i < |ps| - 1 && ps[1..][i] == q;
        assert ps[i + 1] == q;
      }
    }
  }

  /** Printing a multimap with plain keys and parsing the text gives it back without repetitions: the
      multimap itself exactly when its entries are distinct. */
  lemma PrintParse(ps: seq<Param>)
    requires Sorted(ps) && AllPlain(ps)
    ensures Parsed(Printed(ps), []) == Dedup(ps, {})
    ensures Parsed(Printed(ps), []) == ps <==> Distinct(ps)
  {
    PiecesOfPrinted(ps);
    CollectedPairs([], ps, {}, {});
    DedupSorted(ps, {});
    assert [] + Dedup(ps, {}) == Dedup(ps, {});
    EmplaceSortedAll([], Dedup(ps, {}));
    DedupDistinct(ps, {});
  }
}
