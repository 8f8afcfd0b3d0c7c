/** Which multimaps of parameters survive printing and parsing. What the pieces of a printed text can give is
    weighed against what was printed: a key that is not plain always loses weight. */
module QueryKeys {
  import opened Bytes
  import opened UrlQuery
  import opened QueryText

  /** Stripping cuts blanks off both ends. */
  lemma StripShape(c: bytes) returns (j: nat, m: nat)
    ensures j <= m <= |c| && Strip(c) == c[j..m] && AllBlank(c[..j]) && AllBlank(c[m..])
    ensures c != [] && IsBlank(c[0]) ==> j > 0
  {
    j := 0;
    while j < |c| && IsBlank(c[j])
      invariant j <= |c| && AllBlank(c[..j])
      invariant c != [] && IsBlank(c[0]) && j == 0 ==> IsBlank(c[j])
    {
      assert c[..j + 1] == c[..j] + [c[j]];
      j := j + 1;
    }
    StripLeftIs(c, j);
    m := |c|;
    while m > j && IsBlank(c[m - 1])
      invariant j <= m <= |c| && AllBlank(c[m..])
    {
      assert c[m - 1..] == [c[m - 1]] + c[m..];
      m := m - 1;
    }
    assert c[j..][m - j..] == c[m..];
    StripRightIs(c[j..], m - j);
    assert c[j..][..m - j] == c[j..m];
  }

  /** Bytes counted, those that the decoder or the splitting would take away twice. */
  function Weight(s: bytes): nat {
    if s == [] then 0 else (if s[0] == PLUS || s[0] == AMP then 2 else 1) + Weight(s[1..])
  }

  lemma {:induction false} WeightAppend(a: bytes, b: bytes)
    ensures Weight(a + b) == Weight(a) + Weight(b)
  {
    if a == [] {
      assert a + b == b;
    } else {
      WeightAppend(a[1..], b);
      assert (a + b)[1..] == a[1..] + b;
    }
  }

  lemma {:induction false} WeightBounds(s: bytes)
    ensures |s| <= Weight(s) <= 2 * |s|
    ensures s != [] && s[0] >= 0x80 ==> Weight(s) < 2 * |s|
  {
    if s != [] { WeightBounds(s[1..]); }
  }

  lemma WeightOne(c: byte)
    ensures Weight([c]) == if c == PLUS || c == AMP then 2 else 1
  {
    assert Weight([c]) == (if c == PLUS || c == AMP then 2 else 1) + Weight([]);
  }

  /** A step of the decoder takes one byte as it is, a plus for a blank, or an escape for fewer bytes. */
  lemma PieceKinds(s: bytes)
    requires s != []
    ensures var p := NextPiece(s, true);
            || (p == Piece(1, [s[0]]) && !Changes(s, 0))
            || (p == Piece(1, [SPACE]) && s[0] == PLUS)
            || (p.taken == 3 && |p.given| == 1)
            || (p.taken == 6 && (|p.given| < 3 || (|p.given| == 3 && p.given[0] >= 0x80)))
  {
  }

  /** One step of the decoder loses weight if it changes anything. */
  lemma PieceWeight(s: bytes, p: Piece)
    requires s != [] && p == NextPiece(s, true)
    ensures Weight(p.given) <= Weight(s[..p.taken])
    ensures Changes(s, 0) ==> Weight(p.given) < Weight(s[..p.taken])
  {
    PieceKinds(s);
    WeightBounds(p.given);
    WeightBounds(s[..p.taken]);
    if p.taken == 1 {
      assert s[..1] == [s[0]];
      WeightOne(s[0]);
      WeightOne(SPACE);
    }
  }

  lemma ChangesLater(s: bytes, t: bytes)
    requires s != [] && t == s[1..] && !Changes(s, 0) && exists i :: 0 <= i < |s| && Changes(s, i)
    ensures exists i :: 0 <= i < |t| && Changes(t, i)
  {
    var i :| 0 <= i < |s| && Changes(s, i);
    ChangesSuffix(s, i);
    assert Changes(t, i - 1);
  }

  /** Taking the decoder one step. */
  lemma WeightStep(s: bytes, p: Piece)
    requires s != [] && p == NextPiece(s, true)
    ensures Weight(s) == Weight(s[..p.taken]) + Weight(s[p.taken..])
    ensures Weight(Decoded(s, true)) == Weight(p.given) + Weight(Decoded(s[p.taken..], true))
  {
    var t := s[p.taken..];
    assert s == s[..p.taken] + t;
    WeightAppend(s[..p.taken], t);
    WeightAppend(p.given, Decoded(t, true));
  }

  lemma {:induction false} DecodedWeight(s: bytes)
    ensures Weight(Decoded(s, true)) <= Weight(s)
    ensures (exists i :: 0 <= i < |s| && Changes(s, i)) ==> Weight(Decoded(s, true)) < Weight(s)
    decreases |s|
  {
    if s != [] {
      var p := NextPiece(s, true);
      PieceWeight(s, p);
      DecodedWeight(s[p.taken..]);
      WeightStep(s, p);
      if !Changes(s, 0) && exists i :: 0 <= i < |s| && Changes(s, i) {
        FirstPiece(s);
        ChangesLater(s, s[p.taken..]);
      }
    }
  }

  function Name(c: bytes): bytes { c[..FirstOf(c, EQUALS)] }

  /** What an entry from a piece weighs before and after it is trimmed and decoded; nothing without a name. */
  function Raw(c: bytes): nat { if Name(c) == [] then 0 else 1 + Weight(Name(c)) }

  function Got(c: bytes): nat { if Name(Strip(c)) == [] then 0 else 1 + Weight(ParamOf(Strip(c)).key) }

  function Sum(f: bytes -> nat, cs: seq<bytes>): nat { if cs == [] then 0 else f(cs[0]) + Sum(f, cs[1..]) }

  lemma {:induction false} SumAppend(f: bytes -> nat, a: seq<bytes>, b: seq<bytes>)
    ensures Sum(f, a + b) == Sum(f, a) + Sum(f, b)
  {
    if a == [] {
      assert a + b == b;
    } else {
      SumAppend(f, a[1..], b);
      assert (a + b)[1..] == a[1..] + b;
    }
  }

  /** Trimming cuts blanks off the front of a name, and off its end if there is no value. */
  lemma StripName(c: bytes) returns (j: nat, m: nat)
    ensures j <= m <= |Name(c)| && Name(Strip(c)) == Name(c)[j..m]
    ensures FirstOf(c, EQUALS) < |c| ==> m == |Name(c)|
    ensures c != [] && IsBlank(c[0]) ==> j > 0
    ensures c != [] && !IsBlank(c[0]) ==> j == 0
  {
    var n := FirstOf(c, EQUALS);
    j, m := StripShape(c);
    assert forall i :: 0 <= i < j ==> c[i] == c[..j][i];
    assert forall i :: m <= i < |c| ==> c[i] == c[m..][i - m];
    assert n < |c| ==> j <= n < m;
    var e := if n < m then n else m;
    assert forall i :: 0 <= i < n ==> c[i] == c[..n][i];
    FirstOfIs(c[j..m], EQUALS, e - j);
    assert c[j..m][..e - j] == c[..n][j..e];
    m := e;
  }

  lemma SliceWeight(n: bytes, j: nat, m: nat)
    requires j <= m <= |n|
    ensures Weight(n[j..m]) + j <= Weight(n)
  {
    assert n == n[..j] + n[j..m] + n[m..];
    WeightAppend(n[..j] + n[j..m], n[m..]);
    WeightAppend(n[..j], n[j..m]);
    WeightBounds(n[..j]);
  }

  lemma GotIs(c: bytes, n: bytes)
    requires n == Name(Strip(c))
    ensures Got(c) == if n == [] then 0 else 1 + Weight(Decoded(n, true))
  {
  }

  lemma GotAtMost(c: bytes)
    ensures Got(c) <= Raw(c)
    ensures c != [] && Name(c) != [] && IsBlank(c[0]) ==> Got(c) < Raw(c)
  {
    var j, m := StripName(c);
    var n := Name(c)[j..m];
    SliceWeight(Name(c), j, m);
    DecodedWeight(n);
    GotIs(c, n);
  }

  lemma {:induction false} SumAtMost(cs: seq<bytes>)
    ensures Sum(Got, cs) <= Sum(Raw, cs)
  {
    if cs != [] {
      GotAtMost(cs[0]);
      SumAtMost(cs[1..]);
    }
  }

  /** A byte in front of a piece. */
  lemma NameGrows(b: byte, c: bytes)
    ensures b == EQUALS ==> Name([b] + c) == []
    ensures b != EQUALS ==> Name([b] + c) == [b] + Name(c)
  {
    var t := [b] + c;
    if b == EQUALS {
      FirstOfIs(t, EQUALS, 0);
    } else {
      var n := FirstOf(c, EQUALS);
      assert t[..n + 1] == [b] + c[..n];
      FirstOfIs(t, EQUALS, n + 1);
    }
  }

  /** The names cut out of a printed pair weigh no more than its key, and less if it holds a separator. */
  lemma {:induction false} PairRaw(k: bytes, e: bytes)
    requires AMP !in e
    ensures var cs := Cut(k + [EQUALS] + e, AMP);
            && 1 + Weight(Name(cs[0])) + Sum(Raw, cs[1..]) <= 1 + Weight(k)
            && (AMP in k || EQUALS in k ==> 1 + Weight(Name(cs[0])) + Sum(Raw, cs[1..]) < 1 + Weight(k))
  {
    var t := k + [EQUALS] + e;
    if k == [] {
      CutFirst(t, AMP, []);
      NameGrows(EQUALS, e);
      assert t == [EQUALS] + e;
    } else {
      var rest := Cut(t[1..], AMP);
      assert t[1..] == k[1..] + [EQUALS] + e;
      PairRaw(k[1..], e);
      assert k == [k[0]] + k[1..];
      if k[0] == AMP {
        assert Cut(t, AMP) == [[]] + rest;
        assert ([[]] + rest)[1..] == rest;
      } else {
        assert Cut(t, AMP) == [[k[0]] + rest[0]] + rest[1..];
        NameGrows(k[0], rest[0]);
        WeightAppend([k[0]], Name(rest[0]));
        WeightAppend([k[0]], k[1..]);
      }
    }
  }

  /** A pair whose key is not plain gives less than it had. */
  lemma PairGot(p: Param)
    ensures Sum(Got, Cut(Pair(p), AMP)) <= 1 + Weight(p.key)
    ensures !Plain(p.key) ==> Sum(Got, Cut(Pair(p), AMP)) < 1 + Weight(p.key)
  {
    var k, e := p.key, Encoded(p.value);
    var cs := Cut(Pair(p), AMP);
    EncodedClean(p.value);
    PairRaw(k, e);
    GotAtMost(cs[0]);
    SumAtMost(cs[1..]);
    if k == [] {
      EmptyName(e);
    } else if AMP !in k && EQUALS !in k {
      OnePiece(p);
    }
  }

  lemma EmptyName(e: bytes)
    requires AMP !in e
    ensures Raw(Cut([] + [EQUALS] + e, AMP)[0]) == 0
  {
    assert [] + [EQUALS] + e == [EQUALS] + e;
    CutFirst([EQUALS] + e, AMP, []);
    NameGrows(EQUALS, e);
  }

  lemma OnePiece(p: Param)
    requires p.key != [] && AMP !in p.key && EQUALS !in p.key
    ensures Cut(Pair(p), AMP) == [Pair(p)]
    ensures Got(Pair(p)) <= 1 + Weight(p.key)
    ensures !Plain(p.key) ==> Got(Pair(p)) < 1 + Weight(p.key)
  {
    var k, c := p.key, Pair(p);
    EncodedClean(p.value);
    CutFirst(c, AMP, []);
    assert c[..|k|] == k && c[0] == k[0];
    FirstOfIs(c, EQUALS, |k|);
    GotAtMost(c);
    if !IsBlank(k[0]) {
      var j, m := StripName(c);
      assert k[0..|k|] == k;
      DecodedWeight(k);
    }
  }

  /** The pieces of a text with one more byte in front. */
  function Grown(c: byte, d: byte, cut: seq<bytes>): seq<bytes>
    requires cut != []
  {
    if c == d then [[]] + cut else [[c] + cut[0]] + cut[1..]
  }

  lemma CutByte(c: byte, d: byte, s: bytes)
    ensures Cut([c] + s, d) == Grown(c, d, Cut(s, d))
  {
    assert ([c] + s)[1..] == s;
  }

  lemma GrownAppend(c: byte, d: byte, a: seq<bytes>, b: seq<bytes>)
    requires a != []
    ensures Grown(c, d, a + b) == Grown(c, d, a) + b
  {
    assert (a + b)[0] == a[0] && (a + b)[1..] == a[1..] + b;
  }

  lemma {:induction false} CutJoin(a: bytes, d: byte, b: bytes)
    ensures Cut(a + [d] + b, d) == Cut(a, d) + Cut(b, d)
  {
    if a == [] {
      assert a + [d] + b == [d] + b;
      CutByte(d, d, b);
      assert Cut([], d) == [[]];
    } else {
      var t := a[1..];
      var u := t + [d] + b;
      CutJoin(t, d, b);
      CutByte(a[0], d, t);
      CutByte(a[0], d, u);
      GrownAppend(a[0], d, Cut(t, d), Cut(b, d));
      assert a == [a[0]] + t;
      assert a + [d] + b == [a[0]] + u;
    }
  }

  function WeightAll(ps: seq<Param>): nat { if ps == [] then 0 else 1 + Weight(ps[0].key) + WeightAll(ps[1..]) }

  lemma {:induction false} WeightAllAppend(a: seq<Param>, b: seq<Param>)
    ensures WeightAll(a + b) == WeightAll(a) + WeightAll(b)
  {
    if a == [] {
      assert a + b == b;
    } else {
      WeightAllAppend(a[1..], b);
      assert (a + b)[1..] == a[1..] + b;
    }
  }

  lemma PrintedFirst(ps: seq<Param>)
    requires |ps| > 1
    ensures Sum(Got, Cut(Printed(ps), AMP)) == Sum(Got, Cut(Pair(ps[0]), AMP)) + Sum(Got, Cut(Printed(ps[1..]), AMP))
  {
    var first, rest := Pair(ps[0]), Printed(ps[1..]);
    assert Printed(ps) == first + [AMP] + rest;
    CutJoin(first, AMP, rest);
    SumAppend(Got, Cut(first, AMP), Cut(rest, AMP));
  }

  /** The pieces of a printed multimap give no more than it had, and less unless all keys are plain. */
  lemma {:induction false} PrintedGot(ps: seq<Param>)
    requires ps != []
    ensures Sum(Got, Cut(Printed(ps), AMP)) <= WeightAll(ps)
    ensures !AllPlain(ps) ==> Sum(Got, Cut(Printed(ps), AMP)) < WeightAll(ps)
  {
    var p, rest := ps[0], ps[1..];
    PairGot(p);
    assert WeightAll(ps) == 1 + Weight(p.key) + WeightAll(rest);
    assert AllPlain(ps) <==> Plain(p.key) && AllPlain(rest);
    if |ps| > 1 {
      PrintedGot(rest);
      PrintedFirst(ps);
    } else {
      assert Printed(ps) == Pair(p) && rest == [];
    }
  }

  lemma {:induction false} EntriesWeight(cs: seq<bytes>, seen: set<bytes>)
    ensures WeightAll(Entries(NonEmpty(cs), seen)) <= Sum(Got, cs)
    decreases |cs|
  {
    if cs != [] {
      var x, rest := Strip(cs[0]), NonEmpty(cs[1..]);
      EntriesWeight(cs[1..], seen);
      EntriesWeight(cs[1..], seen + {x});
      if x == [] {
        assert [] + rest == rest;
      } else {
        assert ([x] + rest)[1..] == rest;
        var es := Entries(rest, seen + {x});
        assert [] + es == es && ([ParamOf(x)] + es)[1..] == es;
      }
    }
  }

  lemma {:induction false} EmplaceAllWeight(ps: seq<Param>, more: seq<Param>)
    ensures WeightAll(EmplaceAll(ps, more)) == WeightAll(ps) + WeightAll(more)
    decreases |more|
  {
    if more != [] {
      var p, n := more[0], UpperBound(ps, more[0].key);
      EmplaceAllWeight(Emplace(ps, p), more[1..]);
      assert ps == ps[..n] + ps[n..];
      WeightAllAppend(ps[..n], ps[n..]);
      WeightAllAppend(ps[..n] + [p], ps[n..]);
      WeightAllAppend(ps[..n], [p]);
      assert WeightAll([p]) == 1 + Weight(p.key) + WeightAll([]);
    }
  }

  /** Printing and parsing gives a multimap back exactly when it is sorted, its keys are plain and its entries
      distinct. */
  lemma PrintParseIff(ps: seq<Param>)
    ensures Parsed(Printed(ps), []) == ps <==> Sorted(ps) && AllPlain(ps) && Distinct(ps)
  {
    var cs := Cut(Printed(ps), AMP);
    if Sorted(ps) && AllPlain(ps) {
      PrintParse(ps);
    } else if ps != [] {
      ParsedAdds(Printed(ps), [], []);
      CollectedEntries(NonEmpty(cs), {}, []);
      EmplaceAllWeight([], Entries(NonEmpty(cs), {}));
      EntriesWeight(cs, {});
      PrintedGot(ps);
    }
  }

  /** One parameter survives printing and parsing exactly when its key is plain. */
  lemma OneParam(p: Param)
    ensures Parsed(Printed([p]), []) == [p] <==> Plain(p.key)
  {
    PrintParseIff([p]);
    assert [p][1..] == [] && AllPlain([]);
    assert Sorted([p]) && Distinct([p]);
  }
}
