/** Query texts on literal bytes: ampersands between the fields, blanks and tabs around them, an equals sign between name
    and value, and the order of names. */
module QueryLines {
  import opened Bytes
  import opened UrlQuery
  import opened QueryText

  predicate Blanks(s: bytes) { forall i :: 0 <= i < |s| ==> s[i] in {32, 9} }

  /** A field as it stands in a text. */
  datatype Field = Field(before: bytes, body: bytes, after: bytes)

  predicate FieldOk(f: Field) {
    && Blanks(f.before) && Blanks(f.after) && 38 !in f.body
    && (f.body != [] ==> f.body[0] !in {32, 9} && f.body[|f.body| - 1] !in {32, 9})
  }

  predicate FieldsOk(fs: seq<Field>) { fs == [] || (FieldOk(fs[0]) && FieldsOk(fs[1..])) }

  function FieldText(f: Field): bytes { f.before + f.body + f.after }

  function Text(fs: seq<Field>): bytes {
    if fs == [] then [] else if |fs| == 1 then FieldText(fs[0]) else FieldText(fs[0]) + [38] + Text(fs[1..])
  }

  /** What a field says: the name up to the first equals sign, and the value behind it, both decoded. */
  function Said(body: bytes, n: nat): Param
    requires n <= |body|
  {
    Param(UrlQuery.Decoded(body[..n], true), if n < |body| then UrlQuery.Decoded(body[n + 1..], true) else [])
  }

  function Equals(body: bytes): (n: nat)
    ensures n <= |body|
  {
    if body == [] || body[0] == 61 then 0 else 1 + Equals(body[1..])
  }

  /** One entry for each field with a name, unless the same body came before. */
  function Listed(fs: seq<Field>, seen: set<bytes>): seq<Param>
  {
    if fs == [] then []
    else
      var b := fs[0].body;
      if b == [] || b in seen then Listed(fs[1..], seen)
      else (if b[0] == 61 then [] else [Said(b, Equals(b))]) + Listed(fs[1..], seen + {b})
  }

  // ----- the proofs -----

  lemma {:induction false} EqualsFirst(body: bytes)
    ensures Equals(body) == FirstOf(body, EQUALS)
  {
    if body != [] && body[0] != 61 { EqualsFirst(body[1..]); }
  }

  lemma SaidIsParam(body: bytes)
    ensures Said(body, Equals(body)) == ParamOf(body)
  {
    EqualsFirst(body);
    SaidAt(body, Equals(body));
  }

  lemma SaidAt(body: bytes, n: nat)
    requires n == FirstOf(body, EQUALS)
    ensures Said(body, n) == ParamOf(body)
  {
  }

  /** Trimming takes blanks and tabs off both ends, and nothing else. */
  lemma StripMeaning(f: Field)
    requires FieldOk(f)
    ensures Strip(FieldText(f)) == f.body
  {
    var s, n := FieldText(f), |f.before|;
    if f.body == [] {
      StripLeftIs(s, |s|);
    } else {
      var t := f.body + f.after;
      assert s == f.before + t && s[n..] == t && s[..n] == f.before;
      StripLeftIs(s, n);
      assert t[|f.body|..] == f.after && t[..|f.body|] == f.body;
      StripRightIs(t, |f.body|);
    }
  }

  lemma {:induction false} PiecesMeaning(fs: seq<Field>)
    requires FieldsOk(fs) && fs != []
    ensures Cut(Text(fs), AMP) == FieldTexts(fs)
  {
    assert 38 !in FieldText(fs[0]);
    CutFirst(FieldText(fs[0]), AMP, Text(fs[1..]));
    if |fs| > 1 { PiecesMeaning(fs[1..]); }
  }

  function FieldTexts(fs: seq<Field>): seq<bytes> { if fs == [] then [] else [FieldText(fs[0])] + FieldTexts(fs[1..]) }

  lemma {:induction false} ListedMeaning(fs: seq<Field>, seen: set<bytes>)
    requires FieldsOk(fs)
    ensures Entries(NonEmpty(FieldTexts(fs)), seen) == Listed(fs, seen)
  {
    if fs != [] {
      var b, rest := fs[0].body, NonEmpty(FieldTexts(fs[1..]));
      StripMeaning(fs[0]);
      SaidIsParam(b);
      EqualsFirst(b);
      assert FieldTexts(fs)[1..] == FieldTexts(fs[1..]);
      if b == [] {
        assert NonEmpty(FieldTexts(fs)) == [] + rest == rest;
        ListedMeaning(fs[1..], seen);
      } else {
        assert NonEmpty(FieldTexts(fs)) == [b] + rest && ([b] + rest)[1..] == rest;
        ListedMeaning(fs[1..], seen);
        ListedMeaning(fs[1..], seen + {b});
      }
    }
  }

  /** The entries of any text. */
  lemma TextMeaning(fs: seq<Field>)
    requires FieldsOk(fs)
    ensures Entries(NonEmpty(Cut(Text(fs), AMP)), {}) == Listed(fs, {})
  {
    if fs == [] {
      assert NonEmpty([[]]) == [] + NonEmpty([[]][1..]);
    } else {
      PiecesMeaning(fs);
    }
    ListedMeaning(fs, {});
  }

  function FieldsOf(ps: seq<Param>): seq<Field> {
    if ps == [] then [] else [Field([], ps[0].key + [61] + Encoded(ps[0].value), [])] + FieldsOf(ps[1..])
  }

  /** What is printed: name, equals sign and encoded value, with an ampersand between fields. */
  lemma {:induction false} PrintedMeaning(ps: seq<Param>)
    ensures Printed(ps) == Text(FieldsOf(ps))
  {
    if ps != [] {
      var f := Field([], ps[0].key + [61] + Encoded(ps[0].value), []);
      assert FieldText(f) == Pair(ps[0]);
      PrintedMeaning(ps[1..]);
      assert FieldsOf(ps)[1..] == FieldsOf(ps[1..]);
    }
  }

  /** The texts agree up to `k`, and there the first ends or has the smaller byte. */
  predicate SmallerAt(a: bytes, b: bytes, k: nat) {
    k <= |a| && k < |b| && a[..k] == b[..k] && (k == |a| || a[k] < b[k])
  }

  lemma {:induction false} LessMeaning(a: bytes, b: bytes)
    ensures Less(a, b) <==> exists k :: SmallerAt(a, b, k)
  {
    if b != [] && a != [] && a[0] == b[0] {
      LessMeaning(a[1..], b[1..]);
      forall k: nat | 0 < k ensures SmallerAt(a, b, k) <==> SmallerAt(a[1..], b[1..], k - 1)
      {
        if k <= |a| && k < |b| {
          assert a[..k] == [a[0]] + a[1..][..k - 1] && b[..k] == [b[0]] + b[1..][..k - 1];
        }
      }
      assert !SmallerAt(a, b, 0);
      if k: nat :| SmallerAt(a[1..], b[1..], k) { assert SmallerAt(a, b, k + 1); }
    } else if Less(a, b) {
      assert SmallerAt(a, b, 0);
    } else if k: nat :| SmallerAt(a, b, k) {
      if k > 0 { assert a[..k][0] == b[..k][0]; }
    }
  }

  /** Parsing a text into parameters adds its entries: in the order of names, and those of one name behind each other
      in the order of the text. */
  lemma ParsedMeaning(fs: seq<Field>, ps: seq<Param>, key: bytes)
    requires FieldsOk(fs) && Sorted(ps)
    ensures var r := Parsed(Text(fs), ps);
            && multiset(r) == multiset(ps) + multiset(Listed(fs, {}))
            && OfKey(r, key) == OfKey(ps, key) + OfKey(Listed(fs, {}), key)
            && forall i, j, k: nat :: 0 <= i < j < |r| ==> !SmallerAt(r[j].key, r[i].key, k)
  {
    TextMeaning(fs);
    ParsedAdds(Text(fs), ps, key);
    var r := Parsed(Text(fs), ps);
    forall i, j, k: nat | 0 <= i < j < |r| ensures !SmallerAt(r[j].key, r[i].key, k)
    {
      LessMeaning(r[j].key, r[i].key);
    }
  }
}
