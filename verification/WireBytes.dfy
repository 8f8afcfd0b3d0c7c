/** The wire formats of numbers and strings on literal bytes. */
module WireBytes {
  import opened Bytes
  import opened Codec
  import opened Records

  // ----- fixed width -----

  /** The byte at place `i` of a word, least significant first. */
  function ByteAt(v: nat, i: nat): byte { if i == 0 then v % 256 else ByteAt(v / 256, i - 1) }

  lemma {:induction false} ByteAtPlace(v: nat, i: nat)
    ensures ByteAt(v, i) == v / Pow2(8 * i) % 256
    decreases i
  {
    Pow2Values();
    if i > 0 {
      ByteAtPlace(v / 256, i - 1);
      Pow2Add(8, 8 * (i - 1));
      QuotientTwice(v / 256, v % 256, 256, Pow2(8 * (i - 1)));
    }
  }

  lemma Regroup(q: int, b: int, s: int, a: int)
    ensures (q * b + s) * a == q * (a * b) + s * a
  {
    assert (q * b) * a == q * (b * a);
  }

  lemma Below(s: nat, b: nat, a: nat, r: nat)
    requires s < b && r < a
    ensures s * a + r < a * b
  {
    MulMono(s + 1, b, a);
  }

  /** The quotient by `a * b` of a number whose quotient by `a` is `m`. */
  lemma QuotientTwice(m: nat, r: nat, a: nat, b: nat)
    requires r < a && b > 0
    ensures a * b > 0 && (m * a + r) / (a * b) == m / b
  {
    var q, s := m / b, m % b;
    assert m == q * b + s;
    Regroup(q, b, s, a);
    Below(s, b, a, r);
    DivModUnique(m * a + r, a * b, q, s * a + r);
  }

  lemma {:induction false} LittleAt(v: nat, w: nat, i: nat)
    requires i < w
    ensures ToLittle(v, w)[i] == ByteAt(v, i)
    decreases i
  {
    if i > 0 { LittleAt(v / 256, w - 1, i - 1); }
  }

  /** On any host, byte `i` of a word on the wire: counted from the least significant one in a little-endian stream, and
      from the most significant one in a big-endian stream. */
  lemma FixedAt(o: Order, v: nat, w: nat, i: nat)
    requires i < w
    ensures var bs := FixedBytes(o.hostLittle, o.little, v, w);
            |bs| == w && bs[i] == v / Pow2(8 * (if o.little then i else w - 1 - i)) % 256
  {
    HostOrderInvisible(o.hostLittle, o.little, v, w);
    var k := if o.little then i else w - 1 - i;
    LittleAt(v, w, k);
    ByteAtPlace(v, k);
  }

  // ----- varints -----

  function Septet(v: nat, i: nat): nat { if i == 0 then v % 128 else Septet(v / 128, i - 1) }

  lemma {:induction false} SeptetPlace(v: nat, i: nat)
    ensures Septet(v, i) == v / Pow2(7 * i) % 128
    decreases i
  {
    Pow2Values();
    if i > 0 {
      SeptetPlace(v / 128, i - 1);
      Pow2Add(7, 7 * (i - 1));
      QuotientTwice(v / 128, v % 128, 128, Pow2(7 * (i - 1)));
    }
  }

  /** Byte `i` of a varint: seven bits, low ones first, and the high bit on all but the last byte. */
  lemma {:induction false} VarintAt(v: nat, i: nat)
    requires i < |Varint(v)|
    ensures Varint(v)[i] == v / Pow2(7 * i) % 128 + if i < |Varint(v)| - 1 then 128 else 0
    decreases i
  {
    SeptetPlace(v, i);
    VarintSeptet(v, i);
  }

  lemma {:induction false} VarintSeptet(v: nat, i: nat)
    requires i < |Varint(v)|
    ensures Varint(v)[i] == Septet(v, i) + if i < |Varint(v)| - 1 then 128 else 0
    decreases i
  {
    if i > 0 { VarintSeptet(v / 128, i - 1); }
  }

  /** As many bytes as the value has groups of seven bits. */
  lemma {:induction false} VarintLength(v: nat, n: nat)
    requires n > 0
    ensures |Varint(v)| <= n <==> v < Pow2(7 * n)
    decreases n
  {
    Pow2Values();
    if n > 1 {
      Pow2Add(7, 7 * (n - 1));
      if v >= 128 { VarintLength(v / 128, n - 1); }
    }
  }

  // ----- records -----

  /** The word that stands for a number: two's complement at fixed width, and as a varint 0, -1, 1, -2, ... in turn. */
  function Carried(k: Kind, n: int): int
  {
    match k
    case UInt(_) => n
    case SInt(w) => if n < 0 then n + Pow2(8 * w) else n
    case UVar(_) => n
    case SVar(_) => if n < 0 then -2 * n - 1 else 2 * n
    case Str(_) => 0
  }

  lemma Signed(bits: nat, n: int)
    requires bits > 0 && InSigned(bits, n)
    ensures ToUnsigned(bits, n) == if n < 0 then n + Pow2(bits) else n
  {
  }

  lemma NumberBytes(o: Order, k: Kind, n: int)
    requires !k.Str? && ValidRec(Rec(k, Num(n)))
    ensures Carried(k, n) >= 0
    ensures EncodeNum(o, k, n) ==
            if k.UInt? || k.SInt? then FixedBytes(o.hostLittle, o.little, Carried(k, n), k.w) else Varint(Carried(k, n))
  {
    match k
    case SVar(bits) => ZigzagValue(bits, n);
    case UInt(_) =>
    case SInt(w) => Signed(8 * w, n);
    case UVar(_) =>
  }

  lemma {:induction false} ByteOfCut(v: nat, w: nat, k: nat)
    requires k < w
    ensures ByteAt(v % Pow2(8 * w), k) == ByteAt(v, k)
    decreases k
  {
    CutQuotient(v, w);
    if k > 0 { ByteOfCut(v / 256, w - 1, k - 1); }
  }

  lemma CutQuotient(v: nat, w: nat)
    requires w > 0
    ensures v % Pow2(8 * w) % 256 == v % 256 && v % Pow2(8 * w) / 256 == v / 256 % Pow2(8 * (w - 1))
  {
    Pow2Values();
    Pow2Add(8, 8 * (w - 1));
    var p := Pow2(8 * (w - 1));
    var q, r := v / 256 / p, v / 256 % p;
    assert v == 256 * (v / 256) + v % 256 && v / 256 == q * p + r;
    assert 256 * (q * p + r) == q * (256 * p) + 256 * r;
    DivModUnique(v, 256 * p, q, 256 * r + v % 256);
    DivModUnique(256 * r + v % 256, 256, r, v % 256);
  }

  /** A string behind a fixed-width length: the low bytes of the length in the order of the stream, then the text. */
  lemma TextBytes(o: Order, w: nat, s: bytes, i: nat)
    requires w in {2, 4, 8} && i < w
    ensures var bs := Encode(o, Rec(Str(Word(w)), Text(s)));
            && |bs| == w + |s| && bs[w..] == s
            && bs[i] == |s| / Pow2(8 * (if o.little then i else w - 1 - i)) % 256
  {
    var v := |s| % Pow2(8 * w);
    var k := if o.little then i else w - 1 - i;
    FixedAt(o, v, w, i);
    ByteAtPlace(v, k);
    ByteAtPlace(|s|, k);
    ByteOfCut(|s|, w, k);
  }

  /** A string behind a varint length. */
  lemma VarintText(o: Order, p: Prefix, s: bytes)
    requires p == Uvarint && |s| < Pow2(PrefixBits(p))
    ensures Encode(o, Rec(Str(p), Text(s))) == Varint(|s|) + s
  {
    ModSmall(|s|, Pow2(PrefixBits(p)));
  }
}
