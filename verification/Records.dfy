/** Typed records on a ByteArray: what is written by type is read back by type. */
module Records {
  import opened Bytes
  import opened Codec

  /** How a string carries its length: a fixed-width word or a 64-bit varint. */
  datatype Prefix = Word(w: nat) | Uvarint

  datatype Kind = UInt(w: nat) | SInt(w: nat) | UVar(bits: nat) | SVar(bits: nat) | Str(prefix: Prefix)

  datatype Value = Num(n: int) | Text(s: bytes)

  datatype Rec = Rec(kind: Kind, value: Value)

  /** The byte order of the machine and the order chosen for the stream. */
  datatype Order = Order(hostLittle: bool, little: bool)

  predicate ValidKind(k: Kind)
  {
    match k
    case UInt(w) => w in {1, 2, 4, 8}
    case SInt(w) => w in {1, 2, 4, 8}
    case UVar(bits) => bits in {32, 64}
    case SVar(bits) => bits in {32, 64}
    case Str(Word(w)) => w in {2, 4, 8}
    case Str(Uvarint) => true
  }

  /** A value of the C++ parameter type. */
  predicate ValidRec(r: Rec)
  {
    ValidKind(r.kind) &&
    match r.kind
    case UInt(w) => r.value.Num? && 0 <= r.value.n < Pow2(8 * w)
    case SInt(w) => r.value.Num? && InSigned(8 * w, r.value.n)
    case UVar(bits) => r.value.Num? && 0 <= r.value.n < Pow2(bits)
    case SVar(bits) => r.value.Num? && InSigned(bits, r.value.n)
    case Str(_) => r.value.Text?
  }

  /** The kind of number a length prefix is, and how many bits it has. */
  function PrefixKind(p: Prefix): Kind { if p.Word? then UInt(p.w) else UVar(64) }

  function PrefixBits(p: Prefix): nat { if p.Word? then 8 * p.w else 64 }

  function EncodeNum(o: Order, k: Kind, n: int): bytes
    requires !k.Str? && ValidRec(Rec(k, Num(n)))
  {
    match k
    case UInt(w) => FixedBytes(o.hostLittle, o.little, n, w)
    case SInt(w) => FixedBytes(o.hostLittle, o.little, ToUnsigned(8 * w, n), w)
    case UVar(bits) => Varint(n)
    case SVar(bits) => Varint(EncodeZigzag(bits, n))
  }

  /** The length prefix is cut to its width, as the implicit conversion does. */
  function EncodePrefix(o: Order, p: Prefix, len: nat): bytes
    requires ValidKind(Str(p))
  {
    EncodeNum(o, PrefixKind(p), len % Pow2(PrefixBits(p)))
  }

  function Encode(o: Order, r: Rec): bytes
    requires ValidRec(r)
  {
    if r.kind.Str? then EncodePrefix(o, r.kind.prefix, |r.value.s|) + r.value.s
    else EncodeNum(o, r.kind, r.value.n)
  }

  /** A number at the front of `bs` and the bytes it takes. */
  function DecodeNum(o: Order, k: Kind, bs: bytes): Option<(int, nat)>
    requires !k.Str? && ValidKind(k)
  {
    match k
    case UInt(w) => if |bs| < w then None else Some((FixedValue(o.hostLittle, o.little, bs[..w]), w))
    case SInt(w) =>
      if |bs| < w then None
      else
        FixedValueBound(o, bs[..w]);
        Some((ToSigned(8 * w, FixedValue(o.hostLittle, o.little, bs[..w])), w))
    case UVar(bits) =>
      (match ReadVarint(bs, bits) case None => None case Some((v, n)) => Some((v, n)))
    case SVar(bits) =>
      match ReadVarint(bs, bits)
      case None => None
      case Some((v, n)) => Some((DecodeZigzag(bits, v), n))
  }

  lemma FixedValueBound(o: Order, bs: bytes)
    ensures FixedValue(o.hostLittle, o.little, bs) < Pow2(8 * |bs|)
  {
    var mem := if o.hostLittle then bs else Reverse(bs);
    LittleInjective(mem);
    LittleInjective(Reverse(ToLittle(FromLittle(mem), |bs|)));
  }

  function Decode(o: Order, k: Kind, bs: bytes): Option<(Value, nat)>
    requires ValidKind(k)
  {
    if k.Str? then
      match DecodeNum(o, PrefixKind(k.prefix), bs)
      case None => None
      case Some((len, n)) =>
        if 0 <= len && n + len <= |bs| then Some((Text(bs[n..n + len]), n + len)) else None
    else
      match DecodeNum(o, k, bs)
      case None => None
      case Some((v, n)) => Some((Num(v), n))
  }

  /** How far a read that fails has moved on: past a length prefix, or past a varint without end. */
  function Skipped(o: Order, k: Kind, bs: bytes): nat
    requires ValidKind(k)
  {
    match k
    case UInt(_) => 0
    case SInt(_) => 0
    case UVar(_) => |bs|
    case SVar(_) => |bs|
    case Str(p) =>
      match DecodeNum(o, PrefixKind(p), bs)
      case None => if p.Uvarint? then |bs| else 0
      case Some((_, n)) => n
  }

  /** A string told from its length prefix. */
  lemma TextAfterPrefix(o: Order, p: Prefix, bs: bytes)
    requires ValidKind(Str(p)) && DecodeNum(o, PrefixKind(p), bs).Some?
    ensures var (len, n) := DecodeNum(o, PrefixKind(p), bs).value;
            && len >= 0 && n <= |bs|
            && Decode(o, Str(p), bs) == if len <= |bs[n..]| then Some((Text(bs[n..][..len]), n + len)) else None
  {
    var (len, n) := DecodeNum(o, PrefixKind(p), bs).value;
    if p.Uvarint? { VarintTailWithin(bs, 0, 64); }
    if len <= |bs[n..]| { DropTake(bs, n, len); }
  }

  lemma NumRoundTrip(wo: Order, ro: Order, k: Kind, n: int, rest: bytes)
    requires !k.Str? && ValidRec(Rec(k, Num(n))) && wo.little == ro.little
    ensures |EncodeNum(wo, k, n)| >= 1
    ensures DecodeNum(ro, k, EncodeNum(wo, k, n) + rest) == Some((n, |EncodeNum(wo, k, n)|))
  {
    FrontBack(EncodeNum(wo, k, n), rest);
    match k
    case UInt(w) =>
      FixedRoundTrip(wo.hostLittle, ro.hostLittle, wo.little, n, w);
    case SInt(w) =>
      FixedRoundTrip(wo.hostLittle, ro.hostLittle, wo.little, ToUnsigned(8 * w, n), w);
    case UVar(bits) =>
      VarintRoundTrip(n, bits, rest);
    case SVar(bits) =>
      ZigzagEncodeDecode(bits, n);
      VarintRoundTrip(EncodeZigzag(bits, n), bits, rest);
  }

  /** The length of a string fits its prefix. */
  predicate LengthFits(r: Rec)
  {
    r.kind.Str? && r.value.Text? ==> |r.value.s| < Pow2(PrefixBits(r.kind.prefix))
  }

  lemma Middle(a: bytes, b: bytes, c: bytes)
    ensures (a + (b + c))[|a|..|a| + |b|] == b
  {
  }

  /** A string comes back precisely when its length fits the prefix. */
  lemma TextRoundTrip(wo: Order, ro: Order, p: Prefix, s: bytes, rest: bytes)
    requires ValidKind(Str(p)) && wo.little == ro.little
    ensures var pre := EncodePrefix(wo, p, |s|);
            && |pre| >= 1
            && (Decode(ro, Str(p), pre + (s + rest)) == Some((Text(s), |pre| + |s|))
                <==> |s| < Pow2(PrefixBits(p)))
  {
    var m := Pow2(PrefixBits(p));
    NumRoundTrip(wo, ro, PrefixKind(p), |s| % m, s + rest);
    Middle(EncodePrefix(wo, p, |s|), s, rest);
    if |s| < m { ModSmall(|s|, m); }
  }

  /** A record comes back, taking exactly the bytes written, precisely when its length fits the
      prefix; the hosts that write and read may differ in byte order. */
  lemma RecordRoundTrip(wo: Order, ro: Order, r: Rec, rest: bytes)
    requires ValidRec(r) && wo.little == ro.little
    ensures |Encode(wo, r)| >= 1
    ensures Decode(ro, r.kind, Encode(wo, r) + rest) == Some((r.value, |Encode(wo, r)|)) <==> LengthFits(r)
  {
    if r.kind.Str? {
      TextRoundTrip(wo, ro, r.kind.prefix, r.value.s, rest);
      Assoc(EncodePrefix(wo, r.kind.prefix, |r.value.s|), r.value.s, rest);
    } else {
      NumRoundTrip(wo, ro, r.kind, r.value.n, rest);
    }
  }

  /** The 16-bit prefix of an empty string, or of one whose length is a multiple of 65536. */
  lemma ZeroPrefix(o: Order, len: nat)
    requires len % Pow2(16) == 0
    ensures EncodePrefix(o, Word(2), len) == [0, 0]
  {
    HostOrderInvisible(o.hostLittle, o.little, 0, 2);
    assert ToLittle(0, 2) == [0] + ToLittle(0, 1) && ToLittle(0, 1) == [0] + ToLittle(0, 0);
  }

  lemma ShortWord()
    ensures Pow2(16) == 0x1_0000
  {
    Pow2Values();
    Pow2Add(8, 8);
  }

  /** A string whose length is a multiple of 65536 comes back empty from behind a 16-bit prefix, and its bytes are
      left in front of the next read. */
  lemma WrapsToEmpty(o: Order, s: bytes, rest: bytes)
    requires |s| % Pow2(16) == 0
    ensures Decode(o, Str(Word(2)), Encode(o, Rec(Str(Word(2)), Text(s))) + rest) == Some((Text([]), 2))
  {
    ZeroPrefix(o, |s|);
    Assoc([0, 0], s, rest);
    NumRoundTrip(o, o, UInt(2), 0, s + rest);
    DropTake([0, 0] + (s + rest), 2, 0);
  }

  /** The least string that does not fit. */
  lemma LongTextIsLost(o: Order, rest: bytes)
    ensures var r := Rec(Str(Word(2)), Text(seq(0x1_0000, _ => 0)));
            && ValidRec(r) && Decode(o, r.kind, Encode(o, r) + rest) == Some((Text([]), 2))
  {
    ShortWord();
    WrapsToEmpty(o, seq(0x1_0000, _ => 0), rest);
  }

  // ----- lists of records -----

  predicate ValidAll(rs: seq<Rec>) { forall i :: 0 <= i < |rs| ==> ValidRec(rs[i]) && LengthFits(rs[i]) }

  function EncodeAll(o: Order, rs: seq<Rec>): bytes
    requires ValidAll(rs)
  {
    if rs == [] then [] else Encode(o, rs[0]) + EncodeAll(o, rs[1..])
  }

  function Kinds(rs: seq<Rec>): seq<Kind> { seq(|rs|, i requires 0 <= i < |rs| => rs[i].kind) }

  function Values(rs: seq<Rec>): seq<Value> { seq(|rs|, i requires 0 <= i < |rs| => rs[i].value) }

  lemma {:induction false} EncodeAllSnoc(o: Order, rs: seq<Rec>, r: Rec)
    requires ValidAll(rs) && ValidRec(r) && LengthFits(r)
    ensures ValidAll(rs + [r]) && EncodeAll(o, rs + [r]) == EncodeAll(o, rs) + Encode(o, r)
    decreases |rs|
  {
    var all := rs + [r];
    if rs == [] {
      assert all[1..] == [];
      assert Encode(o, r) + [] == [] + Encode(o, r);
    } else {
      assert all[1..] == rs[1..] + [r];
      EncodeAllSnoc(o, rs[1..], r);
      Assoc(Encode(o, rs[0]), EncodeAll(o, rs[1..]), Encode(o, r));
    }
  }

  /** The list ends with an empty string, whose body is read with nothing behind it. */
  predicate EndsEmpty(rs: seq<Rec>)
  {
    rs != [] && rs[|rs| - 1].kind.Str? && rs[|rs| - 1].value == Text([])
  }

  /** A prefix that announces zero bytes at the end of a record belongs to an empty string. */
  lemma PrefixOf(wo: Order, ro: Order, r: Rec, rest: bytes)
    requires ValidRec(r) && LengthFits(r) && r.kind.Str? && wo.little == ro.little
    ensures DecodeNum(ro, PrefixKind(r.kind.prefix), Encode(wo, r) + rest)
            == Some((|r.value.s|, |Encode(wo, r)| - |r.value.s|))
  {
    var s, p := r.value.s, r.kind.prefix;
    ModSmall(|s|, Pow2(PrefixBits(p)));
    NumRoundTrip(wo, ro, PrefixKind(p), |s|, s + rest);
    Assoc(EncodePrefix(wo, p, |s|), s, rest);
  }

  /** Decoding at the front of a written list gives its first record and leaves the others. */
  lemma FirstOfAll(wo: Order, ro: Order, rs: seq<Rec>, tail: bytes)
    requires ValidAll(rs) && rs != [] && wo.little == ro.little
    ensures var bs, n := EncodeAll(wo, rs) + tail, |Encode(wo, rs[0])|;
            && Decode(ro, rs[0].kind, bs) == Some((rs[0].value, n))
            && |EncodeAll(wo, rs)| == n + |EncodeAll(wo, rs[1..])|
            && bs[n..] == EncodeAll(wo, rs[1..]) + tail
            && (rs[0].kind.Str? ==>
                  DecodeNum(ro, PrefixKind(rs[0].kind.prefix), bs) == Some((|rs[0].value.s|, n - |rs[0].value.s|)))
    ensures |rs| > 1 ==> |EncodeAll(wo, rs[1..])| >= 1
  {
    var r, rest := rs[0], EncodeAll(wo, rs[1..]) + tail;
    Assoc(Encode(wo, r), EncodeAll(wo, rs[1..]), tail);
    assert (Encode(wo, r) + rest)[|Encode(wo, r)|..] == rest;
    RecordRoundTrip(wo, ro, r, rest);
    if r.kind.Str? {
      PrefixOf(wo, ro, r, rest);
    }
    if |rs| > 1 {
      RecordRoundTrip(wo, ro, rs[1], []);
    }
  }
}
