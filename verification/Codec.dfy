/** The integer codecs of ByteArray on plain byte strings. Unsigned values are naturals below
    `Pow2(bits)`; a signed value stands for its two's complement word. */
module Codec {
  import opened Bytes

  function Pow2(n: nat): (p: int)
    ensures p > 0
  {
    if n == 0 then 1 else 2 * Pow2(n - 1)
  }

  lemma Pow2Values()
    ensures Pow2(7) == 128 && Pow2(8) == 256
  {
    assert Pow2(2) == 4 && Pow2(4) == 4 * Pow2(2) && Pow2(6) == 4 * Pow2(4);
  }

  lemma {:induction false} Pow2Add(m: nat, n: nat)
    ensures Pow2(m + n) == Pow2(m) * Pow2(n)
  {
    if m > 0 { Pow2Add(m - 1, n); }
  }

  // ----- signed words -----

  predicate InSigned(bits: nat, v: int)
    requires bits > 0
  {
    -Pow2(bits - 1) <= v < Pow2(bits - 1)
  }

  /** The cast to the unsigned type of the same width. */
  function ToUnsigned(bits: nat, v: int): nat
    requires bits > 0 && InSigned(bits, v)
  {
    if v < 0 then v + Pow2(bits) else v
  }

  /** The cast back. */
  function ToSigned(bits: nat, u: nat): int
    requires bits > 0 && u < Pow2(bits)
  {
    if u < Pow2(bits - 1) then u else u - Pow2(bits)
  }

  // ----- zig-zag -----

  /** `(uint)(-v) * 2 - 1` or `v * 2`, every operation modulo the word size. */
  function EncodeZigzag(bits: nat, v: int): nat
    requires bits > 0 && InSigned(bits, v)
  {
    var m := Pow2(bits);
    if v < 0 then ((-v) % m * 2 - 1) % m else v * 2 % m
  }

  /** `(u >> 1) ^ -(u & 1)`: the half, complemented when the low bit is set, as a signed word. */
  function DecodeZigzag(bits: nat, u: nat): int
    requires bits > 0 && u < Pow2(bits)
  {
    var half := u / 2;
    ToSigned(bits, if u % 2 == 1 then Pow2(bits) - 1 - half else half)
  }

  lemma ModSmall(x: int, m: int)
    requires 0 <= x < m
    ensures x % m == x
  {
    DivModUnique(x, m, 0, x);
  }

  /** The modular arithmetic never actually wraps, not even at the least word. */
  lemma ZigzagValue(bits: nat, v: int)
    requires bits > 0 && InSigned(bits, v)
    ensures EncodeZigzag(bits, v) == if v < 0 then -2 * v - 1 else 2 * v
  {
    var m := Pow2(bits);
    if v < 0 {
      var x := -v;
      ModSmall(x, m);
      ModSmall(2 * x - 1, m);
    } else {
      ModSmall(v * 2, m);
    }
  }

  lemma UnzigzagValue(bits: nat, v: int, u: nat)
    requires bits > 0 && InSigned(bits, v) && u == if v < 0 then -2 * v - 1 else 2 * v
    ensures u < Pow2(bits) && DecodeZigzag(bits, u) == v
  {
    if v < 0 {
      assert u / 2 == -v - 1 && u % 2 == 1;
    } else {
      assert u / 2 == v && u % 2 == 0;
    }
  }

  /** Zig-zag is a bijection between signed and unsigned words that keeps small magnitudes small. */
  lemma ZigzagEncodeDecode(bits: nat, v: int)
    requires bits > 0 && InSigned(bits, v)
    ensures EncodeZigzag(bits, v) < Pow2(bits)
    ensures DecodeZigzag(bits, EncodeZigzag(bits, v)) == v
  {
    ZigzagValue(bits, v);
    UnzigzagValue(bits, v, EncodeZigzag(bits, v));
  }

  lemma ZigzagDecodeEncode(bits: nat, u: nat)
    requires bits > 0 && u < Pow2(bits)
    ensures InSigned(bits, DecodeZigzag(bits, u))
    ensures EncodeZigzag(bits, DecodeZigzag(bits, u)) == u
  {
    ZigzagValue(bits, DecodeZigzag(bits, u));
  }

  // ----- fixed width -----

  /** The bytes of `v`, least significant first. */
  function ToLittle(v: nat, w: nat): (bs: bytes)
    ensures |bs| == w
  {
    if w == 0 then [] else [v % 256] + ToLittle(v / 256, w - 1)
  }

  function FromLittle(bs: bytes): nat
  {
    if bs == [] then 0 else bs[0] + 256 * FromLittle(bs[1..])
  }

  function Reverse(s: bytes): (r: bytes)
    ensures |r| == |s| && forall i :: 0 <= i < |s| ==> r[i] == s[|s| - 1 - i]
  {
    seq(|s|, i requires 0 <= i < |s| => s[|s| - 1 - i])
  }

  lemma ReverseTwice(s: bytes)
    ensures Reverse(Reverse(s)) == s
  {
  }

  lemma {:induction false} LittleRoundTrip(v: nat, w: nat)
    requires v < Pow2(8 * w)
    ensures FromLittle(ToLittle(v, w)) == v
  {
    if w > 0 {
      Pow2Values();
      Pow2Add(8, 8 * (w - 1));
      LittleRoundTrip(v / 256, w - 1);
    }
  }

  lemma {:induction false} LittleInjective(bs: bytes)
    ensures FromLittle(bs) < Pow2(8 * |bs|)
    ensures ToLittle(FromLittle(bs), |bs|) == bs
  {
    if bs != [] {
      Pow2Values();
      Pow2Add(8, 8 * (|bs| - 1));
      LittleInjective(bs[1..]);
      var t := FromLittle(bs[1..]);
      assert (bs[0] + 256 * t) / 256 == t && (bs[0] + 256 * t) % 256 == bs[0];
    }
  }

  /** How a host lays a word out in memory, and back. */
  function ToMemory(hostLittle: bool, v: nat, w: nat): bytes
  {
    if hostLittle then ToLittle(v, w) else Reverse(ToLittle(v, w))
  }

  function FromMemory(hostLittle: bool, bs: bytes): nat
  {
    FromLittle(if hostLittle then bs else Reverse(bs))
  }

  /** `byteswap` for a word of `w` bytes. */
  function ByteSwap(v: nat, w: nat): nat { FromLittle(Reverse(ToLittle(v, w))) }

  /** What `writeF*` hands to `write` on a given host under a given stream order. */
  function FixedBytes(hostLittle: bool, little: bool, v: nat, w: nat): bytes
  {
    ToMemory(hostLittle, if little != hostLittle then ByteSwap(v, w) else v, w)
  }

  /** What `readF*` makes of the bytes it read. */
  function FixedValue(hostLittle: bool, little: bool, bs: bytes): nat
  {
    var v := FromMemory(hostLittle, bs);
    if little != hostLittle then ByteSwap(v, |bs|) else v
  }

  lemma SwapBytes(v: nat, w: nat)
    ensures ToLittle(ByteSwap(v, w), w) == Reverse(ToLittle(v, w))
  {
    LittleInjective(Reverse(ToLittle(v, w)));
  }

  /** The wire format depends on the stream's byte order only, never on the host's. */
  lemma HostOrderInvisible(hostLittle: bool, little: bool, v: nat, w: nat)
    ensures FixedBytes(hostLittle, little, v, w) == if little then ToLittle(v, w) else Reverse(ToLittle(v, w))
  {
    SwapBytes(v, w);
    ReverseTwice(ToLittle(v, w));
  }

  /** Writer and reader may even run on hosts of different order. */
  lemma FixedRoundTrip(writer: bool, reader: bool, little: bool, v: nat, w: nat)
    requires v < Pow2(8 * w)
    ensures FixedValue(reader, little, FixedBytes(writer, little, v, w)) == v
  {
    var bs := FixedBytes(writer, little, v, w);
    HostOrderInvisible(writer, little, v, w);
    LittleRoundTrip(v, w);
    ReverseTwice(ToLittle(v, w));
    if little != reader {
      var mem := if reader then bs else Reverse(bs);
      assert mem == Reverse(ToLittle(v, w));
      LittleInjective(mem);
    }
  }

  // ----- base 128 varints -----

  /** Seven bits a byte, low bits first, the high bit set on all but the last. */
  function Varint(v: nat): (bs: bytes)
    ensures |bs| >= 1
  {
    if v < 128 then [v] else [128 + v % 128] + Varint(v / 128)
  }

  /** `x << i`, before it is cut to the word. */
  function Shl(x: nat, i: nat): nat
  {
    if i == 0 then x else 2 * Shl(x, i - 1)
  }

  lemma {:induction false} ShlMul(x: nat, i: nat)
    ensures Shl(x, i) == x * Pow2(i)
  {
    if i > 0 { ShlMul(x, i - 1); }
  }

  /** What the reader makes of `bs` when it stands at bit `shift` of a `bits`-bit word: the value
      gathered and the bytes taken, or nothing when the bytes run out. */
  function VarintTail(bs: bytes, shift: nat, bits: nat): Option<(nat, nat)>
    decreases if shift < bits then bits - shift else 0
  {
    if shift >= bits then Some((0, 0))
    else if bs == [] then None
    else if bs[0] < 128 then Some((Shl(bs[0], shift), 1))
    else
      match VarintTail(bs[1..], shift + 7, bits)
      case None => None
      case Some((v, n)) => Some((Shl(bs[0] - 128, shift) + v, n + 1))
  }

  function ReadVarint(bs: bytes, bits: nat): Option<(nat, nat)>
  {
    match VarintTail(bs, 0, bits)
    case None => None
    case Some((v, n)) => Some((v % Pow2(bits), n))
  }

  /** The most bytes a `bits`-bit word can take: 5 for 32 bits, 10 for 64. */
  function VarintMax(bits: nat): nat { (bits + 6) / 7 }

  lemma {:induction false} VarintTailWithin(bs: bytes, shift: nat, bits: nat)
    ensures match VarintTail(bs, shift, bits) case None => true case Some((_, n)) => n <= |bs|
    decreases |bs|
  {
    if shift < bits && bs != [] && bs[0] >= 0x80 { VarintTailWithin(bs[1..], shift + 7, bits); }
  }

  lemma {:induction false} VarintTailRoundTrip(v: nat, shift: nat, bits: nat, rest: bytes)
    requires shift < bits && v < Pow2(bits - shift)
    ensures |Varint(v)| <= VarintMax(bits - shift)
    ensures VarintTail(Varint(v) + rest, shift, bits) == Some((Shl(v, shift), |Varint(v)|))
    decreases v
  {
    var bs := Varint(v) + rest;
    if v >= 128 {
      Pow2Values();
      if bits - shift <= 7 { Pow2Mono(bits - shift, 7); }
      Pow2Add(7, bits - shift - 7);
      VarintTailRoundTrip(v / 128, shift + 7, bits, rest);
      assert bs[1..] == Varint(v / 128) + rest;
      Pow2Add(7, shift);
      ShlMul(v % 128, shift);
      ShlMul(v / 128, shift + 7);
      ShlMul(v, shift);
      ShiftJoin(v % 128, v / 128, Pow2(shift));
    }
  }

  lemma ShiftJoin(lo: nat, hi: nat, p: nat)
    ensures lo * p + hi * (128 * p) == (lo + 128 * hi) * p
  {
  }

  lemma {:induction false} Pow2Mono(m: nat, n: nat)
    requires m <= n
    ensures Pow2(m) <= Pow2(n)
  {
    if m < n { Pow2Mono(m, n - 1); }
  }

  /** Writing then reading a varint is the identity, whatever follows it, and takes exactly the
      bytes written, of which there are at most 5 or 10. */
  lemma VarintRoundTrip(v: nat, bits: nat, rest: bytes)
    requires bits > 0 && v < Pow2(bits)
    ensures |Varint(v)| <= VarintMax(bits)
    ensures ReadVarint(Varint(v) + rest, bits) == Some((v, |Varint(v)|))
  {
    VarintTailRoundTrip(v, 0, bits, rest);
    assert Shl(v, 0) == v;
    DivModUnique(v, Pow2(bits), 0, v);
  }

  lemma VarintFits(v: nat, bits: nat)
    requires bits > 0 && v < Pow2(bits)
    ensures |Varint(v)| <= VarintMax(bits)
  {
    VarintRoundTrip(v, bits, []);
  }

  /** The encoding loop with its stack buffer of 5 or 10 bytes: the index never leaves it. */
  method EncodeVarint(v: nat, bits: nat) returns (bs: bytes)
    requires (bits == 32 || bits == 64) && v < Pow2(bits)
    ensures bs == Varint(v)
  {
    VarintFits(v, bits);
    var tmp := new byte[if bits == 32 then 5 else 10];
    var rest, i := v, 0;
    while rest >= 0x80
      invariant 0 <= i < tmp.Length && i + |Varint(rest)| == |Varint(v)| <= tmp.Length
      invariant tmp[..i] + Varint(rest) == Varint(v)
      decreases rest
    {
      ghost var done, group := tmp[..i], [rest % 0x80 + 0x80];
      Assoc(done, group, Varint(rest / 0x80));
      tmp[i] := rest % 0x80 + 0x80;
      assert tmp[..i + 1] == done + group;
      i, rest := i + 1, rest / 0x80;
    }
    tmp[i] := rest;
    bs := tmp[..i + 1];
  }
}
