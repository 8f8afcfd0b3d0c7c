/** The bit-accumulator Base64 encoder (section 4 of RFC 4648) against the three-byte-group definition. */
module Base64 {
  import opened Bytes

  type sextet = v: int | 0 <= v < 64

  const PAD: byte := 61

  /** The alphabet: A-Z, a-z, 0-9, '+', '/'. */
  function Symbol(v: sextet): byte {
    if v < 26 then 65 + v else if v < 52 then 71 + v else if v < 62 then v - 4 else if v == 62 then 43 else 47
  }

  function Symbols(vs: seq<sextet>): bytes {
    seq(|vs|, i requires 0 <= i < |vs| => Symbol(vs[i]))
  }

  /** The position of a symbol in the alphabet, or -1. */
  function Position(c: byte): (v: int)
    ensures -1 <= v < 64
    ensures v >= 0 ==> Symbol(v) == c
  {
    if 65 <= c <= 90 then c - 65 else if 97 <= c <= 122 then c - 71 else if 48 <= c <= 57 then c + 4
    else if c == 43 then 62 else if c == 47 then 63 else -1
  }

  /** The definition: each group of three bytes is four symbols; one or two bytes left over are zero
      filled to whole sextets and padded to four symbols. */
  function Encoded(s: bytes): bytes {
    if s == [] then []
    else if |s| < 3 then Symbols(Short(s)) + Padding(|s|)
    else Symbols(Group(s[0], s[1], s[2])) + Encoded(s[3..])
  }

  function Short(s: bytes): seq<sextet>
    requires 1 <= |s| <= 2
  {
    if |s| == 1 then Group(s[0], 0, 0)[..2] else Group(s[0], s[1], 0)[..3]
  }

  function Padding(n: nat): bytes {
    if n % 3 == 0 then [] else if n % 3 == 1 then [PAD, PAD] else [PAD]
  }

  function Group(a: byte, b: byte, c: byte): seq<sextet> {
    [a / 4, a % 4 * 16 + b / 16, b % 16 * 4 + c / 64, c % 64]
  }

  /** Four sextets as three bytes. */
  function Join(w: sextet, x: sextet, y: sextet, z: sextet): bytes {
    [w * 4 + x / 16, x % 16 * 16 + y / 4, y % 4 * 64 + z]
  }

  lemma JoinGroup(a: byte, b: byte, c: byte)
    ensures var g := Group(a, b, c); Join(g[0], g[1], g[2], g[3]) == [a, b, c]
  {
    DivModUnique(a % 4 * 16 + b / 16, 16, a % 4, b / 16);
    DivModUnique(b % 16 * 4 + c / 64, 4, b % 16, c / 64);
  }

  lemma GroupJoin(w: sextet, x: sextet, y: sextet, z: sextet)
    ensures var j := Join(w, x, y, z); Group(j[0], j[1], j[2]) == [w, x, y, z]
  {
    DivModUnique(w * 4 + x / 16, 4, w, x / 16);
    DivModUnique(x % 16 * 16 + y / 4, 16, x % 16, y / 4);
    DivModUnique(y % 4 * 64 + z, 64, y % 4, z);
  }

  lemma {:induction false} Length(s: bytes)
    ensures |Encoded(s)| == 4 * ((|s| + 2) / 3)
  {
    if |s| > 3 { Length(s[3..]); }
  }

  datatype Decoding = Bytes(value: bytes) | Malformed

  /** A strict decoder, read off the definition: whole groups of four symbols, padding only in the
      last group and only over zero bits. */
  function Decode(t: bytes): Decoding
  {
    if t == [] then Bytes([])
    else if |t| < 4 then Malformed
    else
      var a, b, c, d := Position(t[0]), Position(t[1]), Position(t[2]), Position(t[3]);
      if a < 0 || b < 0 then Malformed
      else if |t| == 4 && t[2] == PAD && t[3] == PAD then
        if b % 16 == 0 then Bytes([a * 4 + b / 16]) else Malformed
      else if c < 0 then Malformed
      else if |t| == 4 && t[3] == PAD then
        if c % 4 == 0 then Bytes([a * 4 + b / 16, b % 16 * 16 + c / 4]) else Malformed
      else if d < 0 then Malformed
      else match Decode(t[4..])
        case Malformed => Malformed
        case Bytes(rest) => Bytes(Join(a, b, c, d) + rest)
  }

  lemma PositionOf(v: sextet)
    ensures Position(Symbol(v)) == v && Symbol(v) != PAD
  {
  }

  /** One whole group in front of a text. */
  lemma DecodeGroup(g: seq<sextet>, t: bytes)
    requires |g| == 4 && Decode(t).Bytes?
    ensures Decode(Symbols(g) + t) == Bytes(Join(g[0], g[1], g[2], g[3]) + Decode(t).value)
  {
    var u := Symbols(g) + t;
    PositionOf(g[0]);
    PositionOf(g[1]);
    PositionOf(g[2]);
    PositionOf(g[3]);
    assert u[4..] == t;
  }

  /** Decoding inverts encoding, for every byte string. */
  lemma {:induction false} DecodeEncode(s: bytes)
    ensures Decode(Encoded(s)) == Bytes(s)
  {
    if |s| == 1 {
      PositionOf(s[0] / 4);
      PositionOf(s[0] % 4 * 16);
    } else if |s| == 2 {
      DecodeTwo(s[0], s[1]);
      assert s == [s[0], s[1]];
    } else if |s| >= 3 {
      DecodeEncode(s[3..]);
      DecodeGroup(Group(s[0], s[1], s[2]), Encoded(s[3..]));
      JoinGroup(s[0], s[1], s[2]);
      assert s == [s[0], s[1], s[2]] + s[3..];
    }
  }

  lemma DecodeTwo(a: byte, b: byte)
    ensures Decode(Encoded([a, b])) == Bytes([a, b])
  {
    var x: sextet, y: sextet := a % 4 * 16 + b / 16, b % 16 * 4;
    PositionOf(a / 4);
    PositionOf(x);
    PositionOf(y);
    DivModUnique(x, 16, a % 4, b / 16);
    DivModUnique(y, 4, b % 16, 0);
    assert Encoded([a, b]) == [Symbol(a / 4), Symbol(x), Symbol(y), PAD];
  }

  /** A text the strict decoder takes is the encoding of what it gives: encoding is a bijection onto
      the canonical texts. */
  lemma {:induction false} EncodeDecode(t: bytes)
    requires Decode(t).Bytes?
    ensures Encoded(Decode(t).value) == t
  {
    if t != [] {
      if |t| == 4 && t[3] == PAD {
        assert t == [t[0], t[1], t[2], PAD];
        EncodePadded(t[0], t[1], t[2]);
      } else {
        EncodeDecode(t[4..]);
        EncodeWhole(t);
      }
    }
  }

  lemma PadTwo(p: byte, q: byte)
    requires Position(p) >= 0 && Position(q) >= 0 && Position(q) % 16 == 0
    ensures Encoded([Position(p) * 4 + Position(q) / 16]) == [p, q, PAD, PAD]
  {
    ShortOne(Position(p), Position(q));
  }

  lemma PadOne(p: byte, q: byte, r: byte)
    requires Position(p) >= 0 && Position(q) >= 0 && Position(r) >= 0 && Position(r) % 4 == 0
    ensures Encoded([Position(p) * 4 + Position(q) / 16, Position(q) % 16 * 16 + Position(r) / 4]) == [p, q, r, PAD]
  {
    ShortTwo(Position(p), Position(q), Position(r));
  }

  lemma DecodePadded(p: byte, q: byte, r: byte)
    requires Decode([p, q, r, PAD]).Bytes?
    ensures Position(p) >= 0 && Position(q) >= 0
    ensures r == PAD ==> Position(q) % 16 == 0 && Decode([p, q, r, PAD]) == Bytes([Position(p) * 4 + Position(q) / 16])
    ensures r != PAD ==>
              && Position(r) >= 0 && Position(r) % 4 == 0
              && Decode([p, q, r, PAD])
                 == Bytes([Position(p) * 4 + Position(q) / 16, Position(q) % 16 * 16 + Position(r) / 4])
  {
  }

  lemma EncodePadded(p: byte, q: byte, r: byte)
    requires Decode([p, q, r, PAD]).Bytes?
    ensures Encoded(Decode([p, q, r, PAD]).value) == [p, q, r, PAD]
  {
    DecodePadded(p, q, r);
    if r == PAD {
      PadTwo(p, q);
    } else {
      PadOne(p, q, r);
    }
  }

  lemma ShortOne(a: sextet, b: sextet)
    requires b % 16 == 0
    ensures Short([a * 4 + b / 16]) == [a, b]
  {
    DivModUnique(a * 4 + b / 16, 4, a, b / 16);
  }

  lemma ShortTwo(a: sextet, b: sextet, c: sextet)
    requires c % 4 == 0
    ensures Short([a * 4 + b / 16, b % 16 * 16 + c / 4]) == [a, b, c]
  {
    GroupJoin(a, b, c, 0);
  }

  lemma EncodeWhole(t: bytes)
    requires |t| >= 4 && Decode(t).Bytes? && !(|t| == 4 && t[3] == PAD)
    requires Decode(t[4..]).Bytes? ==> Encoded(Decode(t[4..]).value) == t[4..]
    ensures Encoded(Decode(t).value) == t
  {
    var a, b, c, d := Position(t[0]), Position(t[1]), Position(t[2]), Position(t[3]);
    var rest := Decode(t[4..]).value;
    WholeGroup(t[0], t[1], t[2], t[3]);
    EncodedGroup(Join(a, b, c, d), rest);
    FirstFour(t);
  }

  lemma FirstFour(t: bytes)
    requires |t| >= 4
    ensures [t[0], t[1], t[2], t[3]] + t[4..] == t
  {
  }

  lemma WholeGroup(p: byte, q: byte, r: byte, s: byte)
    requires Position(p) >= 0 && Position(q) >= 0 && Position(r) >= 0 && Position(s) >= 0
    ensures var j := Join(Position(p), Position(q), Position(r), Position(s));
            Symbols(Group(j[0], j[1], j[2])) == [p, q, r, s]
  {
    GroupJoin(Position(p), Position(q), Position(r), Position(s));
  }

  lemma EncodedGroup(j: bytes, rest: bytes)
    requires |j| == 3
    ensures Encoded(j + rest) == Symbols(Group(j[0], j[1], j[2])) + Encoded(rest)
  {
    assert (j + rest)[3..] == rest;
  }

  /** A signed 32-bit value after overflow. */
  function Wrap32(v: int): (r: int)
    ensures -0x8000_0000 <= r < 0x8000_0000
    ensures r % 4096 == v % 4096
  {
    var w := (v + 0x8000_0000) % 0x1_0000_0000;
    LowBits(v + 0x8000_0000);
    w - 0x8000_0000
  }

  lemma LowBits(v: int)
    ensures v % 0x1_0000_0000 % 4096 == v % 4096
  {
  }

  /** `2^k` for the shifts the encoder makes. */
  function Weight(k: int): nat
    requires k in {0, 2, 4, 6}
  {
    if k == 0 then 1 else if k == 2 then 4 else if k == 4 then 16 else 64
  }

  /** What the loop has pushed after whole input `s`: all sextets that are complete. */
  function Complete(s: bytes): seq<sextet> {
    if s == [] then []
    else if |s| == 1 then [s[0] / 4]
    else if |s| == 2 then [s[0] / 4, s[0] % 4 * 16 + s[1] / 16]
    else Group(s[0], s[1], s[2]) + Complete(s[3..])
  }

  /** The sextets one more byte completes. */
  function Completes(s: bytes, c: byte): seq<sextet> {
    if |s| % 3 == 0 then [c / 4]
    else if |s| % 3 == 1 then [s[|s| - 1] % 4 * 16 + c / 16]
    else [s[|s| - 1] % 16 * 4 + c / 64, c % 64]
  }

  lemma CompletesTail(s: bytes, c: byte)
    requires |s| >= 3
    ensures Completes(s, c) == Completes(s[3..], c)
  {
    var t := s[3..];
    assert |t| % 3 == |s| % 3;
    if t != [] { assert t[|t| - 1] == s[|s| - 1]; }
  }

  lemma {:induction false} CompleteNext(s: bytes, c: byte)
    ensures Complete(s + [c]) == Complete(s) + Completes(s, c)
  {
    var u := s + [c];
    if |s| >= 3 {
      CompleteNext(s[3..], c);
      CompletesTail(s, c);
      assert u[3..] == s[3..] + [c];
      var g, x, y := Group(s[0], s[1], s[2]), Complete(s[3..]), Completes(s, c);
      assert Complete(u) == g + (x + y);
      assert g + (x + y) == (g + x) + y;
    } else if |s| == 2 {
      assert u[3..] == [];
      assert Complete(u) == Group(s[0], s[1], c) + [];
    } else if |s| == 1 {
      assert Complete(u) == [s[0] / 4] + Completes(s, c);
    } else {
      assert Complete(u) == [] + Completes(s, c);
    }
  }

  /** The bits still in the accumulator. */
  function Pending(s: bytes): seq<sextet> {
    if |s| % 3 == 0 then []
    else if |s| % 3 == 1 then [s[|s| - 1] % 4 * 16]
    else [s[|s| - 1] % 16 * 4]
  }

  lemma SymbolsConcat(a: seq<sextet>, b: seq<sextet>)
    ensures Symbols(a + b) == Symbols(a) + Symbols(b)
  {
  }

  lemma PendingTail(s: bytes)
    requires |s| >= 3
    ensures Pending(s) == Pending(s[3..]) && Padding(|s|) == Padding(|s[3..]|)
  {
    var t := s[3..];
    assert |t| % 3 == |s| % 3;
    if t != [] { assert t[|t| - 1] == s[|s| - 1]; }
  }

  lemma {:induction false} CompleteLength(s: bytes)
    ensures (|Complete(s)| + |Pending(s)| + |Padding(|s|)|) % 4 == 0
  {
    if |s| >= 3 {
      CompleteLength(s[3..]);
      PendingTail(s);
    }
  }

  lemma {:induction false} EncodedIsComplete(s: bytes)
    ensures Encoded(s) == Symbols(Complete(s)) + Symbols(Pending(s)) + Padding(|s|)
  {
    if |s| >= 3 {
      var g, a, b, c := Symbols(Group(s[0], s[1], s[2])), Complete(s[3..]), Symbols(Pending(s)), Padding(|s|);
      EncodedIsComplete(s[3..]);
      PendingTail(s);
      SymbolsConcat(Group(s[0], s[1], s[2]), a);
      Assoc4(g, Symbols(a), b, c);
    } else if |s| > 0 {
      SymbolsConcat(Complete(s), Pending(s));
      assert Complete(s) + Pending(s) == Short(s);
    }
  }

  /** The bits the next sextet takes from the accumulator. */
  predicate Holds(val: int, valb: int, s: bytes) {
    && valb == (if |s| % 3 == 0 then -6 else if |s| % 3 == 1 then -4 else -2)
    && (|s| % 3 == 1 ==> val % 4 == s[|s| - 1] % 4)
    && (|s| % 3 == 2 ==> val % 16 == s[|s| - 1] % 16)
  }

  lemma Take(next: int, w: nat, hi: int, mid: int, lo: int)
    requires next == (hi * 64 + mid) * w + lo && 0 <= mid < 64 && 0 <= lo < w
    ensures next / w % 64 == mid
  {
    DivModUnique(next, w, hi * 64 + mid, lo);
    DivModUnique(hi * 64 + mid, 64, hi, mid);
  }

  /** Overflow is harmless: only the low twelve bits are ever looked at. */
  lemma LowTwelve(val: int, c: byte, next: int) returns (q: int, t: int)
    requires next % 4096 == (val * 256 + c) % 4096
    ensures next == q * 4096 + val % 16 * 256 + c
    ensures val % 16 == 4 * t + val % 4
  {
    var k := val / 16;
    assert val * 256 + c == 4096 * k + (val % 16 * 256 + c);
    DivModUnique(val * 256 + c, 4096, k, val % 16 * 256 + c);
    q := next / 4096;
    t := val % 16 / 4;
    DivModUnique(val, 4, 4 * k + t, val % 16 % 4);
  }

  /** The accumulator after one more byte, by how many bits were pending. */
  lemma AfterNone(val: int, c: byte, next: int)
    requires next % 4096 == (val * 256 + c) % 4096
    ensures next / 4 % 64 == c / 4 && next % 4 == c % 4
  {
    var q, t := LowTwelve(val, c, next);
    Take(next, 4, q * 16 + val % 16, c / 4, c % 4);
    DivModUnique(next, 4, (q * 16 + val % 16) * 64 + c / 4, c % 4);
  }

  lemma AfterTwo(val: int, c: byte, next: int)
    requires next % 4096 == (val * 256 + c) % 4096
    ensures next / 16 % 64 == val % 4 * 16 + c / 16 && next % 16 == c % 16
  {
    var q, t := LowTwelve(val, c, next);
    Take(next, 16, q * 4 + t, val % 4 * 16 + c / 16, c % 16);
    DivModUnique(next, 16, (q * 4 + t) * 64 + (val % 4 * 16 + c / 16), c % 16);
  }

  lemma AfterFour(val: int, c: byte, next: int)
    requires next % 4096 == (val * 256 + c) % 4096
    ensures next / 64 % 64 == val % 16 * 4 + c / 64 && next % 64 == c % 64
  {
    var q, t := LowTwelve(val, c, next);
    Take(next, 64, q, val % 16 * 4 + c / 64, c % 64);
    DivModUnique(next, 64, q * 64 + (val % 16 * 4 + c / 64), c % 64);
  }

  lemma Sextets(val: int, valb: int, s: bytes, c: byte, next: int)
    requires Holds(val, valb, s) && next % 4096 == (val * 256 + c) % 4096
    ensures valb + 8 in {2, 4, 6}
    ensures Completes(s, c)[0] == next / Weight(valb + 8) % 64
    ensures |Completes(s, c)| == (if valb == -2 then 2 else 1)
    ensures valb == -2 ==> Completes(s, c)[1] == next % 64
    ensures Holds(next, if valb == -2 then -6 else valb + 2, s + [c])
  {
    var u := s + [c];
    assert u[|u| - 1] == c;
    if valb == -6 {
      AfterNone(val, c, next);
    } else if valb == -4 {
      AfterTwo(val, c, next);
    } else {
      AfterFour(val, c, next);
    }
  }

  /** The inner loop: push every sextet that is complete. */
  method PushSextets(before: bytes, val: int, at: int, ghost more: seq<sextet>) returns (out: bytes, valb: int)
    requires at in {2, 4, 6} && |more| == (if at == 6 then 2 else 1)
    requires more[0] == val / Weight(at) % 64 && (at == 6 ==> more[1] == val % 64)
    ensures out == before + Symbols(more) && valb == (if at == 6 then -6 else at - 6)
  {
    out, valb := before, at;
    while valb >= 0
      invariant valb in {at, at - 6, at - 12}
      invariant valb == at ==> out == before
      invariant valb == at - 6 ==> out == before + [Symbol(more[0])]
      invariant valb == at - 12 ==> |more| == 2 && out == before + [Symbol(more[0]), Symbol(more[1])]
    {
      out := out + [Symbol(val / Weight(valb) % 64)];
      valb := valb - 6;
    }
  }

  method Encode(s: bytes) returns (out: bytes)
    ensures out == Encoded(s)
  {
    out := [];
    var val, valb := 0, -6;
    for i := 0 to |s|
      invariant Holds(val, valb, s[..i])
      invariant out == Symbols(Complete(s[..i]))
    {
      var next := Wrap32(val * 256 + s[i]);
      ghost var more := Completes(s[..i], s[i]);
      Sextets(val, valb, s[..i], s[i], next);
      CompleteNext(s[..i], s[i]);
      assert s[..i] + [s[i]] == s[..i + 1];
      SymbolsConcat(Complete(s[..i]), more);
      val := next;
      out, valb := PushSextets(out, val, valb + 8, more);
    }
    assert s[..|s|] == s;
    EncodedIsComplete(s);
    CompleteLength(s);
    if valb > -6 {
      LastSextet(val, valb, s);
      out := out + [Symbol(Wrap32(val * 256) / Weight(valb + 8) % 64)];
    }
    out := Pad(out, Padding(|s|));
  }

  lemma LastSextet(val: int, valb: int, s: bytes)
    requires Holds(val, valb, s) && valb > -6
    ensures valb + 8 in {4, 6}
    ensures Pending(s) == [Wrap32(val * 256) / Weight(valb + 8) % 64]
  {
    var next := Wrap32(val * 256);
    var q, t := LowTwelve(val, 0, next);
    if valb == -4 {
      Take(next, 16, q * 4 + t, val % 4 * 16, 0);
    } else {
      Take(next, 64, q, val % 16 * 4, 0);
    }
  }

  /** The last loop: fill up to whole groups of four. */
  method Pad(text: bytes, ghost padding: bytes) returns (out: bytes)
    requires (|text| + |padding|) % 4 == 0 && |padding| < 4
    requires forall i :: 0 <= i < |padding| ==> padding[i] == PAD
    ensures out == text + padding
  {
    out := text;
    while |out| % 4 != 0
      invariant |text| <= |out| <= |text| + |padding| && out == text + padding[..|out| - |text|]
      decreases |text| + |padding| - |out|
    {
      assert padding[|out| - |text|] == PAD;
      out := out + [PAD];
    }
  }
}
