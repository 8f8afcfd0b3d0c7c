/** Base64 texts symbol by symbol, on the literal alphabet of section 4 of RFC 4648. */
module Base64Symbols {
  import opened Bytes
  import opened Base64

  const CAPITALS: bytes := [65, 66, 67, 68, 69, 70, 71, 72, 73, 74, 75, 76, 77, 78, 79, 80, 81, 82, 83, 84, 85, 86, 87, 88, 89, 90]
  const SMALL: bytes := [97, 98, 99, 100, 101, 102, 103, 104, 105, 106, 107, 108, 109,
                         110, 111, 112, 113, 114, 115, 116, 117, 118, 119, 120, 121, 122]
  const FIGURES: bytes := [48, 49, 50, 51, 52, 53, 54, 55, 56, 57]

  const ALPHABET: bytes := CAPITALS + SMALL + FIGURES + [43, 47]

  lemma Capital(v: sextet)
    requires v < 26
    ensures |CAPITALS| == 26 && Symbol(v) == CAPITALS[v]
  {
  }

  lemma Lower(v: sextet)
    requires 26 <= v < 52
    ensures |SMALL| == 26 && Symbol(v) == SMALL[v - 26]
  {
  }

  lemma SymbolMeaning(v: sextet)
    ensures |ALPHABET| == 64 && Symbol(v) == ALPHABET[v]
  {
    Capital(if v < 26 then v else 0);
    Lower(if 26 <= v < 52 then v else 26);
  }

  /** A byte of the text, or zero behind its end. */
  function Filled(s: bytes, i: nat): byte { if i < |s| then s[i] else 0 }

  /** Three bytes as one number of 24 bits. */
  function Number(s: bytes, i: nat): nat { 65536 * Filled(s, 3 * i) + 256 * Filled(s, 3 * i + 1) + Filled(s, 3 * i + 2) }

  const PLACES: seq<nat> := [262144, 4096, 64, 1]

  lemma GroupNumber(a: byte, b: byte, c: byte)
    ensures 65536 * a + 256 * b + c
         == 262144 * (a / 4) + 4096 * (a % 4 * 16 + b / 16) + 64 * (b % 16 * 4 + c / 64) + c % 64
  {
    assert a == 4 * (a / 4) + a % 4 && b == 16 * (b / 16) + b % 16 && c == 64 * (c / 64) + c % 64;
  }

  lemma SixBits(w: sextet, x: sextet, y: sextet, z: sextet)
    ensures var n := 262144 * w + 4096 * x + 64 * y + z;
            n / 262144 % 64 == w && n / 4096 % 64 == x && n / 64 % 64 == y && n / 1 % 64 == z
  {
    var n := 262144 * w + 4096 * x + 64 * y + z;
    DivModUnique(n, 262144, w, 4096 * x + 64 * y + z);
    DivModUnique(n, 4096, 64 * w + x, 64 * y + z);
    DivModUnique(64 * w + x, 64, w, x);
    DivModUnique(n, 64, 4096 * w + 64 * x + y, z);
    DivModUnique(4096 * w + 64 * x + y, 64, 64 * w + x, y);
  }

  lemma GroupBits(a: byte, b: byte, c: byte, k: nat)
    requires k < 4
    ensures Group(a, b, c)[k] == (65536 * a + 256 * b + c) / PLACES[k] % 64
  {
    var g := Group(a, b, c);
    GroupNumber(a, b, c);
    SixBits(g[0], g[1], g[2], g[3]);
  }

  /** The six bits at place `k` of group `i`, as a symbol, or padding. */
  function Place(s: bytes, i: nat, k: nat): byte
    requires k < 4
  {
    if 3 * i + k <= |s| then Symbol(Number(s, i) / PLACES[k] % 64) else 61
  }

  /** Each symbol of an encoded text: of four symbols for three bytes, the one that stands for the six bits at its place;
      behind the end of the text, bits are zero, and symbols without any bit of it are `=`. */
  lemma SymbolAt(s: bytes, i: nat, k: nat)
    requires 3 * i < |s| && k < 4
    ensures 4 * i + k < |Encoded(s)|
    ensures Encoded(s)[4 * i + k] == if 3 * i + k <= |s| then ALPHABET[Number(s, i) / PLACES[k] % 64] else 61
  {
    FirstSymbols(s[3 * i..], k);
    LaterGroup(s, i, k);
    GroupPlace(s, i, k);
    SymbolMeaning(Number(s, i) / PLACES[k] % 64);
  }

  /** Group `i` of a text is encoded as the first group of what is left from there. */
  lemma {:induction false} LaterGroup(s: bytes, i: nat, k: nat)
    requires 3 * i < |s| && k < |Encoded(s[3 * i..])|
    ensures 4 * i + k < |Encoded(s)| && Encoded(s)[4 * i + k] == Encoded(s[3 * i..])[k]
    decreases i
  {
    if i > 0 {
      DropDrop(s, 3, 3 * i - 3);
      LaterGroup(s[3..], i - 1, k);
      LaterSymbol(s, 4 * i + k);
    } else {
      assert s[0..] == s;
    }
  }

  lemma GroupPlace(s: bytes, i: nat, k: nat)
    requires 3 * i < |s| && k < 4
    ensures Place(s[3 * i..], 0, k) == Place(s, i, k)
  {
    assert Number(s[3 * i..], 0) == Number(s, i);
  }

  lemma LaterSymbol(s: bytes, j: nat)
    requires |s| >= 3 && j >= 4
    ensures |Encoded(s)| == 4 + |Encoded(s[3..])|
    ensures j < |Encoded(s)| ==> Encoded(s)[j] == Encoded(s[3..])[j - 4]
  {
    assert |Symbols(Group(s[0], s[1], s[2]))| == 4;
  }

  lemma FirstSymbols(s: bytes, k: nat)
    requires s != [] && k < 4
    ensures |Encoded(s)| >= 4 && Encoded(s)[k] == Place(s, 0, k)
  {
    var g := Group(Filled(s, 0), Filled(s, 1), Filled(s, 2));
    GroupBits(Filled(s, 0), Filled(s, 1), Filled(s, 2), k);
    FirstNumber(s);
    if |s| < 3 { ShortSymbols(s, k); } else { WholeSymbols(s, k); }
    assert g[k] == Number(s, 0) / PLACES[k] % 64;
  }

  lemma FirstNumber(s: bytes)
    ensures Number(s, 0) == 65536 * Filled(s, 0) + 256 * Filled(s, 1) + Filled(s, 2)
  {
  }

  lemma ShortSymbols(s: bytes, k: nat)
    requires 1 <= |s| <= 2 && k < 4
    ensures |Encoded(s)| == 4
    ensures Encoded(s)[k] == if k <= |s| then Symbol(Group(Filled(s, 0), Filled(s, 1), Filled(s, 2))[k]) else 61
  {
    assert Encoded(s) == Symbols(Short(s)) + Padding(|s|);
    assert |Short(s)| == |s| + 1 && |Padding(|s|)| == 3 - |s|;
  }

  lemma WholeSymbols(s: bytes, k: nat)
    requires |s| >= 3 && k < 4
    ensures |Encoded(s)| >= 4 && Encoded(s)[k] == Symbol(Group(s[0], s[1], s[2])[k])
  {
    assert |Symbols(Group(s[0], s[1], s[2]))| == 4;
  }
}
