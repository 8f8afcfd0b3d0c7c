/** Bytes, sequence surgery and the division facts shared by every other module. */
module Bytes {

  type byte = b: int | 0 <= b < 256

  type bytes = seq<byte>

  datatype Option<T> = None | Some(value: T)

  const CR: byte := 13
  const LF: byte := 10
  const CRLF: bytes := [CR, LF]
  const DASHES: bytes := [45, 45]

  function Min(a: int, b: int): int { if a <= b then a else b }

  function Max(a: int, b: int): int { if a >= b then a else b }

  /** `s` with the elements from `at` on replaced by `d`. */
  function Splice(s: bytes, at: nat, d: bytes): (r: bytes)
    requires at + |d| <= |s|
    ensures |r| == |s|
    ensures forall i :: 0 <= i < |s| ==> r[i] == if at <= i < at + |d| then d[i - at] else s[i]
  {
    s[..at] + d + s[at + |d|..]
  }

  /** Two adjacent splices are one. */
  lemma SpliceSplice(s: bytes, at: nat, d: bytes, e: bytes)
    requires at + |d| + |e| <= |s|
    ensures Splice(Splice(s, at, d), at + |d|, e) == Splice(s, at, d + e)
  {
  }

  /** The concatenation of a list of byte strings. */
  function Concat(ss: seq<bytes>): bytes
  {
    if ss == [] then [] else ss[0] + Concat(ss[1..])
  }

  lemma {:induction false} ConcatAppend(ss: seq<bytes>, t: bytes)
    ensures Concat(ss + [t]) == Concat(ss) + t
  {
    if ss != [] {
      assert (ss + [t])[1..] == ss[1..] + [t];
      ConcatAppend(ss[1..], t);
    } else {
      assert Concat([t]) == t + Concat([]) == t;
    }
  }

  lemma MulZero(m: int, b: int)
    requires -b < m * b < b
    ensures m == 0
  {
  }

  lemma QuotientUnique(b: int, k: int, o: int, q: int, r: int)
    requires k * b + o == q * b + r && 0 <= o < b && 0 <= r < b
    ensures k == q && o == r
  {
    assert (k - q) * b == k * b - q * b;
    MulZero(k - q, b);
  }

  /** Quotient and remainder are determined by their defining equation. */
  lemma DivModUnique(p: int, b: int, k: int, o: int)
    requires p == k * b + o && 0 <= o < b
    ensures p / b == k && p % b == o
  {
    QuotientUnique(b, k, o, p / b, p % b);
  }

  lemma MulMono(a: nat, b: nat, c: nat)
    requires a <= b
    ensures a * c <= b * c
  {
  }

  lemma MulCancel(a: int, b: int, c: int)
    requires a * c < b * c && c > 0
    ensures a < b
  {
  }

  lemma Assoc(a: bytes, b: bytes, c: bytes)
    ensures (a + b) + c == a + (b + c)
  {
  }

  lemma Assoc4(a: bytes, b: bytes, c: bytes, d: bytes)
    ensures a + b + c + d == a + (b + c + d)
  {
  }

  lemma FrontBack(a: bytes, b: bytes)
    ensures (a + b)[..|a|] == a && (a + b)[|a|..] == b
  {
  }

  lemma DropDrop(s: bytes, n: nat, m: nat)
    requires n + m <= |s|
    ensures s[n..][m..] == s[n + m..]
  {
  }

  lemma DropTake(s: bytes, n: nat, m: nat)
    requires n + m <= |s|
    ensures s[n..][..m] == s[n..n + m]
  {
  }

  lemma SubSlice(s: bytes, at: nat, len: nat, i: nat, n: nat)
    requires at + len <= |s| && i + n <= len
    ensures s[at..at + len][i..i + n] == s[at + i..at + i + n]
  {
    var l, r := s[at..at + len][i..i + n], s[at + i..at + i + n];
    assert forall j :: 0 <= j < n ==> l[j] == r[j];
  }

  lemma Adjacent(s: bytes, at: nat, m: nat, n: nat)
    requires at + m + n <= |s|
    ensures s[at..at + m] + s[at + m..at + m + n] == s[at..at + (m + n)]
  {
  }

  lemma NextStart(k: int, b: int, off: int, from: int)
    requires from == k * b + off
    ensures from + (b - off) == (k + 1) * b
  {
    MulDist(k, 1, b);
  }

  lemma MulDist(a: int, b: int, c: int)
    ensures (a + b) * c == a * c + b * c
  {
  }
}
