/** The reference model of ByteArray: one flat store with a size and a position.

    The store is as long as the capacity. Bytes of a freshly allocated block are
    uninitialised in C++, so growing takes them as a parameter (`junk`). */
module FlatStream {
  import opened Bytes

  datatype Flat = Flat(base: nat, store: bytes, size: nat, pos: nat)

  ghost predicate Sound(s: Flat)
  {
    && s.base > 0
    && |s.store| >= s.base
    && |s.store| % s.base == 0
    && s.pos <= s.size <= |s.store|
  }

  /** How many blocks `addCapacity` allocates for `n` bytes at the position. */
  function BlocksNeeded(s: Flat, n: nat): nat
    requires s.base > 0 && s.pos <= |s.store|
  {
    var room := |s.store| - s.pos;
    if n <= room then 0 else (n - room + s.base - 1) / s.base
  }

  predicate JunkFits(s: Flat, n: nat, junk: bytes)
  {
    s.base > 0 && s.pos <= |s.store| && |junk| == BlocksNeeded(s, n) * s.base
  }

  function Grow(s: Flat, junk: bytes): Flat { s.(store := s.store + junk) }

  /** Rounding up: `k` blocks of `b` cover `m` bytes and `k - 1` do not. */
  lemma CeilingLeast(m: nat, b: nat)
    requires m > 0 && b > 0
    ensures var k := (m + b - 1) / b; k >= 1 && k * b - b < m <= k * b
  {
    var t := m + b - 1;
    var k := t / b;
    assert t == k * b + t % b;
  }

  lemma MultiplePlus(x: nat, b: nat, k: nat)
    requires b > 0 && x % b == 0
    ensures (x + k * b) % b == 0
  {
    var q := x / b;
    assert x == q * b;
    assert x + k * b == (q + k) * b + 0;
    DivModUnique(x + k * b, b, q + k, 0);
  }

  /** Growth makes room, and one block fewer would not. */
  lemma GrowLeast(s: Flat, n: nat, junk: bytes)
    requires Sound(s) && JunkFits(s, n, junk)
    ensures Sound(Grow(s, junk))
    ensures s.pos + n <= |s.store + junk|
    ensures junk != [] ==> |s.store + junk| - s.base < s.pos + n
    ensures s.pos + n <= |s.store| ==> junk == []
  {
    var room := |s.store| - s.pos;
    if n > room { CeilingLeast(n - room, s.base); }
    MultiplePlus(|s.store|, s.base, BlocksNeeded(s, n));
  }

  /** `write` of `d`: grow if necessary, overwrite at the position, move past it. */
  function Write(s: Flat, d: bytes, junk: bytes): Flat
    requires Sound(s) && JunkFits(s, |d|, junk)
  {
    GrowLeast(s, |d|, junk);
    Flat(s.base, Splice(s.store + junk, s.pos, d), Max(s.size, s.pos + |d|), s.pos + |d|)
  }

  /** The bytes a caller can observe. */
  function Data(s: Flat): bytes
    requires s.size <= |s.store|
  {
    s.store[..s.size]
  }

  /** Overwriting and extending, as on a file. */
  function Overwrite(data: bytes, pos: nat, d: bytes): bytes
    requires pos <= |data|
  {
    data[..pos] + d + (if pos + |d| < |data| then data[pos + |d|..] else [])
  }

  /** Writing overwrites or extends the observable bytes; the uninitialised ones never show. */
  lemma WriteData(s: Flat, d: bytes, junk: bytes)
    requires Sound(s) && JunkFits(s, |d|, junk)
    ensures Sound(Write(s, d, junk))
    ensures Data(Write(s, d, junk)) == Overwrite(Data(s), s.pos, d)
  {
    GrowLeast(s, |d|, junk);
    var w := Write(s, d, junk);
    assert |w.store| == |s.store + junk|;
    assert Data(w) == Overwrite(Data(s), s.pos, d);
  }

  /** A write in two pieces has the effect of one write on everything observable. */
  lemma WriteSplit(s: Flat, d: bytes, e: bytes, j1: bytes, j2: bytes, j: bytes)
    requires Sound(s) && JunkFits(s, |d|, j1) && JunkFits(s, |d + e|, j)
    requires JunkFits(Write(s, d, j1), |e|, j2)
    ensures Sound(Write(s, d, j1))
    ensures Data(Write(Write(s, d, j1), e, j2)) == Data(Write(s, d + e, j))
    ensures Write(Write(s, d, j1), e, j2).pos == Write(s, d + e, j).pos
  {
    WriteData(s, d, j1);
    WriteData(Write(s, d, j1), e, j2);
    WriteData(s, d + e, j);
  }

  /** `read` of `n` bytes. */
  function ReadBytes(s: Flat, n: nat): bytes
    requires s.pos + n <= s.size <= |s.store|
  {
    s.store[s.pos..s.pos + n]
  }

  function AfterRead(s: Flat, n: nat): Flat { s.(pos := s.pos + n) }

  /** Reading returns the next observable bytes and leaves all of them. */
  lemma ReadData(s: Flat, n: nat)
    requires Sound(s) && s.pos + n <= s.size
    ensures Sound(AfterRead(s, n)) && Data(AfterRead(s, n)) == Data(s)
    ensures ReadBytes(s, n) == Data(s)[s.pos..][..n]
  {
    var rest, d := Data(s)[s.pos..], ReadBytes(s, n);
    assert forall i :: 0 <= i < n ==> d[i] == rest[i];
    assert d == rest[..n];
  }

  /** `setPosition`; moving past the size makes the bytes in between readable. */
  function SetPosition(s: Flat, v: nat): Flat { s.(pos := v, size := Max(s.size, v)) }

  /** `clear` keeps the first block's bytes but forgets they were data. */
  function Clear(s: Flat): Flat
    requires Sound(s)
  {
    Flat(s.base, s.store[..s.base], 0, 0)
  }

  lemma ClearOk(s: Flat)
    requires Sound(s)
    ensures Sound(Clear(s))
  {
    DivModUnique(s.base, s.base, 1, 0);
  }

  /** What was written is read back from where it was written, whatever else happened before. */
  lemma ReadBack(s: Flat, d: bytes, junk: bytes)
    requires Sound(s) && JunkFits(s, |d|, junk)
    ensures var w := SetPosition(Write(s, d, junk), s.pos);
            Sound(w) && w.pos + |d| <= w.size && ReadBytes(w, |d|) == d
  {
    WriteData(s, d, junk);
  }

  /** The positioned read begins at offset `at % base` of the block of `pos`. */
  function Skewed(base: nat, pos: nat, at: nat): nat
    requires base > 0
  {
    pos / base * base + at % base
  }

  /** The positioned read returns the bytes at `at`, whatever the store holds, exactly when `at`
      lies in the block of the stream position (or nothing is read). */
  lemma PositionedReadExact(cap: nat, base: nat, pos: nat, at: nat, n: nat)
    requires base > 0 && at + n <= cap && Skewed(base, pos, at) + n <= cap
    ensures (forall store: bytes :: |store| == cap ==>
               store[Skewed(base, pos, at)..Skewed(base, pos, at) + n] == store[at..at + n])
            <==> n == 0 || at / base == pos / base
  {
    var sk := Skewed(base, pos, at);
    assert at == at / base * base + at % base;
    if n > 0 && at / base != pos / base {
      if sk == at { QuotientUnique(base, pos / base, at % base, at / base, at % base); }
      var store: bytes := seq(cap, i => if i == sk then 1 else 0);
      assert store[sk..sk + n][0] == 1 && store[at..at + n][0] == 0;
    }
  }

  const WORD: nat := 0x1_0000_0000_0000_0000

  /** What the positioned read takes for the bytes from `at` on: a subtraction of machine words. */
  function Available(size: nat, at: nat): nat
    requires at < WORD
  {
    if at <= size then size - at else WORD + size - at
  }

  /** Its test is right exactly for positions within the data, and for lengths no memory holds. */
  lemma PositionedTestExact(size: nat, at: nat, n: nat)
    requires at < WORD
    ensures (n > Available(size, at) <==> at + n > size) <==> at <= size || n > WORD - (at - size)
  {
  }

  /** The walk of a positioned read stays in the chain. */
  predicate Stays(cap: nat, base: nat, pos: nat, at: nat, n: nat)
    requires base > 0
  {
    Skewed(base, pos, at) + n <= cap
  }

  /** All positioned reads within the data stay in the chain exactly when the whole data would fit from the block of
      the stream position on. */
  lemma PositionedReadsStay(cap: nat, base: nat, pos: nat, size: nat)
    requires base > 0
    ensures (forall at: nat, n: nat :: at + n <= size ==> Stays(cap, base, pos, at, n)) <==> pos / base * base + size <= cap
  {
    assert 0 % base == 0 by { DivModUnique(0, base, 0, 0); }
    assert Stays(cap, base, pos, 0, size) <==> pos / base * base + size <= cap;
    forall at: nat, n: nat | at + n <= size && pos / base * base + size <= cap ensures Stays(cap, base, pos, at, n)
    {
      RemainderBelow(at, base);
    }
  }

  lemma RemainderBelow(at: nat, base: nat)
    requires base > 0
    ensures at % base <= at
  {
    if at < base { DivModUnique(at, base, 0, at); }
  }

  /** The positioned view builder cuts its length to what follows the stream position. Against what follows the
      position asked for, that is right for all lengths exactly at the stream position, and otherwise exactly for
      lengths that both allow. */
  lemma PositionedViewsExact(size: nat, pos: nat, at: nat, len: nat)
    requires pos <= size && at <= size
    ensures Min(len, size - pos) == Min(len, size - at) <==> at == pos || len <= Min(size - pos, size - at)
    ensures at < pos ==> Min(size, size - pos) < Min(size, size - at)
    ensures at > pos ==> at + Min(size, size - pos) > size
  {
  }
}
