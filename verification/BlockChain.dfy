/** Equal-sized blocks and the flat string they spell. */
module BlockChain {
  import opened Bytes

  predicate Uniform(bs: seq<bytes>, b: nat) { forall i :: 0 <= i < |bs| ==> |bs[i]| == b }

  lemma {:induction false} ConcatUniform(bs: seq<bytes>, b: nat)
    requires Uniform(bs, b)
    ensures |Concat(bs)| == |bs| * b
  {
    if bs != [] {
      ConcatUniform(bs[1..], b);
      assert |bs| * b == b + (|bs| - 1) * b;
    }
  }

  lemma {:induction false} ConcatSplit(a: seq<bytes>, c: seq<bytes>)
    ensures Concat(a + c) == Concat(a) + Concat(c)
  {
    if a == [] {
      assert a + c == c;
    } else {
      assert (a + c)[1..] == a[1..] + c;
      ConcatSplit(a[1..], c);
    }
  }

  /** Block `k` is the stretch of the flat string that starts at `k * b`. */
  lemma BlockAt(bs: seq<bytes>, b: nat, k: nat)
    requires Uniform(bs, b) && k < |bs|
    ensures |Concat(bs)| == |bs| * b
    ensures k * b + b <= |bs| * b
    ensures Concat(bs) == Concat(bs[..k]) + bs[k] + Concat(bs[k + 1..])
    ensures |Concat(bs[..k])| == k * b
    ensures Concat(bs)[k * b..k * b + b] == bs[k]
  {
    ConcatUniform(bs, b);
    ConcatUniform(bs[..k], b);
    ConcatUniform(bs[k + 1..], b);
    assert bs == bs[..k] + ([bs[k]] + bs[k + 1..]);
    ConcatSplit(bs[..k], [bs[k]] + bs[k + 1..]);
    assert ([bs[k]] + bs[k + 1..])[1..] == bs[k + 1..];
    MulDist(k, 1, b);
    MulDist(k + 1, |bs| - k - 1, b);
  }

  /** Copying into one block is copying into the flat string. */
  lemma SpliceBlock(bs: seq<bytes>, b: nat, k: nat, off: nat, d: bytes)
    requires Uniform(bs, b) && k < |bs| && off + |d| <= b
    ensures |Concat(bs)| == |bs| * b && k * b + b <= |bs| * b
    ensures Uniform(bs[k := Splice(bs[k], off, d)], b)
    ensures Concat(bs[k := Splice(bs[k], off, d)]) == Splice(Concat(bs), k * b + off, d)
  {
    var cs := bs[k := Splice(bs[k], off, d)];
    BlockAt(bs, b, k);
    BlockAt(cs, b, k);
    assert cs[..k] == bs[..k] && cs[k + 1..] == bs[k + 1..];
    var left, right := Concat(bs[..k]), Concat(bs[k + 1..]);
    assert Concat(cs) == left + Splice(bs[k], off, d) + right;
    assert Splice(left + bs[k] + right, k * b + off, d) == left + Splice(bs[k], off, d) + right;
  }

  /** Offset `off` of block `k` out of `n`, as an offset into the flat string. */
  lemma OffsetFacts(b: nat, n: nat, k: nat, off: nat)
    requires b > 0 && k < n && off <= b
    ensures k * b + off <= n * b
    ensures off < b ==> k * b + off < n * b && (k * b + off) / b == k && (k * b + off) % b == off
    ensures off == b && k + 1 < n ==> k * b + off < n * b && (k * b + off) / b == k + 1
    ensures off == b && k + 1 == n ==> k * b + off == n * b
  {
    MulMono(k + 1, n, b);
    assert (k + 1) * b == k * b + b;
    if off < b {
      DivModUnique(k * b + off, b, k, off);
    } else if k + 1 < n {
      MulMono(k + 2, n, b);
      assert (k + 2) * b == k * b + b + b;
      DivModUnique(k * b + off, b, k + 1, 0);
    }
  }

  /** A stretch that runs past the end of block `k` continues in block `k + 1`. */
  lemma NextBlock(b: nat, n: nat, k: nat, len: nat)
    requires b > 0 && b < len && k * b + len <= n * b
    ensures k + 1 < n
  {
    assert (k + 1) * b == k * b + b;
    MulCancel(k + 1, n, b);
  }

  /** The block of an offset inside the flat string. */
  lemma BlockIndex(b: nat, n: nat, p: nat)
    requires b > 0 && p < n * b
    ensures p / b < n && p == p / b * b + p % b && p % b < b
  {
    MulCancel(p / b, n, b);
  }

  /** What appended blocks add to the flat string. */
  lemma ConcatGrown(bs: seq<bytes>, b: nat, m: nat)
    requires Uniform(bs, b) && m <= |bs|
    ensures Concat(bs) == Concat(bs[..m]) + Concat(bs[m..])
    ensures |Concat(bs[m..])| == (|bs| - m) * b
    ensures |bs| * b == m * b + (|bs| - m) * b
  {
    assert bs == bs[..m] + bs[m..];
    ConcatSplit(bs[..m], bs[m..]);
    ConcatUniform(bs[m..], b);
    MulDist(m, |bs| - m, b);
  }

  lemma FirstBlock(bs: seq<bytes>, b: nat)
    requires Uniform(bs, b) && |bs| > 0
    ensures |Concat(bs)| >= b && Concat([bs[0]]) == Concat(bs)[..b] == bs[0]
  {
    assert Concat([bs[0]]) == bs[0] + Concat([]);
  }
}
