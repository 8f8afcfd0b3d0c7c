/** ByteArray: a byte stream kept in a linked chain of equal-sized blocks.

    Every operation is proved against the flat reference model of `FlatStream`. */
module ByteArrays {
  import opened Bytes
  import opened BlockChain
  import FS = FlatStream

  /** One block of the chain. */
  class Node {
    const data: array<byte>
    var next: Node?

    constructor (n: nat)
      ensures fresh(data) && data.Length == n && next == null
    {
      data := new byte[n];
      next := null;
    }
  }

  /** A stretch of a block handed to scatter/gather I/O (an `iovec`). */
  datatype View = View(base: array<byte>, off: nat, len: nat)

  datatype Result<T> = Ok(value: T) | OutOfRange

  class ByteArray {
    const baseSize: nat
    var position: nat
    var capacity: nat
    var size: nat
    var littleEndian: bool
    const root: Node
    var cur: Node?

    ghost var nodes: seq<Node>
    ghost var blocks: seq<bytes>
    ghost var Cells: set<object>

    /** The chain is well linked and `blocks` are its contents. */
    ghost predicate Chain()
      reads this`nodes, this`blocks, this`capacity, this`Cells, Cells
    {
      && this !in Cells
      && baseSize > 0
      && |nodes| > 0 && nodes[0] == root
      && |blocks| == |nodes| && Uniform(blocks, baseSize)
      && (forall i :: 0 <= i < |nodes| ==>
            && nodes[i] in Cells && nodes[i].data in Cells
            && nodes[i].data.Length == baseSize && nodes[i].data[..] == blocks[i])
      && (forall i {:trigger nodes[i].next} :: 0 <= i < |nodes| ==> nodes[i].next == if i + 1 < |nodes| then nodes[i + 1] else null)
      && (forall i, j :: 0 <= i < j < |nodes| ==> nodes[i] != nodes[j] && nodes[i].data != nodes[j].data)
      && capacity == |nodes| * baseSize
    }

    /** `n` is the block that holds stream offset `p`; there is none at the very end. */
    ghost predicate Holds(p: nat, n: Node?)
      reads this`nodes, this`capacity
      requires baseSize > 0
    {
      if p == capacity then n == null else p / baseSize < |nodes| && n == nodes[p / baseSize]
    }

    ghost predicate Valid()
      reads this, Cells
    {
      && Chain()
      && position <= size <= capacity
      && Holds(position, cur)
    }

    ghost function Store(): bytes
      reads this`blocks
    {
      Concat(blocks)
    }

    /** The abstract value: what the flat reference model says this object is. */
    ghost function Abs(): FS.Flat
      reads this
    {
      FS.Flat(baseSize, Store(), size, position)
    }

    lemma ChainFacts()
      requires Chain()
      ensures |Store()| == capacity && capacity >= baseSize && capacity % baseSize == 0
    {
      ConcatUniform(blocks, baseSize);
      MulMono(1, |nodes|, baseSize);
      DivModUnique(capacity, baseSize, |nodes|, 0);
    }

    lemma AbsOk()
      requires Valid()
      ensures FS.Sound(Abs()) && |Store()| == capacity
    {
      ChainFacts();
    }

    /** Offset `off` of block `k` is stream offset `k * baseSize + off`; at `off == baseSize`
        that is the start of the following block, if there is one. */
    lemma HoldsAt(k: nat, off: nat)
      requires Chain() && k < |nodes| && off <= baseSize
      ensures k * baseSize + off <= capacity
      ensures Holds(k * baseSize + off, if off == baseSize then nodes[k].next else nodes[k])
      ensures off < baseSize ==> k * baseSize + off < capacity
    {
      OffsetFacts(baseSize, |nodes|, k, off);
    }

    /** One turn of any loop over the chain that stands at offset `npos` of block `k` with
        `left > 0` bytes to go: it either ends inside or at the end of the block, or goes on at
        the start of the next. */
    lemma CursorStep(k: nat, npos: nat, left: nat)
      requires Chain() && k < |nodes| && npos < baseSize && left > 0
      requires k * baseSize + npos + left <= capacity
      ensures npos + left <= baseSize ==>
                Holds(k * baseSize + npos + left, if npos + left == baseSize then nodes[k].next else nodes[k])
      ensures npos + left > baseSize ==>
                && k + 1 < |nodes| && nodes[k].next == nodes[k + 1]
                && (k + 1) * baseSize == k * baseSize + npos + (baseSize - npos)
    {
      MulDist(k, 1, baseSize);
      if npos + left <= baseSize {
        HoldsAt(k, npos + left);
      } else {
        NextBlock(baseSize, |nodes|, k, npos + left);
      }
    }

    constructor (base: nat)
      requires base > 0
      ensures Valid() && fresh(Cells)
      ensures baseSize == base && position == 0 && size == 0 && capacity == base && !littleEndian
    {
      var n := new Node(base);
      baseSize, position, capacity, size, littleEndian := base, 0, base, 0, false;
      root, cur := n, n;
      nodes, blocks := [n], [n.data[..]];
      Cells := {n, n.data};
      new;
      HoldsAt(0, 0);
    }

    /** memcpy into one block. */
    method CopyIn(ghost k: nat, a: array<byte>, off: nat, d: bytes)
      requires Chain() && k < |nodes| && a == nodes[k].data && off + |d| <= baseSize
      modifies a, this`blocks
      ensures Chain()
      ensures |Store()| == capacity == |old(Store())| && k * baseSize + baseSize <= capacity
      ensures Store() == Splice(old(Store()), k * baseSize + off, d)
    {
      forall i | 0 <= i < |d| { a[off + i] := d[i]; }
      ghost var b := Splice(blocks[k], off, d);
      assert a[..] == b;
      SpliceBlock(blocks, baseSize, k, off, d);
      blocks := blocks[k := b];
      ConcatUniform(blocks, baseSize);
    }

    /** memcpy out of one block. */
    method CopyOut(ghost k: nat, n: Node, off: nat, len: nat) returns (d: bytes)
      requires Chain() && k < |nodes| && n == nodes[k] && off + len <= baseSize
      ensures |Store()| == capacity && k * baseSize + off + len <= capacity
      ensures d == Store()[k * baseSize + off..k * baseSize + off + len]
    {
      d := n.data[off..off + len];
      BlockAt(blocks, baseSize, k);
      assert d == blocks[k][off..off + len];
      SubSlice(Store(), k * baseSize, baseSize, off, len);
    }

    /** Hang one more block on the end of the chain. */
    method AppendBlock(last: Node)
      requires Chain() && last == nodes[|nodes| - 1]
      modifies this`nodes, this`blocks, this`Cells, this`capacity, last`next
      ensures Chain() && fresh(Cells - old(Cells)) && old(Cells) <= Cells
      ensures |nodes| == old(|nodes|) + 1 && nodes == old(nodes) + [nodes[old(|nodes|)]]
      ensures last.next == nodes[old(|nodes|)] && fresh(last.next)
      ensures |blocks| == |nodes| && blocks[..old(|nodes|)] == old(blocks)
    {
      var n := new Node(baseSize);
      last.next := n;
      capacity := capacity + baseSize;
      nodes, blocks := nodes + [n], blocks + [n.data[..]];
      Cells := Cells + {n, n.data};
      assert (|nodes| - 1) * baseSize + baseSize == |nodes| * baseSize;
    }

    /** Walk to the end of the chain. */
    method Last() returns (last: Node)
      requires Chain()
      ensures last == nodes[|nodes| - 1]
    {
      last := root;
      ghost var k := 0;
      while last.next != null
        invariant 0 <= k < |nodes| && last == nodes[k]
        decreases |nodes| - k
      {
        last := last.next;
        k := k + 1;
      }
    }

    /** Hang `count` blocks on the end of the chain. */
    method AppendBlocks(last: Node, count: nat) returns (first: Node?)
      requires Chain() && last == nodes[|nodes| - 1]
      modifies this`nodes, this`blocks, this`Cells, this`capacity, last`next
      ensures Chain() && fresh(Cells - old(Cells)) && old(Cells) <= Cells
      ensures |nodes| == |old(nodes)| + count && nodes[..|old(nodes)|] == old(nodes)
      ensures blocks[..|old(nodes)|] == old(blocks)
      ensures count > 0 ==> first == nodes[|old(nodes)|]
    {
      var tmp := last;
      first := null;
      for i := 0 to count
        invariant Chain() && fresh(Cells - old(Cells)) && old(Cells) <= Cells
        invariant |nodes| == |old(nodes)| + i && nodes[..|old(nodes)|] == old(nodes)
        invariant blocks[..|old(nodes)|] == old(blocks)
        invariant tmp == nodes[|nodes| - 1] && (tmp == last || fresh(tmp))
        invariant if i > 0 then first == nodes[|old(nodes)|] else first == null
      {
        AppendBlock(tmp);
        if first == null { first := tmp.next; }
        tmp := tmp.next;
      }
    }

    /** Appended blocks leave an offset inside the old capacity where it was, and the old end
        becomes the start of the first of them. */
    lemma HoldsGrown(was: nat, cap: nat, p: nat, k: nat, n: Node?)
      requires Chain() && was < |nodes| && cap == was * baseSize && p <= cap
      requires if p == cap then n == nodes[was] else k == p / baseSize && k < was && n == nodes[k]
      ensures Holds(p, n)
    {
      OffsetFacts(baseSize, |nodes|, was, 0);
    }

    /** Lengthen the chain by `count` blocks and step the cursor off the old end. */
    method Extend(count: nat) returns (ghost junk: bytes)
      requires Valid() && count > 0
      modifies this, Cells
      ensures Valid() && fresh(Cells - old(Cells)) && old(Cells) <= Cells
      ensures |junk| == count * baseSize && Abs() == FS.Grow(old(Abs()), junk)
      ensures littleEndian == old(littleEndian)
    {
      var atEnd := capacity == position;
      var tmp := Last();
      ghost var m, k, cap := |nodes|, position / baseSize, capacity;
      assert !atEnd ==> k < m && cur == nodes[k];
      var first := AppendBlocks(tmp, count);
      junk := Concat(blocks[m..]);
      ConcatGrown(blocks, baseSize, m);
      if atEnd {
        cur := first;
      }
      assert !atEnd ==> cur == nodes[..m][k] == nodes[k];
      HoldsGrown(m, cap, position, k, cur);
    }

    /** Make room for `n` bytes at the position with the fewest whole blocks. */
    method AddCapacity(n: nat) returns (ghost junk: bytes)
      requires Valid()
      modifies this, Cells
      ensures Valid() && fresh(Cells - old(Cells)) && old(Cells) <= Cells
      ensures FS.JunkFits(old(Abs()), n, junk) && Abs() == FS.Grow(old(Abs()), junk)
      ensures littleEndian == old(littleEndian)
    {
      AbsOk();
      junk := [];
      var oldCap := capacity - position;
      if n == 0 || oldCap >= n {
        assert Store() == old(Store()) + junk;
        return;
      }
      var count := (n - oldCap + baseSize - 1) / baseSize;
      FS.CeilingLeast(n - oldCap, baseSize);
      junk := Extend(count);
    }

    /** Copy the stretch of `buf` that starts at `bpos` after the part already copied. */
    method CopyMore(ghost k: nat, a: array<byte>, off: nat, buf: bytes, bpos: nat, len: nat, ghost was: bytes, ghost from: nat)
      requires Chain() && k < |nodes| && a == nodes[k].data && off + len <= baseSize && bpos + len <= |buf|
      requires |was| == capacity && from + |buf| <= capacity && k * baseSize + off == from + bpos
      requires Store() == Splice(was, from, buf[..bpos])
      modifies a, this`blocks
      ensures Chain() && Store() == Splice(was, from, buf[..bpos + len])
    {
      CopyIn(k, a, off, buf[bpos..bpos + len]);
      SpliceSplice(was, from, buf[..bpos], buf[bpos..bpos + len]);
      assert buf[..bpos] + buf[bpos..bpos + len] == buf[..bpos + len];
    }

    /** Move the cursor over `len` bytes of block `k`. */
    method Advance(ghost k: nat, npos: nat, left: nat) returns (len: nat, ghost k': nat, npos': nat)
      requires Chain() && k < |nodes| && cur == nodes[k] && npos < baseSize && left > 0
      requires position == k * baseSize + npos && position + left <= capacity
      modifies this`position, this`cur
      ensures len == Min(left, baseSize - npos) && position == old(position) + len
      ensures len == left ==> Holds(position, cur)
      ensures len < left ==> k' < |nodes| && cur == nodes[k'] && position == k' * baseSize + npos' && npos' == 0
    {
      CursorStep(k, npos, left);
      k', npos' := k + 1, 0;
      if cur.data.Length - npos >= left {
        len := left;
        if cur.data.Length == npos + left { cur := cur.next; }
      } else {
        len := cur.data.Length - npos;
        cur := cur.next;
      }
      position := position + len;
    }

    /** One turn of the copying loop of `write`. */
    method FillStep(ghost k: nat, npos: nat, buf: bytes, bpos: nat, ghost was: bytes, ghost from: nat)
      returns (len: nat, ghost k': nat, npos': nat)
      requires Chain() && k < |nodes| && cur == nodes[k] && npos < baseSize && bpos < |buf|
      requires |was| == capacity && position == from + bpos == k * baseSize + npos && from + |buf| <= capacity
      requires Store() == Splice(was, from, buf[..bpos])
      modifies this`blocks, this`position, this`cur, Cells
      ensures Chain() && 0 < len <= |buf| - bpos && position == from + bpos + len
      ensures Store() == Splice(was, from, buf[..bpos + len])
      ensures if bpos + len == |buf| then Holds(position, cur)
              else k' < |nodes| && cur == nodes[k'] && position == k' * baseSize + npos' && npos' == 0
    {
      CopyMore(k, cur.data, npos, buf, bpos, Min(cur.data.Length - npos, |buf| - bpos), was, from);
      len, k', npos' := Advance(k, npos, |buf| - bpos);
    }

    /** The copying loop of `write`: fill the chain from the cursor on. */
    method Fill(buf: bytes)
      requires Chain() && |buf| > 0 && position + |buf| <= capacity && Holds(position, cur)
      modifies this`blocks, this`position, this`cur, Cells
      ensures Chain() && position == old(position) + |buf| && Holds(position, cur)
      ensures |old(Store())| == capacity && Store() == Splice(old(Store()), old(position), buf)
    {
      ChainFacts();
      ghost var k: nat := position / baseSize;
      BlockIndex(baseSize, |nodes|, position);
      var npos: nat := position % baseSize;
      var bpos: nat := 0;
      while bpos < |buf|
        invariant Chain() && bpos <= |buf| && position == old(position) + bpos
        invariant if bpos == |buf| then Holds(position, cur)
                  else && k < |nodes| && cur == nodes[k] && position == k * baseSize + npos && npos < baseSize
        invariant Store() == Splice(old(Store()), old(position), buf[..bpos])
      {
        var len;
        len, k, npos := FillStep(k, npos, buf, bpos, old(Store()), old(position));
        bpos := bpos + len;
      }
      assert buf[..bpos] == buf;
    }

    method Write(buf: bytes) returns (ghost junk: bytes)
      requires Valid()
      modifies this, Cells
      ensures Valid() && fresh(Cells - old(Cells)) && littleEndian == old(littleEndian)
      ensures FS.Sound(old(Abs())) && FS.JunkFits(old(Abs()), |buf|, junk)
      ensures Abs() == FS.Write(old(Abs()), buf, junk)
    {
      AbsOk();
      junk := [];
      if |buf| == 0 {
        assert Store() == Splice(old(Store()) + junk, position, buf);
        return;
      }
      junk := AddCapacity(|buf|);
      FS.GrowLeast(old(Abs()), |buf|, junk);
      ChainFacts();
      Fill(buf);
      if position > size {
        size := position;
      }
    }

    /** The copying loop of `read`: take `n` bytes from the chain from the cursor on. */
    method Drain(n: nat) returns (d: bytes)
      requires Chain() && n > 0 && position + n <= capacity && Holds(position, cur)
      modifies this`position, this`cur
      ensures position == old(position) + n && Holds(position, cur)
      ensures |Store()| == capacity && d == Store()[old(position)..position]
    {
      ChainFacts();
      ghost var k: nat := position / baseSize;
      BlockIndex(baseSize, |nodes|, position);
      var npos: nat := position % baseSize;
      d := [];
      while |d| < n
        invariant |d| <= n && position == old(position) + |d|
        invariant if |d| == n then Holds(position, cur)
                  else && k < |nodes| && cur == nodes[k] && position == k * baseSize + npos && npos < baseSize
        invariant d == Store()[old(position)..position]
      {
        var left := n - |d|;
        var more := CopyOut(k, cur, npos, Min(cur.data.Length - npos, left));
        var len;
        len, k, npos := Advance(k, npos, left);
        assert more == Store()[position - len..position];
        d := d + more;
      }
    }

    /** A read of zero bytes still looks at the current block, so there has to be one. */
    method Read(n: nat) returns (r: Result<bytes>)
      requires Valid() && (n > 0 || position < capacity)
      modifies this`position, this`cur
      ensures Valid()
      ensures r.OutOfRange? <==> n > old(size) - old(position)
      ensures r.OutOfRange? ==> Abs() == old(Abs())
      ensures r.Ok? ==> FS.Sound(old(Abs())) && r.value == FS.ReadBytes(old(Abs()), n) && Abs() == FS.AfterRead(old(Abs()), n)
    {
      AbsOk();
      if n > size - position {
        return OutOfRange;
      }
      var d := [];
      if n > 0 {
        d := Drain(n);
      }
      r := Ok(d);
    }

    /** The walk of `setPosition` from the root. */
    method Seek(v: nat) returns (n: Node?)
      requires Chain() && v <= capacity
      ensures Holds(v, n)
    {
      n := root;
      var rest: nat := v;
      ghost var k: nat := 0;
      while rest > n.data.Length
        invariant k < |nodes| && n == nodes[k] && v == k * baseSize + rest
        decreases rest
      {
        NextBlock(baseSize, |nodes|, k, rest);
        MulDist(k, 1, baseSize);
        rest := rest - n.data.Length;
        n := n.next;
        k := k + 1;
      }
      HoldsAt(k, rest);
      if rest == n.data.Length {
        n := n.next;
      }
    }

    method SetPosition(v: nat) returns (r: Result<()>)
      requires Valid()
      modifies this`position, this`size, this`cur
      ensures Valid()
      ensures r.OutOfRange? <==> v > capacity
      ensures Abs() == if v > capacity then old(Abs()) else FS.SetPosition(old(Abs()), v)
    {
      if v > capacity {
        return OutOfRange;
      }
      position := v;
      if position > size {
        size := position;
      }
      cur := Seek(v);
      r := Ok(());
    }

    /** Drop every block but the first. */
    method Clear()
      requires Valid()
      modifies this, root
      ensures Valid() && fresh(Cells - old(Cells)) && littleEndian == old(littleEndian)
      ensures FS.Sound(old(Abs())) && Abs() == FS.Clear(old(Abs()))
    {
      AbsOk();
      FirstBlock(blocks, baseSize);
      position, size, capacity := 0, 0, baseSize;
      cur := root;
      root.next := null;
      nodes, blocks := [root], [blocks[0]];
      HoldsAt(0, 0);
    }

    /** The positioned read. It starts in the block of the stream position, not in the block of
        `at`, so what it returns begins at `Skewed(at)`. */
    ghost function Skewed(at: nat): nat
      reads this
      requires baseSize > 0
    {
      FS.Skewed(baseSize, position, at)
    }

    /** Copy `n` bytes starting at offset `off` of block `k`, without moving the cursor. */
    method CopyFrom(start: Node, ghost k0: nat, off: nat, n: nat, ghost from: nat) returns (d: bytes)
      requires Chain() && k0 < |nodes| && start == nodes[k0] && off < baseSize
      requires from == k0 * baseSize + off && from + n <= capacity
      ensures |Store()| == capacity && d == Store()[from..from + n]
    {
      ChainFacts();
      var c: Node?, npos: nat := start, off;
      ghost var k: nat := k0;
      d := [];
      while |d| < n
        invariant |d| <= n && d == Store()[from..from + |d|]
        invariant |d| < n ==> k < |nodes| && c == nodes[k] && npos < baseSize && from + |d| == k * baseSize + npos
      {
        var left := n - |d|;
        var len := Min(c.data.Length - npos, left);
        var more := CopyOut(k, c, npos, len);
        CursorStep(k, npos, left);
        Adjacent(Store(), from, |d|, len);
        d := d + more;
        if len < left {
          c, npos, k := c.next, 0, k + 1;
        }
      }
    }

    /** Positions are machine words: one beyond the size wraps the subtraction, and the test lets it through. The
        walk itself has to stay in the chain. */
    method ReadAt(n: nat, at: nat) returns (r: Result<bytes>)
      requires Valid() && at < FS.WORD
      requires n <= FS.Available(size, at) ==> cur != null && FS.Stays(capacity, baseSize, position, at, n)
      ensures r.OutOfRange? <==> n > FS.Available(size, at)
      ensures r.Ok? ==> Skewed(at) + n <= |Store()| && r.value == Store()[Skewed(at)..Skewed(at) + n]
    {
      var off: nat := at % baseSize;
      ChainFacts();
      if n > FS.Available(size, at) {
        return OutOfRange;
      }
      BlockIndex(baseSize, |nodes|, position);
      ghost var k: nat := position / baseSize;
      var d := CopyFrom(cur, k, off, n, Skewed(at));
      r := Ok(d);
    }

    /** `toString`: everything unread. It is the positioned read at the stream position. */
    method Unread() returns (d: bytes)
      requires Valid()
      ensures |Store()| == capacity && d == Store()[position..size]
    {
      AbsOk();
      d := [];
      if size > position {
        BlockIndex(baseSize, |nodes|, position);
        d := CopyFrom(cur, position / baseSize, position % baseSize, size - position, position);
      }
    }

    /** The views of `len` bytes from offset `off` of block `k` on. */
    ghost function Views(k: nat, off: nat, len: nat): seq<View>
      reads this`nodes
      decreases len
    {
      if len == 0 || k >= |nodes| || off >= baseSize then []
      else if off + len <= baseSize then [View(nodes[k].data, off, len)]
      else [View(nodes[k].data, off, baseSize - off)] + Views(k + 1, 0, len - (baseSize - off))
    }

    /** The loop that all three view builders share. */
    method CollectViews(start: Node, ghost k0: nat, off: nat, len: nat, ghost from: nat) returns (views: seq<View>)
      requires Chain() && k0 < |nodes| && start == nodes[k0] && off < baseSize && len > 0
      requires from == k0 * baseSize + off && from + len <= capacity
      ensures views == Views(k0, off, len)
    {
      var c: Node?, npos, left := start, off, len;
      ghost var k := k0;
      views := [];
      while left > 0
        invariant 0 <= left <= len && 0 <= k
        invariant left > 0 ==> k < |nodes| && c == nodes[k] && 0 <= npos < baseSize && k * baseSize + npos + left <= capacity
        invariant left > 0 ==> views + Views(k, npos, left) == Views(k0, off, len)
        invariant left == 0 ==> views == Views(k0, off, len)
      {
        CursorStep(k, npos, left);
        if c.data.Length - npos >= left {
          views := views + [View(c.data, npos, left)];
          left := 0;
        } else {
          views := views + [View(c.data, npos, c.data.Length - npos)];
          left := left - (c.data.Length - npos);
          c, npos, k := c.next, 0, k + 1;
        }
      }
    }

    /** Views of the unread bytes, found from the cursor. */
    method GetReadBuffers(len: nat) returns (views: seq<View>, got: nat)
      requires Valid()
      ensures got == Min(len, size - position)
      ensures views == Views(position / baseSize, position % baseSize, got)
    {
      got := Min(len, size - position);
      views := [];
      if got > 0 {
        BlockIndex(baseSize, |nodes|, position);
        views := CollectViews(cur, position / baseSize, position % baseSize, got, position);
      }
    }

    /** The walk from the root. */
    method NodeAt(k: nat) returns (c: Node)
      requires Chain() && k < |nodes|
      ensures c == nodes[k]
    {
      c := root;
      var count := k;
      while count > 0
        invariant 0 <= count <= k && c == nodes[k - count]
      {
        c := c.next;
        count := count - 1;
      }
    }

    /** Views of `len` bytes from `at` on. */
    method ViewsFrom(at: nat, len: nat) returns (views: seq<View>)
      requires Chain() && len > 0 && at + len <= capacity
      ensures views == Views(at / baseSize, at % baseSize, len)
    {
      BlockIndex(baseSize, |nodes|, at);
      var c := NodeAt(at / baseSize);
      views := CollectViews(c, at / baseSize, at % baseSize, len, at);
    }

    /** Views of bytes from `at` on, found by walking from the root. The length is cut to what is
        unread from the stream position; the walk has to stay in the chain. */
    method GetReadBuffersAt(len: nat, at: nat) returns (views: seq<View>, got: nat)
      requires Valid() && (Min(len, size - position) > 0 ==> at + Min(len, size - position) <= capacity)
      ensures got == Min(len, size - position)
      ensures views == Views(at / baseSize, at % baseSize, got)
    {
      got := Min(len, size - position);
      views := [];
      if got > 0 {
        views := ViewsFrom(at, got);
      }
    }

    /** Room for `len` bytes, as views to be filled from outside. */
    method GetWriteBuffers(len: nat) returns (views: seq<View>, ghost junk: bytes)
      requires Valid()
      modifies this, Cells
      ensures Valid() && fresh(Cells - old(Cells)) && littleEndian == old(littleEndian)
      ensures FS.JunkFits(old(Abs()), len, junk) && Abs() == FS.Grow(old(Abs()), junk)
      ensures views == Views(position / baseSize, position % baseSize, len)
    {
      AbsOk();
      junk := AddCapacity(len);
      views := [];
      if len > 0 {
        FS.GrowLeast(old(Abs()), len, junk);
        ChainFacts();
        BlockIndex(baseSize, |nodes|, position);
        views := CollectViews(cur, position / baseSize, position % baseSize, len, position);
      }
    }

    /** Each view lies in its own block, in chain order, so no two overlap. */
    lemma {:induction false} ViewsDisjoint(k: nat, off: nat, len: nat)
      requires Chain() && k < |nodes| && off < baseSize && len > 0 && k * baseSize + off + len <= capacity
      ensures var vs := Views(k, off, len);
              && 0 < |vs| <= |nodes| - k
              && forall i :: 0 <= i < |vs| ==>
                   vs[i].base == nodes[k + i].data && vs[i].len > 0 && vs[i].off + vs[i].len <= baseSize
      decreases len
    {
      if off + len > baseSize {
        CursorStep(k, off, len);
        ViewsDisjoint(k + 1, 0, len - (baseSize - off));
        var vs, ws := Views(k, off, len), Views(k + 1, 0, len - (baseSize - off));
        assert forall i :: 1 <= i < |vs| ==> vs[i] == ws[i - 1] && nodes[k + i] == nodes[(k + 1) + (i - 1)];
      }
    }

    /** The first view of a stretch, and the views of the rest. */
    lemma ViewsStep(k: nat, off: nat, len: nat)
      requires k < |nodes| && off < baseSize && len > 0
      ensures var first := Min(len, baseSize - off);
              Gather(Views(k, off, len))
              == Shown(View(nodes[k].data, off, first)) + if off + len > baseSize then Gather(Views(k + 1, 0, len - first)) else []
    {
      var vs := Views(k, off, len);
      if off + len > baseSize {
        assert vs[1..] == Views(k + 1, 0, len - (baseSize - off));
      } else {
        assert vs[1..] == [];
      }
    }

    /** A stretch inside one block. */
    lemma OneBlockGathers(k: nat, off: nat, len: nat, from: nat)
      requires Chain() && k < |nodes| && len > 0 && off + len <= baseSize && from == k * baseSize + off
      ensures |Store()| == capacity && from + len <= capacity && Gather(Views(k, off, len)) == Store()[from..from + len]
    {
      ViewsStep(k, off, len);
      ShownAt(k, off, len, from);
      OnlyPart(Store()[from..from + len]);
    }

    /** A stretch that goes on for `n` bytes after the `m` of its first block. */
    lemma MoreBlocksGather(k: nat, off: nat, m: nat, n: nat, from: nat)
      requires Chain() && k + 1 < |nodes| && off + m == baseSize && m > 0 && n > 0
      requires from == k * baseSize + off && from + m + n <= |Store()|
      requires Gather(Views(k + 1, 0, n)) == Store()[from + m..from + m + n]
      ensures Gather(Views(k, off, m + n)) == Store()[from..from + (m + n)]
    {
      ViewsStep(k, off, m + n);
      ShownAt(k, off, m, from);
      Adjacent(Store(), from, m, n);
    }

    /** Read through in order, the views spell the stretch of the stream they were made for. */
    lemma {:induction false} ViewsGather(k: nat, off: nat, len: nat, from: nat)
      requires Chain() && k < |nodes| && off < baseSize && from == k * baseSize + off && from + len <= capacity
      ensures |Store()| == capacity && Gather(Views(k, off, len)) == Store()[from..from + len]
      decreases len
    {
      ChainFacts();
      if len > 0 {
        if off + len <= baseSize {
          OneBlockGathers(k, off, len, from);
        } else {
          CursorStep(k, off, len);
          NextStart(k, baseSize, off, from);
          var m: nat, n: nat := baseSize - off, len - (baseSize - off);
          ViewsGather(k + 1, 0, n, from + m);
          MoreBlocksGather(k, off, m, n, from);
        }
      }
    }

    lemma OnlyPart(s: bytes)
      ensures s + [] == s
    {
    }

    /** The views made for a stretch of the stream spell it, each from its own block. */
    lemma ViewsSpell(at: nat, len: nat)
      requires Chain() && len > 0 && at + len <= capacity
      ensures var vs := Views(at / baseSize, at % baseSize, len);
              && |Store()| == capacity && Gather(vs) == Store()[at..at + len]
              && forall i, j :: 0 <= i < j < |vs| ==> vs[i].base != vs[j].base
    {
      BlockIndex(baseSize, |nodes|, at);
      ViewsGather(at / baseSize, at % baseSize, len, at);
      ViewsDisjoint(at / baseSize, at % baseSize, len);
    }

    /** A view shows the stretch of the stream it covers. */
    lemma ShownAt(k: nat, off: nat, len: nat, from: nat)
      requires Chain() && k < |nodes| && off + len <= baseSize && from == k * baseSize + off
      ensures |Store()| == capacity && from + len <= capacity
      ensures Shown(View(nodes[k].data, off, len)) == Store()[from..from + len]
    {
      BlockAt(blocks, baseSize, k);
      assert nodes[k].data[off..off + len] == blocks[k][off..off + len];
      SubSlice(Store(), k * baseSize, baseSize, off, len);
    }

    /** Filling: `bpos` bytes of `d` are in place, and the views from `i` on are those of the room that is left. */
    ghost predicate Filling(views: seq<View>, d: bytes, len: nat, i: nat, bpos: nat, k: nat, npos: nat, was: bytes, from: nat)
      reads this`nodes, this`blocks, this`capacity, this`Cells, Cells
    {
      && Chain() && bpos <= |d| <= len && i <= |views| && |was| == capacity && from + |d| <= capacity
      && Store() == Splice(was, from, d[..bpos])
      && (bpos < |d| ==>
            && i < |views| && k < |nodes| && npos < baseSize && k * baseSize + npos == from + bpos
            && from + len <= capacity && views[i..] == Views(k, npos, len - bpos))
    }

    /** Fill one view. */
    method FillView(views: seq<View>, d: bytes, ghost len: nat, i: nat, bpos: nat, ghost k: nat, ghost npos: nat,
                    ghost was: bytes, ghost from: nat)
      returns (n: nat)
      requires i < |views| && bpos < |d| && Filling(views, d, len, i, bpos, k, npos, was, from)
      modifies this`blocks, Cells
      ensures n > 0 && Filling(views, d, len, i + 1, bpos + n, k + 1, 0, was, from)
    {
      ghost var rest := views[i..];
      assert views[i] == rest[0] && rest[1..] == views[i + 1..];
      n := Min(views[i].len, |d| - bpos);
      CursorStep(k, npos, len - bpos);
      assert bpos + n < |d| ==> rest[1..] == Views(k + 1, 0, len - bpos - n) && |rest[1..]| > 0;
      CopyMore(k, views[i].base, views[i].off, d, bpos, n, was, from);
    }

    /** What `recvmsg` does with the views: fill them in order with the bytes that arrived. */
    method Scatter(views: seq<View>, d: bytes, ghost k0: nat, ghost off: nat, ghost len: nat)
      requires Chain() && k0 < |nodes| && off < baseSize && |d| <= len && k0 * baseSize + off + len <= capacity
      requires views == Views(k0, off, len)
      modifies this`blocks, Cells
      ensures Chain() && |old(Store())| == capacity
      ensures Store() == Splice(old(Store()), k0 * baseSize + off, d)
    {
      ChainFacts();
      var i: nat, bpos: nat := 0, 0;
      ghost var k: nat, npos: nat, was, from: nat := k0, off, Store(), k0 * baseSize + off;
      assert views[0..] == views;
      assert Splice(was, from, []) == was && d[..0] == [];
      while i < |views| && bpos < |d|
        invariant Filling(views, d, len, i, bpos, k, npos, was, from)
        decreases |d| - bpos
      {
        var n := FillView(views, d, len, i, bpos, k, npos, was, from);
        bpos, i, k, npos := bpos + n, i + 1, k + 1, 0;
      }
      assert d[..|d|] == d;
    }
  }

  /** The bytes a view shows. */
  ghost function Shown(v: View): bytes
    reads v.base
  {
    if v.off + v.len <= v.base.Length then v.base[v.off..v.off + v.len] else []
  }

  /** The bytes a list of views shows, as `sendmsg` gathers them. */
  ghost function Gather(vs: seq<View>): bytes
    reads set v | v in vs :: v.base
  {
    if vs == [] then [] else Shown(vs[0]) + Gather(vs[1..])
  }
}
