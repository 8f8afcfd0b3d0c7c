/** Whole runs of a ByteArray, first against the flat store, then against a plain file. */
module ByteArrayRuns {
  import opened Bytes
  import opened FlatStream
  import opened ByteArrays

  datatype Op = WriteOp(d: bytes) | ReadOp(n: nat) | SeekOp(v: nat) | ClearOp

  /** What a call hands back: bytes read, nothing, or the out-of-range exception. */
  type Out = Result<bytes>

  ghost predicate Fits(s: Flat, op: Op, junk: bytes)
  {
    && Sound(s)
    && (op.WriteOp? ==> JunkFits(s, |op.d|, junk))
  }

  /** One call on the flat store. */
  ghost function Step(s: Flat, op: Op, junk: bytes): (Flat, Out)
    requires Fits(s, op, junk)
  {
    match op
    case WriteOp(d) => (Write(s, d, junk), Ok([]))
    case ReadOp(n) => if n > s.size - s.pos then (s, OutOfRange) else (AfterRead(s, n), Ok(ReadBytes(s, n)))
    case SeekOp(v) => if v > |s.store| then (s, OutOfRange) else (SetPosition(s, v), Ok([]))
    case ClearOp => (Clear(s), Ok([]))
  }

  /** Every call keeps `position <= size <= capacity` and whole blocks. */
  lemma StepOk(s: Flat, op: Op, junk: bytes)
    requires Fits(s, op, junk)
    ensures Sound(Step(s, op, junk).0) && Step(s, op, junk).0.base == s.base
  {
    match op
    case WriteOp(d) => WriteData(s, d, junk);
    case ClearOp => ClearOk(s);
    case _ =>
  }

  /** A run is possible with these uninitialised bytes. */
  ghost predicate RunFits(s: Flat, ops: seq<Op>, junks: seq<bytes>)
    requires |junks| == |ops|
    decreases |ops|
  {
    ops == [] ||
    (Fits(s, ops[0], junks[0]) && RunFits(Step(s, ops[0], junks[0]).0, ops[1..], junks[1..]))
  }

  ghost function Run(s: Flat, ops: seq<Op>, junks: seq<bytes>): (Flat, seq<Out>)
    requires |junks| == |ops| && RunFits(s, ops, junks)
    decreases |ops|
  {
    if ops == [] then (s, [])
    else
      var (t, o) := Step(s, ops[0], junks[0]);
      var (u, os) := Run(t, ops[1..], junks[1..]);
      (u, [o] + os)
  }

  /** The plain reference: a byte string and a position, nothing about blocks or capacity. */
  datatype File = File(data: bytes, pos: nat)

  ghost predicate FileOk(f: File) { f.pos <= |f.data| }

  ghost function FileStep(f: File, op: Op): (File, Out)
    requires FileOk(f)
  {
    match op
    case WriteOp(d) => (File(Overwrite(f.data, f.pos, d), f.pos + |d|), Ok([]))
    case ReadOp(n) => if n > |f.data| - f.pos then (f, OutOfRange) else (f.(pos := f.pos + n), Ok(f.data[f.pos..f.pos + n]))
    case SeekOp(v) => if v > |f.data| then (f, OutOfRange) else (f.(pos := v), Ok([]))
    case ClearOp => (File([], 0), Ok([]))
  }

  /** Every seek stays within the data written so far. */
  ghost predicate SeeksInside(f: File, ops: seq<Op>)
    decreases |ops|
  {
    ops == [] ||
    (FileOk(f) && (ops[0].SeekOp? ==> ops[0].v <= |f.data|) && SeeksInside(FileStep(f, ops[0]).0, ops[1..]))
  }

  ghost function FileRun(f: File, ops: seq<Op>): (File, seq<Out>)
    requires SeeksInside(f, ops)
    decreases |ops|
  {
    if ops == [] then (f, [])
    else
      var (t, o) := FileStep(f, ops[0]);
      var (u, os) := FileRun(t, ops[1..]);
      (u, [o] + os)
  }

  ghost function AsFile(s: Flat): File
    requires Sound(s)
  {
    File(Data(s), s.pos)
  }

  lemma StepIsFileStep(s: Flat, op: Op, junk: bytes)
    requires Fits(s, op, junk) && (op.SeekOp? ==> op.v <= s.size)
    ensures Sound(Step(s, op, junk).0)
    ensures (AsFile(Step(s, op, junk).0), Step(s, op, junk).1) == FileStep(AsFile(s), op)
  {
    StepOk(s, op, junk);
    match op
    case WriteOp(d) => WriteData(s, d, junk);
    case ReadOp(n) => if n <= s.size - s.pos { SubSlice(s.store, 0, s.size, s.pos, n); }
    case _ =>
  }

  /** Over every run whose seeks stay inside the data, blocks, capacity and uninitialised bytes
      are invisible: outputs and final data are those of the plain file. */
  lemma {:induction false} RunIsFileRun(s: Flat, ops: seq<Op>, junks: seq<bytes>)
    requires Sound(s) && |junks| == |ops| && RunFits(s, ops, junks) && SeeksInside(AsFile(s), ops)
    ensures Sound(Run(s, ops, junks).0)
    ensures (AsFile(Run(s, ops, junks).0), Run(s, ops, junks).1) == FileRun(AsFile(s), ops)
    decreases |ops|
  {
    if ops != [] {
      StepIsFileStep(s, ops[0], junks[0]);
      RunIsFileRun(Step(s, ops[0], junks[0]).0, ops[1..], junks[1..]);
    }
  }

  lemma RunOne(s: Flat, op: Op, junk: bytes)
    requires Fits(s, op, junk)
    ensures RunFits(s, [op], [junk])
    ensures Run(s, [op], [junk]) == (Step(s, op, junk).0, [Step(s, op, junk).1])
  {
    var t := Step(s, op, junk);
    assert [op][1..] == [] && [junk][1..] == [];
    assert RunFits(t.0, [], []) && Run(t.0, [], []) == (t.0, []);
    assert [t.1] + [] == [t.1];
  }

  lemma {:induction false} RunSnoc(s: Flat, ops: seq<Op>, junks: seq<bytes>, op: Op, junk: bytes)
    requires |junks| == |ops| && RunFits(s, ops, junks) && Fits(Run(s, ops, junks).0, op, junk)
    ensures RunFits(s, ops + [op], junks + [junk])
    ensures var (t, o) := Step(Run(s, ops, junks).0, op, junk);
            Run(s, ops + [op], junks + [junk]) == (t, Run(s, ops, junks).1 + [o])
    decreases |ops|
  {
    if ops == [] {
      assert ops + [op] == [op] && junks + [junk] == [junk];
      RunOne(s, op, junk);
      assert Run(s, ops, junks) == (s, []);
      assert [] + [Step(s, op, junk).1] == [Step(s, op, junk).1];
    } else {
      assert (ops + [op])[1..] == ops[1..] + [op] && (junks + [junk])[1..] == junks[1..] + [junk];
      var (t, o) := Step(s, ops[0], junks[0]);
      var (u, os) := Run(t, ops[1..], junks[1..]);
      RunSnoc(t, ops[1..], junks[1..], op, junk);
      var last := Step(u, op, junk).1;
      assert [o] + (os + [last]) == [o] + os + [last];
    }
  }

  /** One call on the object. */
  method Call(ba: ByteArray, op: Op) returns (o: Out, ghost junk: bytes)
    requires ba.Valid() && (op.ReadOp? ==> op.n > 0)
    modifies ba, ba.Cells
    ensures ba.Valid() && fresh(ba.Cells - old(ba.Cells))
    ensures Fits(old(ba.Abs()), op, junk) && (ba.Abs(), o) == Step(old(ba.Abs()), op, junk)
  {
    ba.AbsOk();
    junk := [];
    match op
    case WriteOp(d) =>
      junk := ba.Write(d);
      o := Ok([]);
    case ReadOp(n) =>
      o := ba.Read(n);
    case SeekOp(v) =>
      var r := ba.SetPosition(v);
      o := if r.Ok? then Ok([]) else OutOfRange;
    case ClearOp =>
      ba.Clear();
      o := Ok([]);
  }

  /** Any run of calls on the block chain is a run of the flat store with the same outputs. */
  method Drive(ba: ByteArray, ops: seq<Op>) returns (outs: seq<Out>, ghost junks: seq<bytes>)
    requires ba.Valid() && forall i :: 0 <= i < |ops| && ops[i].ReadOp? ==> ops[i].n > 0
    modifies ba, ba.Cells
    ensures ba.Valid() && fresh(ba.Cells - old(ba.Cells))
    ensures |junks| == |ops| && RunFits(old(ba.Abs()), ops, junks)
    ensures (ba.Abs(), outs) == Run(old(ba.Abs()), ops, junks)
  {
    outs, junks := [], [];
    for i := 0 to |ops|
      invariant ba.Valid() && fresh(ba.Cells - old(ba.Cells))
      invariant |junks| == i && RunFits(old(ba.Abs()), ops[..i], junks)
      invariant (ba.Abs(), outs) == Run(old(ba.Abs()), ops[..i], junks)
    {
      ghost var now := ba.Abs();
      var o, junk := Call(ba, ops[i]);
      RunSnoc(old(ba.Abs()), ops[..i], junks, ops[i], junk);
      assert ops[..i + 1] == ops[..i] + [ops[i]];
      outs, junks := outs + [o], junks + [junk];
    }
    assert ops[..|ops|] == ops;
  }
}

/** The socket stream's use of the scatter/gather views. */
module SocketIo {
  import opened Bytes
  import FS = FlatStream
  import opened BlockChain
  import opened ByteArrays

  /** What the kernel did with a request: an error, or bytes moved. */
  datatype Received = RecvFailed | Arrived(d: bytes)
  datatype Sent = SendFailed | Taken(n: nat)

  /** Read from the socket straight into the blocks: the same data and position as writing the
      bytes that arrived, however few they are. */
  method Receive(ba: ByteArray, connected: bool, length: nat, got: Received) returns (rt: int)
    requires ba.Valid() && length > 0 && (got.Arrived? ==> |got.d| <= length)
    modifies ba, ba.Cells
    ensures ba.Valid() && fresh(ba.Cells - old(ba.Cells)) && FS.Sound(old(ba.Abs())) && FS.Sound(ba.Abs())
    ensures !connected ==> rt == -1 && ba.Abs() == old(ba.Abs())
    ensures connected && got.RecvFailed? ==>
              rt == -1 && ba.position == old(ba.position) && FS.Data(ba.Abs()) == FS.Data(old(ba.Abs()))
    ensures connected && got.Arrived? ==>
              && rt == |got.d| && ba.position == old(ba.position) + |got.d|
              && FS.Data(ba.Abs()) == FS.Overwrite(FS.Data(old(ba.Abs())), old(ba.position), got.d)
  {
    ba.AbsOk();
    if !connected {
      return -1;
    }
    ghost var was := ba.Abs();
    var views, junk := ba.GetWriteBuffers(length);
    FS.GrowLeast(was, length, junk);
    if got.RecvFailed? {
      ba.AbsOk();
      return -1;
    }
    rt := |got.d|;
    Deposit(ba, views, got.d, length, was, junk);
  }

  /** Fill the views and move the position over what was filled. */
  method Deposit(ba: ByteArray, views: seq<View>, d: bytes, ghost length: nat, ghost was: FS.Flat, ghost junk: bytes)
    requires ba.Valid() && FS.Sound(was) && FS.JunkFits(was, length, junk) && ba.Abs() == FS.Grow(was, junk)
    requires |d| <= length && length > 0
    requires views == ba.Views(ba.position / ba.baseSize, ba.position % ba.baseSize, length)
    modifies ba, ba.Cells
    ensures ba.Valid() && fresh(ba.Cells - old(ba.Cells))
    ensures FS.Sound(ba.Abs()) && ba.position == was.pos + |d| && FS.Data(ba.Abs()) == FS.Overwrite(FS.Data(was), was.pos, d)
  {
    ba.AbsOk();
    FS.GrowLeast(was, length, junk);
    ghost var p := ba.position;
    BlockIndex(ba.baseSize, |ba.nodes|, ba.position);
    ba.Scatter(views, d, p / ba.baseSize, p % ba.baseSize, length);
    Over(ba, d, was, junk);
  }

  /** The data is there; the position moves over it. */
  method Over(ba: ByteArray, d: bytes, ghost was: FS.Flat, ghost junk: bytes)
    requires ba.Valid() && FS.Sound(was) && ba.position == was.pos && ba.size == was.size
    requires was.pos + |d| <= |was.store + junk| == ba.capacity && ba.Store() == Splice(was.store + junk, was.pos, d)
    modifies ba`position, ba`size, ba`cur
    ensures ba.Valid() && FS.Sound(ba.Abs()) && ba.position == was.pos + |d|
    ensures FS.Data(ba.Abs()) == FS.Overwrite(FS.Data(was), was.pos, d)
  {
    ba.AbsOk();
    if |d| > 0 {
      var r := ba.SetPosition(ba.position + |d|);
    }
    ba.AbsOk();
    FilledData(was, junk, d, ba.Abs());
  }

  /** Filling grown room and moving over it shows what a write of the same bytes would. */
  lemma FilledData(was: FS.Flat, junk: bytes, d: bytes, now: FS.Flat)
    requires FS.Sound(was) && was.pos + |d| <= |was.store + junk|
    requires now.store == Splice(was.store + junk, was.pos, d) && now.size == Max(was.size, was.pos + |d|)
    ensures now.size <= |now.store| && FS.Data(now) == FS.Overwrite(FS.Data(was), was.pos, d)
  {
  }

  /** Write to the socket straight from the blocks: exactly the next unread bytes go out, in
      order, and the position moves over what the kernel took. */
  method Send(ba: ByteArray, connected: bool, length: nat, did: Sent) returns (rt: int, ghost sent: bytes)
    requires ba.Valid() && length > 0 && ba.position < ba.size
    requires did.Taken? ==> did.n <= Min(length, ba.size - ba.position)
    modifies ba`position, ba`size, ba`cur
    ensures ba.Valid() && FS.Sound(old(ba.Abs()))
    ensures !connected || did.SendFailed? ==> rt == -1 && sent == [] && ba.Abs() == old(ba.Abs())
    ensures connected && did.Taken? ==>
              rt == did.n && sent == FS.ReadBytes(old(ba.Abs()), did.n) && ba.Abs() == FS.AfterRead(old(ba.Abs()), did.n)
  {
    ba.AbsOk();
    sent := [];
    if !connected {
      return -1, [];
    }
    var views, got := ba.GetReadBuffers(length);
    Spelled(ba, views, got);
    if did.SendFailed? {
      return -1, [];
    }
    var p: nat := ba.position;
    FrontOfRead(ba.Abs(), got, did.n);
    rt, sent := did.n, Gather(views)[0..did.n];
    if did.n > 0 {
      var r := ba.SetPosition(p + did.n);
    }
  }

  lemma FrontOfRead(s: FS.Flat, got: nat, n: nat)
    requires FS.Sound(s) && n <= got <= s.size - s.pos
    ensures |FS.ReadBytes(s, got)| == got && FS.ReadBytes(s, got)[0..n] == FS.ReadBytes(s, n)
  {
    SubSlice(s.store, s.pos, got, 0, n);
  }

  /** The views of the unread bytes spell them, each from its own block. */
  lemma Spelled(ba: ByteArray, views: seq<View>, got: nat)
    requires ba.Valid() && got <= ba.size - ba.position
    requires views == ba.Views(ba.position / ba.baseSize, ba.position % ba.baseSize, got)
    ensures FS.Sound(ba.Abs()) && Gather(views) == FS.ReadBytes(ba.Abs(), got)
    ensures forall i, j :: 0 <= i < j < |views| ==> views[i].base != views[j].base
  {
    ba.AbsOk();
    if got > 0 { ba.ViewsSpell(ba.position, got); }
  }

  /** The root-walking views at the stream position. */
  method Walked(ba: ByteArray, length: nat) returns (views: seq<View>)
    requires ba.Valid()
    ensures views == ba.Views(ba.position / ba.baseSize, ba.position % ba.baseSize, Min(length, ba.size - ba.position))
  {
    ba.AbsOk();
    var got;
    views, got := ba.GetReadBuffersAt(length, ba.position);
  }

  /** The cursor-based views and the root-walking ones at the stream position are the same; they
      lie in different blocks and spell the unread bytes. */
  method BothReadBuffers(ba: ByteArray, length: nat) returns (views: seq<View>, walked: seq<View>)
    requires ba.Valid()
    ensures views == walked
    ensures forall i, j :: 0 <= i < j < |views| ==> views[i].base != views[j].base
    ensures FS.Sound(ba.Abs()) && Gather(views) == FS.ReadBytes(ba.Abs(), Min(length, ba.size - ba.position))
  {
    walked := Walked(ba, length);
    var got;
    views, got := ba.GetReadBuffers(length);
    Spelled(ba, views, got);
  }
}
