/** Writing and reading typed records on a ByteArray object. */
module RecordStreams {
  import opened Bytes
  import opened Codec
  import opened Records
  import opened ByteArrays
  import FS = FlatStream

  ghost predicate Good(ba: ByteArray)
    reads ba, ba.Cells
  {
    ba.Valid() && FS.Sound(ba.Abs())
  }

  ghost function Data(ba: ByteArray): bytes
    reads ba, ba.Cells
    requires Good(ba)
  {
    FS.Data(ba.Abs())
  }

  ghost function Order(ba: ByteArray, host: bool): Records.Order
    reads ba
  {
    Records.Order(host, ba.littleEndian)
  }

  lemma OverwriteTwice(data: bytes, pos: nat, d: bytes, e: bytes)
    requires pos <= |data|
    ensures FS.Overwrite(FS.Overwrite(data, pos, d), pos + |d|, e) == FS.Overwrite(data, pos, d + e)
  {
  }

  method Put(ba: ByteArray, d: bytes)
    requires Good(ba)
    modifies ba, ba.Cells
    ensures Good(ba) && fresh(ba.Cells - old(ba.Cells)) && ba.littleEndian == old(ba.littleEndian)
    ensures ba.position == old(ba.position) + |d|
    ensures Data(ba) == FS.Overwrite(old(Data(ba)), old(ba.position), d)
  {
    var junk := ba.Write(d);
    FS.WriteData(old(ba.Abs()), d, junk);
  }

  /** The bytes of a number: fixed width, or a varint. */
  method NumBytes(host: bool, little: bool, k: Kind, n: int) returns (bs: bytes)
    requires !k.Str? && ValidRec(Rec(k, Num(n)))
    ensures bs == EncodeNum(Records.Order(host, little), k, n)
  {
    match k {
      case UInt(w) => bs := FixedBytes(host, little, n, w);
      case SInt(w) => bs := FixedBytes(host, little, ToUnsigned(8 * w, n), w);
      case UVar(bits) => bs := EncodeVarint(n, bits);
      case SVar(bits) =>
        ZigzagEncodeDecode(bits, n);
        bs := EncodeVarint(EncodeZigzag(bits, n), bits);
    }
  }

  method WriteNum(ba: ByteArray, host: bool, k: Kind, n: int)
    requires Good(ba) && !k.Str? && ValidRec(Rec(k, Num(n)))
    modifies ba, ba.Cells
    ensures Good(ba) && fresh(ba.Cells - old(ba.Cells)) && ba.littleEndian == old(ba.littleEndian)
    ensures var bs := EncodeNum(old(Order(ba, host)), k, n);
            && ba.position == old(ba.position) + |bs|
            && Data(ba) == FS.Overwrite(old(Data(ba)), old(ba.position), bs)
  {
    var bs := NumBytes(host, ba.littleEndian, k, n);
    Put(ba, bs);
  }

  /** A string: its length, cut to the prefix, then its bytes. */
  method WriteText(ba: ByteArray, host: bool, p: Prefix, s: bytes)
    requires Good(ba) && ValidRec(Rec(Str(p), Text(s)))
    modifies ba, ba.Cells
    ensures Good(ba) && fresh(ba.Cells - old(ba.Cells)) && ba.littleEndian == old(ba.littleEndian)
    ensures var bs := EncodePrefix(old(Order(ba, host)), p, |s|) + s;
            && ba.position == old(ba.position) + |bs|
            && Data(ba) == FS.Overwrite(old(Data(ba)), old(ba.position), bs)
  {
    OverwriteTwice(Data(ba), ba.position, EncodePrefix(Order(ba, host), p, |s|), s);
    WriteNum(ba, host, PrefixKind(p), |s| % Pow2(PrefixBits(p)));
    Put(ba, s);
  }

  method WriteRecord(ba: ByteArray, host: bool, r: Rec)
    requires Good(ba) && ValidRec(r)
    modifies ba, ba.Cells
    ensures Good(ba) && fresh(ba.Cells - old(ba.Cells)) && ba.littleEndian == old(ba.littleEndian)
    ensures var bs := Encode(old(Order(ba, host)), r);
            && ba.position == old(ba.position) + |bs|
            && Data(ba) == FS.Overwrite(old(Data(ba)), old(ba.position), bs)
  {
    if r.kind.Str? {
      WriteText(ba, host, r.kind.prefix, r.value.s);
    } else {
      WriteNum(ba, host, r.kind, r.value.n);
    }
  }

  /** The unread bytes. */
  ghost function Rest(ba: ByteArray): bytes
    reads ba, ba.Cells
    requires Good(ba)
  {
    Data(ba)[ba.position..]
  }

  method Take(ba: ByteArray, n: nat) returns (r: Result<bytes>)
    requires Good(ba) && (n > 0 || ba.position < ba.capacity)
    modifies ba`position, ba`cur
    ensures Good(ba) && Data(ba) == old(Data(ba))
    ensures r.OutOfRange? <==> n > |old(Rest(ba))|
    ensures r.OutOfRange? ==> ba.position == old(ba.position)
    ensures r.Ok? ==> r.value == old(Rest(ba))[..n] && ba.position == old(ba.position) + n
  {
    ghost var s := ba.Abs();
    r := ba.Read(n);
    if r.Ok? { FS.ReadData(s, n); }
  }

  /** What is known of the whole varint once `n` bytes gave `sum`. */
  ghost function Continue(tail: Option<(nat, nat)>, sum: nat, n: nat): Option<(nat, nat)>
  {
    match tail
    case None => None
    case Some((v, m)) => Some((sum + v, n + m))
  }

  lemma ModAdd(s: int, x: int, m: int)
    requires m > 0
    ensures (s % m + x) % m == (s + x) % m
  {
    var q, t := s / m, (s % m + x) / m;
    assert s + x == q * m + (s % m + x);
    MulDist(q, t, m);
    DivModUnique(s + x, m, q + t, (s % m + x) % m);
  }

  /** What one more byte says about the whole varint. */
  lemma VarintTurn(here: bytes, i: nat, bits: nat, sum: nat, n: nat)
    requires i < bits && here != []
    ensures var b := here[0];
            Continue(VarintTail(here, i, bits), sum, n)
            == if b >= 0x80 then Continue(VarintTail(here[1..], i + 7, bits), sum + Shl(b - 0x80, i), n + 1)
               else Some((sum + Shl(b, i), n + 1))
  {
  }

  /** The bits that fit a word. */
  function Cut(s: nat, bits: nat): nat { s % Pow2(bits) }

  /** `result |= low << i`: the groups of seven bits do not overlap, so it is an addition. */
  function OrIn(result: nat, low: nat, i: nat, bits: nat): nat { Cut(result + Shl(low, i), bits) }

  lemma OrInCut(sum: nat, low: nat, i: nat, bits: nat)
    ensures OrIn(Cut(sum, bits), low, i, bits) == Cut(sum + Shl(low, i), bits)
  {
    ModAdd(sum, Shl(low, i), Pow2(bits));
  }

  /** One turn of the varint reading loop. */
  method TakeGroup(ba: ByteArray, i: nat, bits: nat, ghost sum: nat, ghost n: nat) returns (r: Result<(byte, bool)>)
    requires Good(ba) && i < bits
    modifies ba`position, ba`cur
    ensures Good(ba) && Data(ba) == old(Data(ba))
    ensures r.OutOfRange? ==> VarintTail(old(Rest(ba)), i, bits) == None && ba.position == ba.size
    ensures r.Ok? ==> ba.position == old(ba.position) + 1 && r.value.0 < 0x80
    ensures r.Ok? ==>
              var t := Continue(VarintTail(old(Rest(ba)), i, bits), sum, n);
              t == if r.value.1 then Continue(VarintTail(Rest(ba), i + 7, bits), sum + Shl(r.value.0, i), n + 1)
                   else Some((sum + Shl(r.value.0, i), n + 1))
  {
    ghost var here := Rest(ba);
    var t := Take(ba, 1);
    if t.OutOfRange? {
      return OutOfRange;
    }
    var b := t.value[0];
    assert here[0] == b && here[1..] == Rest(ba);
    VarintTurn(here, i, bits, sum, n);
    r := Ok(if b < 0x80 then (b, false) else (b - 0x80, true));
  }

  /** The whole varint, told from what was read: `n` bytes giving `sum`, and what follows if `more`. */
  ghost predicate Reads(whole: Option<(nat, nat)>, rest: bytes, i: nat, bits: nat, more: bool, sum: nat, n: nat) {
    whole == if more then Continue(VarintTail(rest, i, bits), sum, n) else Some((sum, n))
  }

  /** The loop body: one group read and put in its place. */
  method TakeTurn(ba: ByteArray, bits: nat, i: nat, result: nat,
      ghost whole: Option<(nat, nat)>, ghost sum: nat, ghost n: nat)
    returns (over: bool, result': nat, more: bool, ghost sum': nat)
    requires Good(ba) && i < bits && result == Cut(sum, bits)
    requires Reads(whole, Rest(ba), i, bits, true, sum, n)
    modifies ba`position, ba`cur
    ensures Good(ba) && Data(ba) == old(Data(ba))
    ensures over ==> whole == None && ba.position == ba.size
    ensures !over ==> ba.position == old(ba.position) + 1 && result' == Cut(sum', bits)
    ensures !over ==> Reads(whole, Rest(ba), i + 7, bits, more, sum', n + 1)
  {
    var t := TakeGroup(ba, i, bits, sum, n);
    if t.OutOfRange? {
      return true, 0, false, 0;
    }
    var low;
    low, more := t.value.0, t.value.1;
    OrInCut(sum, low, i, bits);
    over, result', sum' := false, OrIn(result, low, i, bits), sum + Shl(low, i);
  }

  /** One byte at a time until one below 0x80, or the word is full. */
  method TakeVarint(ba: ByteArray, bits: nat) returns (r: Result<nat>)
    requires Good(ba) && bits in {32, 64}
    modifies ba`position, ba`cur
    ensures Good(ba) && Data(ba) == old(Data(ba))
    ensures match ReadVarint(old(Rest(ba)), bits)
            case None => r.OutOfRange? && ba.position == ba.size
            case Some((v, n)) => r == Ok(v) && ba.position == old(ba.position) + n
  {
    ghost var whole, sum: nat, n: nat := VarintTail(Rest(ba), 0, bits), 0, 0;
    var result: nat, i: nat, more := 0, 0, true;
    ModSmall(0, Pow2(bits));
    while i < bits && more
      invariant Good(ba) && Data(ba) == old(Data(ba)) && ba.position == old(ba.position) + n
      invariant result == Cut(sum, bits) && Reads(whole, Rest(ba), i, bits, more, sum, n)
      decreases bits + 7 - i
    {
      var over;
      over, result, more, sum := TakeTurn(ba, bits, i, result, whole, sum, n);
      if over {
        return OutOfRange;
      }
      i, n := i + 7, n + 1;
    }
    r := Ok(result);
  }

  method TakeNum(ba: ByteArray, host: bool, k: Kind) returns (r: Result<int>)
    requires Good(ba) && !k.Str? && ValidKind(k)
    modifies ba`position, ba`cur
    ensures Good(ba) && Data(ba) == old(Data(ba))
    ensures match DecodeNum(old(Order(ba, host)), k, old(Rest(ba)))
            case None => r.OutOfRange? && ba.position == old(ba.position + Skipped(Order(ba, host), k, Rest(ba)))
            case Some((v, n)) => r == Ok(v) && ba.position == old(ba.position) + n
  {
    match k {
      case UInt(w) =>
        var t := Take(ba, w);
        if t.OutOfRange? { return OutOfRange; }
        r := Ok(FixedValue(host, ba.littleEndian, t.value));
      case SInt(w) =>
        var t := Take(ba, w);
        if t.OutOfRange? { return OutOfRange; }
        FixedValueBound(Order(ba, host), t.value);
        r := Ok(ToSigned(8 * w, FixedValue(host, ba.littleEndian, t.value)));
      case UVar(bits) =>
        var t := TakeVarint(ba, bits);
        if t.OutOfRange? { return OutOfRange; }
        r := Ok(t.value);
      case SVar(bits) =>
        var t := TakeVarint(ba, bits);
        if t.OutOfRange? { return OutOfRange; }
        r := Ok(DecodeZigzag(bits, t.value));
    }
  }

  /** The prefix of a string announces zero bytes and the chain ends right there: the code reads
      through a null block pointer. */
  ghost predicate EmptyAtEnd(ba: ByteArray, host: bool, k: Kind)
    reads ba, ba.Cells
    requires Good(ba) && ValidKind(k)
  {
    k.Str? &&
    match DecodeNum(Order(ba, host), PrefixKind(k.prefix), Rest(ba))
    case None => false
    case Some((len, n)) => len == 0 && ba.position + n == ba.capacity
  }

  method TakeText(ba: ByteArray, host: bool, p: Prefix) returns (r: Result<bytes>)
    requires Good(ba) && ValidKind(Str(p)) && !EmptyAtEnd(ba, host, Str(p))
    modifies ba`position, ba`cur
    ensures Good(ba) && Data(ba) == old(Data(ba))
    ensures match Decode(old(Order(ba, host)), Str(p), old(Rest(ba)))
            case None => r.OutOfRange? && ba.position == old(ba.position + Skipped(Order(ba, host), Str(p), Rest(ba)))
            case Some((v, n)) => r.Ok? && v == Text(r.value) && ba.position == old(ba.position) + n
  {
    ghost var o, rest, data, pos := Order(ba, host), Rest(ba), Data(ba), ba.position;
    if DecodeNum(o, PrefixKind(p), rest).Some? {
      TextAfterPrefix(o, p, rest);
      DropDrop(data, pos, DecodeNum(o, PrefixKind(p), rest).value.1);
    }
    var t := TakeNum(ba, host, PrefixKind(p));
    if t.OutOfRange? { return OutOfRange; }
    r := Take(ba, t.value);
  }

  method TakeRecord(ba: ByteArray, host: bool, k: Kind) returns (r: Result<Value>)
    requires Good(ba) && ValidKind(k) && !EmptyAtEnd(ba, host, k)
    modifies ba`position, ba`cur
    ensures Good(ba) && Data(ba) == old(Data(ba))
    ensures match Decode(old(Order(ba, host)), k, old(Rest(ba)))
            case None => r.OutOfRange? && ba.position == old(ba.position + Skipped(Order(ba, host), k, Rest(ba)))
            case Some((v, n)) => r == Ok(v) && ba.position == old(ba.position) + n
  {
    if k.Str? {
      var t := TakeText(ba, host, k.prefix);
      r := if t.Ok? then Ok(Text(t.value)) else OutOfRange;
    } else {
      var t := TakeNum(ba, host, k);
      r := if t.Ok? then Ok(Num(t.value)) else OutOfRange;
    }
  }

  /** `bs` was written at `pos` over `data`. */
  ghost predicate Wrote(ba: ByteArray, data: bytes, pos: nat, bs: bytes)
    reads ba, ba.Cells
  {
    Good(ba) && pos <= |data| && ba.position == pos + |bs| && Data(ba) == FS.Overwrite(data, pos, bs)
  }

  lemma EncodeAllNext(o: Records.Order, rs: seq<Rec>, i: nat)
    requires ValidAll(rs) && i < |rs|
    ensures EncodeAll(o, rs[..i + 1]) == EncodeAll(o, rs[..i]) + Encode(o, rs[i])
  {
    EncodeAllSnoc(o, rs[..i], rs[i]);
    assert rs[..i + 1] == rs[..i] + [rs[i]];
  }

  method WriteNext(ba: ByteArray, host: bool, rs: seq<Rec>, i: nat, ghost o: Records.Order, ghost data: bytes, ghost pos: nat)
    requires ValidAll(rs) && i < |rs| && o == Order(ba, host)
    requires Wrote(ba, data, pos, EncodeAll(o, rs[..i]))
    modifies ba, ba.Cells
    ensures fresh(ba.Cells - old(ba.Cells)) && Order(ba, host) == o
    ensures Wrote(ba, data, pos, EncodeAll(o, rs[..i + 1]))
  {
    EncodeAllNext(o, rs, i);
    ghost var done, next := EncodeAll(o, rs[..i]), Encode(o, rs[i]);
    OverwriteTwice(data, pos, done, next);
    WriteRecord(ba, host, rs[i]);
    assert Wrote(ba, data, pos, done + next);
  }

  method WriteAll(ba: ByteArray, host: bool, rs: seq<Rec>)
    requires Good(ba) && ValidAll(rs)
    modifies ba, ba.Cells
    ensures fresh(ba.Cells - old(ba.Cells)) && Order(ba, host) == old(Order(ba, host))
    ensures Wrote(ba, old(Data(ba)), old(ba.position), EncodeAll(Order(ba, host), rs))
  {
    ghost var o := Order(ba, host);
    OverwriteNothing(Data(ba), ba.position);
    for i := 0 to |rs|
      invariant fresh(ba.Cells - old(ba.Cells)) && Order(ba, host) == o
      invariant Wrote(ba, old(Data(ba)), old(ba.position), EncodeAll(o, rs[..i]))
    {
      WriteNext(ba, host, rs, i, o, old(Data(ba)), old(ba.position));
    }
    assert rs[..|rs|] == rs;
  }

  lemma OverwriteNothing(data: bytes, pos: nat)
    requires pos <= |data|
    ensures FS.Overwrite(data, pos, []) == data
  {
  }

  lemma OverwriteSlice(data: bytes, pos: nat, d: bytes)
    requires pos <= |data|
    ensures var r := FS.Overwrite(data, pos, d); pos + |d| <= |r| && r[pos..] == d + r[pos + |d|..]
  {
  }

  /** The records `rs` are what is to be read next, before `tail`. */
  ghost predicate Before(ba: ByteArray, wo: Records.Order, rs: seq<Rec>, tail: bytes)
    reads ba, ba.Cells
  {
    && Good(ba) && ValidAll(rs) && wo.little == ba.littleEndian
    && Rest(ba) == EncodeAll(wo, rs) + tail
  }

  /** They end flush with the capacity, and the last one is an empty string. */
  ghost predicate Flush(ba: ByteArray, rs: seq<Rec>, tail: bytes)
    reads ba
  {
    EndsEmpty(rs) && ba.size == ba.capacity + |tail|
  }

  /** They can all be read. */
  ghost predicate Ahead(ba: ByteArray, wo: Records.Order, rs: seq<Rec>, tail: bytes)
    reads ba, ba.Cells
  {
    Before(ba, wo, rs, tail) && !Flush(ba, rs, tail)
  }

  /** The next record of a written list is there to be read. */
  lemma NextRecord(ba: ByteArray, host: bool, wo: Records.Order, rs: seq<Rec>, tail: bytes)
    requires rs != [] && Before(ba, wo, rs, tail)
    ensures Decode(Order(ba, host), rs[0].kind, Rest(ba)) == Some((rs[0].value, |Encode(wo, rs[0])|))
    ensures |Encode(wo, rs[0])| <= |Rest(ba)|
    ensures Rest(ba)[|Encode(wo, rs[0])|..] == EncodeAll(wo, rs[1..]) + tail
  {
    FirstOfAll(wo, Order(ba, host), rs, tail);
  }

  /** Reading it goes through a null block pointer exactly if it is the last one and the list is flush. */
  lemma NextUnsafeIff(ba: ByteArray, host: bool, wo: Records.Order, rs: seq<Rec>, tail: bytes)
    requires rs != [] && Before(ba, wo, rs, tail)
    ensures EmptyAtEnd(ba, host, rs[0].kind) <==> |rs| == 1 && Flush(ba, rs, tail)
  {
    FirstOfAll(wo, Order(ba, host), rs, tail);
    assert ba.position + |EncodeAll(wo, rs)| + |tail| == ba.size <= ba.capacity;
    if |rs| == 1 { assert |EncodeAll(wo, rs[1..])| == 0; }
  }

  method ReadNext(ba: ByteArray, host: bool, k: Kind, ghost wo: Records.Order, ghost rs: seq<Rec>, ghost tail: bytes)
    returns (v: Value)
    requires rs != [] && k == rs[0].kind && Ahead(ba, wo, rs, tail)
    modifies ba`position, ba`cur
    ensures Ahead(ba, wo, rs[1..], tail) && Data(ba) == old(Data(ba))
    ensures v == rs[0].value
  {
    ghost var rest, n := Rest(ba), |Encode(wo, rs[0])|;
    NextRecord(ba, host, wo, rs, tail);
    NextUnsafeIff(ba, host, wo, rs, tail);
    DropDrop(Data(ba), ba.position, n);
    var t := TakeRecord(ba, host, k);
    v := t.value;
    StillAhead(ba, wo, rs, tail, rest, n);
  }

  lemma StillAhead(ba: ByteArray, wo: Records.Order, rs: seq<Rec>, tail: bytes, rest: bytes, n: nat)
    requires Good(ba) && rs != [] && ValidAll(rs) && wo.little == ba.littleEndian && !Flush(ba, rs, tail)
    requires n <= |rest| && Rest(ba) == rest[n..] == EncodeAll(wo, rs[1..]) + tail
    ensures Ahead(ba, wo, rs[1..], tail)
  {
  }

  method ReadAll(ba: ByteArray, host: bool, kinds: seq<Kind>, ghost wo: Records.Order, ghost rs: seq<Rec>, ghost tail: bytes)
    returns (values: seq<Value>)
    requires kinds == Kinds(rs) && Ahead(ba, wo, rs, tail)
    modifies ba`position, ba`cur
    ensures Good(ba) && Data(ba) == old(Data(ba))
    ensures values == Values(rs) && Rest(ba) == tail
  {
    values := [];
    assert rs[0..] == rs;
    for i := 0 to |kinds|
      invariant Ahead(ba, wo, rs[i..], tail) && Data(ba) == old(Data(ba))
      invariant values == Values(rs[..i])
    {
      OneMore(rs, i);
      var v := ReadNext(ba, host, kinds[i], wo, rs[i..], tail);
      values := values + [v];
    }
    assert rs[..|kinds|] == rs;
    assert [] + tail == tail;
  }

  lemma OneMore(rs: seq<Rec>, i: nat)
    requires i < |rs|
    ensures rs[i..] != [] && rs[i..][0] == rs[i] && rs[i..][1..] == rs[i + 1..]
    ensures Values(rs[..i + 1]) == Values(rs[..i]) + [rs[i].value]
  {
  }

  lemma OneOfAll(o: Records.Order, r: Rec)
    requires ValidRec(r) && LengthFits(r)
    ensures EncodeAll(o, [r]) == Encode(o, r) && |Encode(o, r)| >= 1
  {
    assert [r][1..] == [];
    assert EncodeAll(o, [r]) == Encode(o, r) + EncodeAll(o, []);
    RecordRoundTrip(o, o, r, []);
  }

  lemma LastOfAll(o: Records.Order, rs: seq<Rec>)
    requires ValidAll(rs) && rs != []
    ensures var k := |rs| - 1;
            && ValidAll(rs[..k]) && rs[k..] == [rs[k]] && EncodeAll(o, rs) == EncodeAll(o, rs[..k]) + EncodeAll(o, rs[k..])
            && |EncodeAll(o, rs[k..])| >= 1
  {
    var k := |rs| - 1;
    EncodeAllNext(o, rs, k);
    OneOfAll(o, rs[k]);
    assert rs[..k + 1] == rs;
  }

  /** All but the last record of a flush list are read; reading the last would go through a null pointer. */
  method ReadFlush(ba: ByteArray, host: bool, ghost wo: Records.Order, rs: seq<Rec>, ghost tail: bytes)
    returns (values: seq<Value>)
    requires Before(ba, wo, rs, tail) && Flush(ba, rs, tail)
    modifies ba`position, ba`cur
    ensures Good(ba) && Data(ba) == old(Data(ba))
    ensures values == Values(rs[..|rs| - 1]) && EmptyAtEnd(ba, host, rs[|rs| - 1].kind)
  {
    var k := |rs| - 1;
    LastOfAll(wo, rs);
    ghost var last := EncodeAll(wo, rs[k..]);
    Assoc(EncodeAll(wo, rs[..k]), last, tail);
    values := ReadAll(ba, host, Kinds(rs[..k]), wo, rs[..k], last + tail);
    NextUnsafeIff(ba, host, wo, rs[k..], tail);
  }

  /** Write a list of records, go back, and read it by the same types: the same list, and exactly
      the bytes written, on any two hosts and across any block boundaries. The one exception (`flush`) is a
      list whose last record is an empty string that ends flush with the capacity: all before it is read, and
      reading it would look at a block that does not exist. */
  method RoundTrip(ba: ByteArray, writer: bool, reader: bool, rs: seq<Rec>) returns (values: seq<Value>, flush: bool)
    requires Good(ba) && ValidAll(rs)
    modifies ba, ba.Cells
    ensures Good(ba) && Data(ba) == FS.Overwrite(old(Data(ba)), old(ba.position), EncodeAll(old(Order(ba, writer)), rs))
    ensures flush <==> EndsEmpty(rs) && old(ba.position) + |EncodeAll(old(Order(ba, writer)), rs)| == ba.capacity
    ensures !flush ==>
              values == Values(rs) && ba.position == old(ba.position) + |EncodeAll(old(Order(ba, writer)), rs)|
    ensures flush ==> values == Values(rs[..|rs| - 1]) && EmptyAtEnd(ba, reader, rs[|rs| - 1].kind)
  {
    var start := ba.position;
    ghost var o, data := Order(ba, writer), Data(ba);
    WriteAll(ba, writer, rs);
    flush := EndsEmpty(rs) && ba.position == ba.capacity;
    ghost var now, end, bs := Data(ba), ba.position, EncodeAll(o, rs);
    OverwriteSlice(data, start, bs);
    var r := ba.SetPosition(start);
    assert Data(ba) == now && Rest(ba) == now[start..] == bs + now[end..];
    if flush {
      values := ReadFlush(ba, reader, o, rs, now[end..]);
    } else {
      values := ReadAll(ba, reader, Kinds(rs), o, rs, now[end..]);
      assert |Rest(ba)| == |now| - end;
    }
  }

  /** The least such input: one empty string with a 16-bit prefix in a block of two bytes. */
  method LeastFlush(host: bool) returns (ba: ByteArray)
    ensures Good(ba) && ba.capacity == 2 && ba.position == 0
    ensures Data(ba) == Encode(Order(ba, host), Rec(Str(Word(2)), Text([]))) && EmptyAtEnd(ba, host, Str(Word(2)))
  {
    ba := new ByteArray(2);
    ba.AbsOk();
    var r := Rec(Str(Word(2)), Text([]));
    ghost var o := Order(ba, host);
    EmptyText(o);
    ghost var was := ba.Abs();
    var junk := ba.Write([0, 0]);
    FS.WriteData(was, [0, 0], junk);
    ba.AbsOk();
    var t := ba.SetPosition(0);
    ba.AbsOk();
    NextUnsafeIff(ba, host, o, [r], []);
  }

  lemma EmptyText(o: Records.Order)
    ensures var r := Rec(Str(Word(2)), Text([]));
            ValidAll([r]) && Encode(o, r) == [0, 0] && EncodeAll(o, [r]) == [0, 0]
  {
    var r := Rec(Str(Word(2)), Text([]));
    ModSmall(0, Pow2(16));
    ZeroPrefix(o, 0);
    OneOfAll(o, r);
  }
}
