/** The chunked transfer coding of section 7.1 of RFC 9112: the writer, and the reader over a
    stream with short reads. */
module Chunked {
  import opened Bytes
  import opened HttpStream

  const ULONG_MAX: nat := 0xFFFF_FFFF_FFFF_FFFF
  const HEADER_MAX: nat := 8192
  const RECV_BUFSIZ: nat := 16384

  // ----- hexadecimal -----

  function HexDigit(d: nat): byte
    requires d < 16
  {
    if d < 10 then 48 + d else 87 + d
  }

  /** `from_i_to_hex`: lower case, no leading zeros. */
  function Hex(n: nat): bytes
  {
    if n < 16 then [HexDigit(n)] else Hex(n / 16) + [HexDigit(n % 16)]
  }

  method FromIToHex(n: nat) returns (ret: bytes)
    ensures ret == Hex(n)
  {
    var m := n;
    ret := [HexDigit(m % 16)];
    m := m / 16;
    while m > 0
      invariant Hex(n) == (if m > 0 then Hex(m) else []) + ret
    {
      ret := [HexDigit(m % 16)] + ret;
      m := m / 16;
    }
  }

  function HexValue(c: byte): Option<nat>
  {
    if 48 <= c <= 57 then Some(c - 48)
    else if 97 <= c <= 102 then Some(c - 87)
    else if 65 <= c <= 70 then Some(c - 55)
    else None
  }

  predicate IsSpace(c: byte) { c == 32 || 9 <= c <= 13 }

  function SkipSpace(s: bytes): bytes { if s != [] && IsSpace(s[0]) then SkipSpace(s[1..]) else s }

  /** The number the leading hexadecimal digits continue. */
  function Digits(s: bytes, acc: nat): nat
    decreases |s|
  {
    if s != [] && HexValue(s[0]).Some? then Digits(s[1..], acc * 16 + HexValue(s[0]).value) else acc
  }

  /** `strtoul(…, 16)`: blanks, a sign, an optional `0x` before a digit, digits; saturating, and a
      minus negates modulo the word. Nothing when there is no digit. */
  function Strtoul16(line: bytes): Option<nat>
  {
    var s := SkipSpace(line);
    var neg := s != [] && s[0] == 45;
    var t := if s != [] && (s[0] == 45 || s[0] == 43) then s[1..] else s;
    var u := if |t| >= 3 && t[0] == 48 && t[1] in {120, 88} && HexValue(t[2]).Some? then t[2..] else t;
    if u == [] || HexValue(u[0]).None? then None
    else
      var v := Digits(u, 0);
      if v > ULONG_MAX then Some(ULONG_MAX)
      else if neg && v > 0 then Some(ULONG_MAX + 1 - v)
      else Some(v)
  }

  lemma HexDigitValue(d: nat)
    requires d < 16
    ensures HexValue(HexDigit(d)) == Some(d)
  {
  }

  lemma {:induction false} DigitsOfHex(n: nat, rest: bytes)
    requires rest == [] || HexValue(rest[0]).None?
    ensures Digits(Hex(n) + rest, 0) == n
    ensures Hex(n) != [] && HexValue(Hex(n)[0]).Some?
  {
    DigitsSteps(n, rest);
    assert Digits(rest, n) == n;
    HexFirst(n);
  }

  lemma {:induction false} HexFirst(n: nat)
    ensures Hex(n) != [] && forall i :: 0 <= i < |Hex(n)| ==> HexValue(Hex(n)[i]).Some?
  {
    HexDigitValue(n % 16);
    if n >= 16 { HexFirst(n / 16); }
  }

  lemma {:induction false} DigitsSteps(n: nat, rest: bytes)
    ensures Digits(Hex(n) + rest, 0) == Digits(rest, n)
  {
    var d := HexDigit(n % 16);
    HexDigitValue(n % 16);
    if n < 16 {
      assert (Hex(n) + rest)[1..] == rest;
    } else {
      assert Hex(n) + rest == Hex(n / 16) + ([d] + rest);
      DigitsSteps(n / 16, [d] + rest);
      assert ([d] + rest)[1..] == rest;
    }
  }

  /** A chunk-size line is read back as the size. */
  lemma SizeLine(n: nat)
    requires n <= ULONG_MAX
    ensures Strtoul16(Hex(n) + CRLF) == Some(n)
  {
    DigitsOfHex(n, CRLF);
    HexFirst(n);
    var h, s := Hex(n), Hex(n) + CRLF;
    assert s[0] == h[0] && s[1] == if |h| > 1 then h[1] else CR;
    PlainStart(s);
  }

  /** No blank, sign or `0x` in front: the number is what the digits say. */
  lemma PlainStart(s: bytes)
    requires |s| > 1 && HexValue(s[0]).Some? && s[1] !in {120, 88} && Digits(s, 0) <= ULONG_MAX
    ensures Strtoul16(s) == Some(Digits(s, 0))
  {
  }

  // ----- the writer -----

  /** What a content provider does with the sink: write bytes, or say it is done. */
  datatype Sink = Data(d: bytes) | Done

  function Chunk(d: bytes): bytes { if d == [] then [] else Hex(|d|) + CRLF + d + CRLF }

  const LAST_CHUNK: bytes := [48] + CRLF

  /** What one event puts on the wire. */
  function Wire(e: Sink): bytes {
    match e
    case Data(d) => Chunk(d)
    case Done => LAST_CHUNK + CRLF
  }

  function WireAll(es: seq<Sink>): bytes { if es == [] then [] else Wire(es[0]) + WireAll(es[1..]) }

  lemma {:induction false} WireAllAppend(a: seq<Sink>, b: seq<Sink>)
    ensures WireAll(a + b) == WireAll(a) + WireAll(b)
  {
    if a == [] {
      assert a + b == b;
    } else {
      WireAllAppend(a[1..], b);
      assert (a + b)[1..] == a[1..] + b;
      Assoc(Wire(a[0]), WireAll(a[1..]), WireAll(b));
    }
  }

  lemma WireAllNext(es: seq<Sink>, i: nat)
    requires i < |es|
    ensures WireAll(es[..i + 1]) == WireAll(es[..i]) + Wire(es[i])
  {
    assert es[..i + 1] == es[..i] + [es[i]];
    WireAllAppend(es[..i], [es[i]]);
    assert WireAll([es[i]]) == Wire(es[i]) + [];
  }

  /** An empty write clears `data_available` just as saying done does, but without the last chunk. */
  predicate GoesOn(e: Sink) { e.Data? && e.d != [] }

  /** What `data_available` is after one call of the provider: the last thing it did decides, whatever came before. */
  predicate More(call: seq<Sink>) { call == [] || GoesOn(call[|call| - 1]) }

  /** All that the provider gets to do: its calls up to the first that ends the loop. */
  function Performed(calls: seq<seq<Sink>>): seq<Sink>
  {
    if calls == [] then [] else calls[0] + if More(calls[0]) then Performed(calls[1..]) else []
  }

  /** `write` and `done` of the sink. */
  method WriteEvent(e: Sink, out: bytes) returns (out': bytes, dataAvailable: bool)
    ensures out' == out + Wire(e) && dataAvailable == GoesOn(e)
  {
    out', dataAvailable := out, true;
    match e {
      case Data(d) =>
        dataAvailable := |d| > 0;
        if d != [] {
          var size := FromIToHex(|d|);
          out' := out' + (size + CRLF + d + CRLF);
        }
      case Done =>
        dataAvailable := false;
        Assoc(out, LAST_CHUNK, CRLF);
        out' := out' + LAST_CHUNK;
        out' := out' + CRLF;
    }
  }

  /** One call of the provider. */
  method Provide(call: seq<Sink>, out: bytes) returns (out': bytes, dataAvailable: bool)
    ensures out' == out + WireAll(call) && dataAvailable == More(call)
  {
    out', dataAvailable := out, true;
    for i := 0 to |call|
      invariant out' == out + WireAll(call[..i]) && dataAvailable == More(call[..i])
    {
      WireAllNext(call, i);
      Assoc(out, WireAll(call[..i]), Wire(call[i]));
      out', dataAvailable := WriteEvent(call[i], out');
    }
    assert call[..|call|] == call;
  }

  lemma PerformedNext(calls: seq<seq<Sink>>, i: nat)
    requires i < |calls|
    ensures WireAll(Performed(calls[i..]))
         == WireAll(calls[i]) + WireAll(if More(calls[i]) then Performed(calls[i + 1..]) else [])
  {
    assert calls[i..][1..] == calls[i + 1..];
    WireAllAppend(calls[i], if More(calls[i]) then Performed(calls[i + 1..]) else []);
  }

  /** `write_content_chunked` with the identity compressor and no trailer. */
  method WriteContentChunked(calls: seq<seq<Sink>>) returns (out: bytes)
    ensures out == WireAll(Performed(calls))
  {
    out := [];
    var dataAvailable, i: nat := true, 0;
    ghost var todo := Performed(calls);
    assert calls[0..] == calls;
    while dataAvailable && i < |calls|
      invariant i <= |calls| && todo == (if dataAvailable then Performed(calls[i..]) else [])
      invariant out + WireAll(todo) == WireAll(Performed(calls))
      decreases |calls| - i
    {
      PerformedNext(calls, i);
      todo := if More(calls[i]) then Performed(calls[i + 1..]) else [];
      Assoc(out, WireAll(calls[i]), WireAll(todo));
      out, dataAvailable := Provide(calls[i], out);
      i := i + 1;
    }
  }

  // ----- the reader, as a function of all the bytes to come -----

  /** Chunks up to the last one: the body and what follows the last chunk's size line. */
  function Chunks(s: bytes): Option<(bytes, bytes)>
    decreases |s|
  {
    match NextLine(s)
    case None => None
    case Some(line) => ChunksFrom(line, s[|line|..])
  }

  /** The same, when a size line has been read already. */
  function ChunksFrom(line: bytes, rest: bytes): Option<(bytes, bytes)>
    decreases |rest|
  {
    match Strtoul16(line)
    case None => None
    case Some(n) =>
      if n == ULONG_MAX then None
      else if n == 0 then Some(([], rest))
      else if |rest| < n || NextLine(rest[n..]) != Some(CRLF) then None
      else Prepend(rest[..n], Chunks(rest[n + 2..]))
  }

  function Prepend(d: bytes, o: Option<(bytes, bytes)>): Option<(bytes, bytes)>
  {
    match o
    case None => None
    case Some((body, after)) => Some((d + body, after))
  }

  /** Trailer lines up to an empty one, the next being `line`. */
  predicate TrailerFrom(line: bytes, s: bytes)
    decreases |s|
  {
    line == CRLF ||
    (|line| <= HEADER_MAX && NextLine(s).Some? && TrailerFrom(NextLine(s).value, s[|NextLine(s).value|..]))
  }

  /** After the last chunk nothing more is required. */
  predicate TrailerOk(s: bytes) { NextLine(s).Some? ==> TrailerFrom(NextLine(s).value, s[|NextLine(s).value|..]) }

  function Decoded(s: bytes): Option<bytes>
  {
    match Chunks(s)
    case None => None
    case Some((body, after)) => if TrailerOk(after) then Some(body) else None
  }

  lemma LineIs(line: bytes, rest: bytes)
    requires |line| >= 2 && |line| <= MAX_LINE && CrlfAt(line, |line| - 2)
    requires forall i :: i < |line| - 2 ==> !CrlfAt(line, i)
    ensures NextLine(line + rest) == Some(line)
  {
    var s := line + rest;
    LineMeaning(s);
    assert CrlfAt(s, |line| - 2);
    assert forall i :: i < |line| - 2 ==> !CrlfAt(s, i) by {
      forall i | i < |line| - 2 ensures !CrlfAt(s, i)
      {
        assert !CrlfAt(line, i);
      }
    }
    assert Ends(0, s);
    assert LineLength(s) == |line|;
  }

  // ----- what is written is read back -----

  function Pow16(k: nat): nat { if k == 0 then 1 else 16 * Pow16(k - 1) }

  lemma {:induction false} HexLength(n: nat, k: nat)
    requires k >= 1 && n < Pow16(k)
    ensures |Hex(n)| <= k
  {
    if n >= 16 { HexLength(n / 16, k - 1); }
  }

  lemma SizeLineIsLine(n: nat, rest: bytes)
    requires n <= ULONG_MAX
    ensures NextLine(Hex(n) + CRLF + rest) == Some(Hex(n) + CRLF)
  {
    var line := Hex(n) + CRLF;
    assert Pow16(4) == 0x1_0000;
    assert Pow16(8) == 0x1_0000 * Pow16(4) && Pow16(12) == 0x1_0000 * Pow16(8) && Pow16(16) == 0x1_0000 * Pow16(12);
    HexLength(n, 16);
    HexFirst(n);
    forall i | i < |line| - 2 ensures !CrlfAt(line, i)
    {
      if i >= 0 { assert HexValue(line[i]).Some?; }
    }
    LineIs(line, rest);
  }

  lemma EmptyLine(rest: bytes)
    ensures NextLine(CRLF + rest) == Some(CRLF)
  {
    LineIs(CRLF, rest);
  }

  /** Payloads a chunk can announce. */
  predicate Sized(es: seq<Sink>) { forall i :: 0 <= i < |es| && es[i].Data? ==> |es[i].d| < ULONG_MAX }

  /** All the bytes written. */
  function Body(es: seq<Sink>): bytes
  {
    if es == [] then [] else (if es[0].Data? then es[0].d else []) + Body(es[1..])
  }

  /** Those written before the provider first said it was done, and what it did after that. */
  function Delivered(es: seq<Sink>): bytes { if es == [] || es[0].Done? then [] else es[0].d + Delivered(es[1..]) }

  function AfterDone(es: seq<Sink>): seq<Sink>
  {
    if es == [] then [] else if es[0].Done? then es[1..] else AfterDone(es[1..])
  }

  lemma {:induction false} BodySplits(es: seq<Sink>)
    ensures Body(es) == Delivered(es) + Body(AfterDone(es))
  {
    if es != [] && es[0].Data? {
      BodySplits(es[1..]);
      Assoc(es[0].d, Delivered(es[1..]), Body(AfterDone(es[1..])));
    }
  }

  lemma OneChunk(p: bytes, rest: bytes)
    requires 0 < |p| < ULONG_MAX
    ensures Chunks(Chunk(p) + rest) == Prepend(p, Chunks(rest))
  {
    var line, after := Hex(|p|) + CRLF, p + CRLF + rest;
    var s := Chunk(p) + rest;
    Assoc(line, p, CRLF);
    Assoc(line, p + CRLF, rest);
    FrontBack(line, after);
    Assoc(p, CRLF, rest);
    FrontBack(p, CRLF + rest);
    SizeLineIsLine(|p|, after);
    SizeLine(|p|);
    EmptyLine(rest);
    assert after[|p| + 2..] == rest;
  }

  lemma LastChunk(rest: bytes)
    ensures Chunks(LAST_CHUNK + CRLF + rest) == Some(([], CRLF + rest))
  {
    assert Hex(0) == [48];
    Assoc(LAST_CHUNK, CRLF, rest);
    FrontBack(LAST_CHUNK, CRLF + rest);
    SizeLineIsLine(0, CRLF + rest);
    SizeLine(0);
  }

  /** The chunks on the wire are the writes before the first `done`. */
  lemma {:induction false} ChunksOfEvents(es: seq<Sink>)
    requires Sized(es)
    ensures Chunks(WireAll(es)) == if Done in es then Some((Delivered(es), CRLF + WireAll(AfterDone(es)))) else None
    decreases |es|
  {
    if es != [] {
      var rest := es[1..];
      assert es == [es[0]] + rest;
      if es[0].Done? {
        LastChunk(WireAll(rest));
      } else {
        ChunksOfEvents(rest);
        if es[0].d == [] {
          assert [] + WireAll(rest) == WireAll(rest) && [] + Delivered(rest) == Delivered(rest);
        } else {
          OneChunk(es[0].d, WireAll(rest));
        }
      }
    }
  }

  /** The reader gets the bytes written before the provider first said it was done, chunk boundaries gone; a stream
      on which it never said so does not decode. All that was written comes back exactly if it said so, and wrote
      nothing after. */
  lemma RoundTrip(es: seq<Sink>)
    requires Sized(es)
    ensures Decoded(WireAll(es)) == if Done in es then Some(Delivered(es)) else None
    ensures Decoded(WireAll(es)) == Some(Body(es)) <==> Done in es && Body(AfterDone(es)) == []
  {
    ChunksOfEvents(es);
    EmptyLine(WireAll(AfterDone(es)));
    BodySplits(es);
    assert |Body(es)| == |Delivered(es)| + |Body(AfterDone(es))|;
    if Body(AfterDone(es)) == [] { assert Delivered(es) + [] == Delivered(es); }
  }

  lemma FirstCall(call: seq<Sink>, rest: seq<seq<Sink>>)
    ensures Performed([call] + rest) == call + if More(call) then Performed(rest) else []
  {
    assert ([call] + rest)[1..] == rest;
  }

  /** An empty write that ends its call ends the loop, and what the provider would still do is lost. */
  lemma EmptyWriteEnds()
    ensures Decoded(WireAll(Performed([[Data([])], [Data([65]), Done]]))) == None
  {
    var stops := [Data([])];
    FirstCall(stops, [[Data([65]), Done]]);
    assert [stops] + [[Data([65]), Done]] == [[Data([])], [Data([65]), Done]];
    assert stops + [] == stops;
    RoundTrip(stops);
  }

  /** The same two writes in one call go on. */
  lemma WriteAfterEmptyGoesOn()
    ensures Decoded(WireAll(Performed([[Data([]), Data([65])], [Done]]))) == Some([65])
  {
    var call, tail := [Data([]), Data([65])], [Data([65]), Done];
    TwoCalls(call);
    assert call + [Done] == [Data([])] + tail && tail == [Data([65])] + [Done];
    assert ([Data([])] + tail)[2] == Done;
    RoundTrip([Data([])] + tail);
    DeliveredFirst([], tail);
    DeliveredFirst([65], [Done]);
    assert [] + ([65] + []) == [65];
  }

  lemma DeliveredFirst(d: bytes, rest: seq<Sink>)
    ensures Delivered([Data(d)] + rest) == d + Delivered(rest)
  {
    assert ([Data(d)] + rest)[1..] == rest;
  }

  /** Bytes written after `done` go on the wire, behind the end of the body. */
  lemma WriteAfterDoneIsLost()
    ensures Decoded(WireAll(Performed([[Done, Data([65])], [Done]]))) == Some([])
  {
    var call := [Done, Data([65])];
    TwoCalls(call);
    var late := call + [Done];
    assert late[0] == Done;
    RoundTrip(late);
  }

  lemma TwoCalls(call: seq<Sink>)
    requires More(call)
    ensures Performed([call, [Done]]) == call + [Done]
  {
    FirstCall(call, [[Done]]);
    FirstCall([Done], []);
    assert [call] + [[Done]] == [call, [Done]] && [[Done]] + [] == [[Done]] && [Done] + [] == [Done];
  }

  // ----- the reader -----

  method ReadContentWithLength(strm: Stream, len: nat) returns (ok: bool, out: bytes)
    requires strm.Valid()
    modifies strm`pos
    ensures strm.Valid()
    ensures ok ==> |out| == len && out + strm.Rest() == old(strm.Rest())
    ensures !ok && strm.reliable ==> |old(strm.Rest())| < len
  {
    out := [];
    while |out| < len
      invariant strm.Valid() && |out| <= len && out + strm.Rest() == old(strm.Rest())
    {
      ghost var rest, had := strm.Rest(), out;
      var rt, d := strm.Read(Min(len - |out|, RECV_BUFSIZ));
      if rt <= 0 {
        return false, out;
      }
      out := out + d;
      assert had + rest == had + d + strm.Rest();
    }
    ok := true;
  }

  lemma OneChunkRead(line: bytes, n: nat, d: bytes, next: bytes)
    requires Strtoul16(line) == Some(n) && 0 < n != ULONG_MAX && |d| == n
    ensures ChunksFrom(line, d + (CRLF + next)) == Prepend(d, Chunks(next))
  {
    var rest := d + (CRLF + next);
    FrontBack(d, CRLF + next);
    EmptyLine(next);
    assert rest[n + 2..] == next;
  }

  /** One chunk of `n` bytes and the size line after it. */
  method ReadChunk(strm: Stream, lr: LineReader, n: nat) returns (ok: bool, d: bytes)
    requires strm.Valid() && lr.Valid() && lr.strm == strm && n > 0
    requires Strtoul16(lr.Line()) == Some(n) && n != ULONG_MAX
    modifies strm`pos, lr`used, lr`growable, lr.fixedBuf
    ensures strm.Valid() && lr.Valid()
    ensures var was := old(ChunksFrom(lr.Line(), strm.Rest()));
            if ok then was == Prepend(d, ChunksFrom(lr.Line(), strm.Rest())) else strm.reliable ==> was == None
    ensures ok ==> |strm.Rest()| < |old(strm.Rest())|
  {
    ghost var rest, line := strm.Rest(), lr.Line();
    ok, d := ReadContentWithLength(strm, n);
    if !ok { return; }
    FrontBack(d, strm.Rest());
    ok := lr.GetLine();
    if !ok { return; }
    if lr.Line() != CRLF { return false, d; }
    ghost var next := strm.Rest();
    OneChunkRead(line, n, d, next);
    ok := lr.GetLine();
    if !ok { return; }
    assert next[|lr.Line()|..] == strm.Rest();
  }

  /** Everything up to and including the size line of the last chunk. */
  method ReadChunks(strm: Stream, lr: LineReader) returns (ok: bool, body: bytes)
    requires strm.Valid() && lr.Valid() && lr.strm == strm
    modifies strm`pos, lr`used, lr`growable, lr.fixedBuf
    ensures strm.Valid() && lr.Valid()
    ensures ok ==> Chunks(old(strm.Rest())) == Some((body, strm.Rest()))
    ensures !ok && strm.reliable ==> Chunks(old(strm.Rest())) == None
  {
    body := [];
    ghost var s := strm.Rest();
    ok := lr.GetLine();
    if !ok { return; }
    assert s[|lr.Line()|..] == strm.Rest();
    PrependNothing(ChunksFrom(lr.Line(), strm.Rest()));
    while true
      invariant strm.Valid() && lr.Valid()
      invariant Chunks(s) == Prepend(body, ChunksFrom(lr.Line(), strm.Rest()))
      decreases |strm.Rest()|
    {
      var n := Strtoul16(lr.Line());
      if n.None? || n.value == ULONG_MAX {
        return false, body;
      }
      if n.value == 0 {
        assert body + [] == body;
        return true, body;
      }
      var d;
      ok, d := ReadChunk(strm, lr, n.value);
      if !ok { return; }
      PrependTwice(body, d, ChunksFrom(lr.Line(), strm.Rest()));
      body := body + d;
    }
  }

  lemma PrependNothing(o: Option<(bytes, bytes)>)
    ensures Prepend([], o) == o
  {
    if o.Some? { assert [] + o.value.0 == o.value.0; }
  }

  lemma PrependTwice(c: bytes, d: bytes, o: Option<(bytes, bytes)>)
    ensures Prepend(c, Prepend(d, o)) == Prepend(c + d, o)
  {
    if o.Some? { assert c + (d + o.value.0) == c + d + o.value.0; }
  }

  /** The trailer section: lines are passed over up to an empty one. */
  method ReadTrailer(strm: Stream, lr: LineReader) returns (ok: bool)
    requires strm.Valid() && lr.Valid() && lr.strm == strm
    modifies strm`pos, lr`used, lr`growable, lr.fixedBuf
    ensures strm.Valid() && lr.Valid()
    ensures strm.reliable ==> (ok <==> TrailerOk(old(strm.Rest())))
  {
    ghost var s := strm.Rest();
    var got := lr.GetLine();
    if !got { return true; }
    assert s[|lr.Line()|..] == strm.Rest();
    while lr.Line() != CRLF
      invariant strm.Valid() && lr.Valid()
      invariant TrailerOk(s) <==> TrailerFrom(lr.Line(), strm.Rest())
      decreases |strm.Rest()|
    {
      if |lr.Line()| > HEADER_MAX { return false; }
      ghost var rest := strm.Rest();
      got := lr.GetLine();
      if !got { return false; }
      assert rest[|lr.Line()|..] == strm.Rest();
    }
    ok := true;
  }

  /** Whatever the pattern of short reads, the outcome is that of decoding the bytes to come as one
      string; and a body is only ever returned when its chunks decode to it. */
  method ReadContentChunked(strm: Stream) returns (ok: bool, body: bytes)
    requires strm.Valid()
    modifies strm`pos
    ensures strm.Valid()
    ensures ok ==> Chunks(old(strm.Rest())).Some? && body == Chunks(old(strm.Rest())).value.0
    ensures strm.reliable ==> (ok <==> Decoded(old(strm.Rest())) == Some(body))
    ensures strm.reliable ==> (ok <==> Decoded(old(strm.Rest())).Some?)
  {
    var buf := new byte[16];
    var lr := new LineReader(strm, buf);
    ok, body := ReadChunks(strm, lr);
    if ok {
      ok := ReadTrailer(strm, lr);
    }
  }

  /** Let a provider write a body in any calls, read it through any short reads: the reading succeeds exactly if
      the provider said it was done, with the bytes written before. */
  method WriteThenRead(calls: seq<seq<Sink>>) returns (ok: bool, body: bytes)
    requires Sized(Performed(calls))
    ensures ok <==> Done in Performed(calls)
    ensures ok ==> body == Delivered(Performed(calls))
    ensures ok && body == Body(Performed(calls)) <==> Done in Performed(calls) && Body(AfterDone(Performed(calls))) == []
  {
    var wire := WriteContentChunked(calls);
    var strm := new Stream(wire, true);
    RoundTrip(Performed(calls));
    assert strm.Rest() == wire;
    ok, body := ReadContentChunked(strm);
  }
}
