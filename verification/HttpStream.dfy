/** A byte stream that may return fewer bytes than asked for, and the line reader on top of it. */
module HttpStream {
  import opened Bytes

  /** Longest line accepted. */
  const MAX_LINE: nat := 32768

  class Stream {
    const input: bytes
    const reliable: bool
    var pos: nat

    constructor (input: bytes, reliable: bool)
      ensures this.input == input && this.reliable == reliable && pos == 0 && Valid()
    {
      this.input, this.reliable, pos := input, reliable, 0;
    }

    predicate Valid()
      reads this
    {
      pos <= |input|
    }

    ghost function Rest(): bytes
      reads this
      requires Valid()
    {
      input[pos..]
    }

    /** Some bytes, at least one unless there are none; or an error if the stream is not reliable. */
    method Read(n: nat) returns (rt: int, d: bytes)
      requires Valid()
      modifies this`pos
      ensures Valid()
      ensures rt < 0 ==> !reliable && Rest() == old(Rest())
      ensures rt >= 0 ==> rt == |d| <= n && d + Rest() == old(Rest())
      ensures rt == 0 ==> n == 0 || Rest() == []
    {
      d := [];
      if !reliable {
        if * { return -1, []; }
      }
      var most := Min(n, |input| - pos);
      var k: nat := most;
      if most > 0 {
        k :| 1 <= k <= most;
      }
      d := input[pos..pos + k];
      pos := pos + k;
      rt := k;
    }
  }

  // ----- lines -----

  /** How many bytes of `rest` still belong to the line, after a byte `prev` of it. */
  function Tail(prev: byte, rest: bytes): (n: nat)
    ensures n <= |rest| && (rest != [] ==> n > 0)
    decreases |rest|
  {
    if rest == [] then 0
    else if prev == CR && rest[0] == LF then 1
    else 1 + Tail(rest[0], rest[1..])
  }

  /** Whether the line ends with a CRLF, rather than with the input. */
  predicate Ends(prev: byte, rest: bytes)
    decreases |rest|
  {
    rest != [] && ((prev == CR && rest[0] == LF) || Ends(rest[0], rest[1..]))
  }

  function LineLength(s: bytes): nat { Tail(0, s) }

  predicate CrlfAt(s: bytes, i: int) { 0 <= i < |s| - 1 && s[i] == CR && s[i + 1] == LF }

  /** The first line runs through the first CRLF, or to the end if there is none. */
  lemma LineMeaning(s: bytes)
    ensures if Ends(0, s) then CrlfAt(s, LineLength(s) - 2) && forall i :: i < LineLength(s) - 2 ==> !CrlfAt(s, i)
            else LineLength(s) == |s| && forall i :: !CrlfAt(s, i)
  {
    TailMeaning(0, s);
    if Ends(0, s) { assert CrlfAt([0] + s, LineLength(s) - 1); }
    assert forall i :: i >= 0 ==> (CrlfAt(s, i) <==> CrlfAt([0] + s, i + 1));
  }

  lemma {:induction false} TailMeaning(prev: byte, rest: bytes)
    ensures var n, whole := Tail(prev, rest), [prev] + rest;
            if Ends(prev, rest) then CrlfAt(whole, n - 1) && forall i :: i < n - 1 ==> !CrlfAt(whole, i)
            else n == |rest| && forall i :: !CrlfAt(whole, i)
    decreases |rest|
  {
    if rest != [] && !(prev == CR && rest[0] == LF) {
      var whole, less := [prev] + rest, [rest[0]] + rest[1..];
      TailMeaning(rest[0], rest[1..]);
      assert less == rest && whole[1..] == rest;
      assert forall i :: i > 0 ==> (CrlfAt(whole, i) <==> CrlfAt(less, i - 1));
    }
  }

  /** The next line, if the reader accepts one: not at the end of the input, and no longer than
      the limit; a line cut off by the end of the input must be shorter than it. */
  function NextLine(s: bytes): Option<bytes>
  {
    var n := LineLength(s);
    if s == [] || n > MAX_LINE || (n == MAX_LINE && !Ends(0, s)) then None else Some(s[..n])
  }

  /** The line reader: a small caller-supplied buffer that spills into a growable one. */
  class LineReader {
    const strm: Stream
    const fixedBuf: array<byte>
    var used: nat
    var growable: bytes

    constructor (strm: Stream, buf: array<byte>)
      requires buf.Length >= 2
      ensures Valid() && this.strm == strm && fixedBuf == buf
    {
      this.strm, fixedBuf, used, growable := strm, buf, 0, [];
    }

    predicate Valid()
      reads this, fixedBuf
    {
      && fixedBuf.Length >= 2
      && used < fixedBuf.Length
      && (growable != [] ==> used == fixedBuf.Length - 1)
      && (used > 0 ==> fixedBuf[used] == 0)
    }

    /** What `ptr()` and `size()` show: one string, whichever buffer holds it. */
    function Line(): bytes
      reads this, fixedBuf
      requires Valid()
    {
      if growable == [] then fixedBuf[..used] else growable
    }

    /** The string is followed by a NUL, as its C readers need. */
    predicate Terminated()
      reads this, fixedBuf
      requires Valid()
    {
      growable == [] ==> fixedBuf[used] == 0
    }

    method Append(c: byte)
      requires Valid()
      modifies this`used, this`growable, fixedBuf
      ensures Valid() && Terminated() && Line() == old(Line()) + [c]
    {
      if used < fixedBuf.Length - 1 {
        fixedBuf[used] := c;
        used := used + 1;
        fixedBuf[used] := 0;
        assert fixedBuf[..used] == old(fixedBuf[..used]) + [c];
      } else {
        if growable == [] {
          growable := fixedBuf[..used];
        }
        growable := growable + [c];
      }
    }

    /** Read one byte and append it. */
    method TakeByte() returns (rt: int, c: byte)
      requires Valid() && strm.Valid()
      modifies this`used, this`growable, fixedBuf, strm`pos
      ensures Valid() && strm.Valid()
      ensures rt < 0 ==> !strm.reliable
      ensures rt == 0 ==> old(strm.Rest()) == [] && strm.Rest() == [] && Line() == old(Line()) && Terminated() == old(Terminated())
      ensures rt > 0 ==> Terminated() && |Line()| == |old(Line())| + 1
      ensures rt > 0 ==> old(strm.Rest()) != [] && c == old(strm.Rest())[0] && strm.Rest() == old(strm.Rest())[1..]
      ensures rt >= 0 ==> Line() + strm.Rest() == old(Line()) + old(strm.Rest())
    {
      ghost var line, rest := Line(), strm.Rest();
      var d;
      c := 0;
      rt, d := strm.Read(1);
      if rt > 0 {
        c := d[0];
        assert d == [c] && rest == [c] + strm.Rest();
        Append(c);
        assert line + rest == line + [c] + strm.Rest();
      }
    }

    method GetLine() returns (ok: bool)
      requires Valid() && strm.Valid()
      modifies this`used, this`growable, fixedBuf, strm`pos
      ensures Valid() && strm.Valid()
      ensures ok ==> Terminated() && NextLine(old(strm.Rest())) == Some(Line()) && Line() + strm.Rest() == old(strm.Rest())
      ensures !ok && strm.reliable ==> NextLine(old(strm.Rest())) == None
    {
      used := 0;
      growable := [];
      ghost var s := strm.Rest();
      var prev: byte := 0;
      var i := 0;
      while true
        invariant Valid() && strm.Valid() && Line() + strm.Rest() == s && i == |Line()| <= MAX_LINE
        invariant i > 0 ==> Terminated()
        invariant LineLength(s) == i + Tail(prev, strm.Rest()) && (Ends(0, s) <==> Ends(prev, strm.Rest()))
        decreases MAX_LINE - i
      {
        if |Line()| >= MAX_LINE {
          return false;
        }
        var rt, byte := TakeByte();
        if rt < 0 {
          return false;
        } else if rt == 0 {
          if i == 0 {
            return false;
          } else {
            break;
          }
        }
        if prev == CR && byte == LF {
          break;
        }
        prev := byte;
        i := i + 1;
      }
      assert Line() == s[..LineLength(s)];
      ok := true;
    }
  }
}
