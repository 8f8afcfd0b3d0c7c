/** The buffered read of a socket stream: small reads are served from a fixed buffer that one larger
    receive fills. */
module BufferedRead {
  import opened Bytes
  import opened HttpStream

  const BUFF_SIZE: nat := 4096
  const SSIZE_MAX: nat := 0x7FFF_FFFF_FFFF_FFFF

  class SocketStream {
    /** The socket: it hands over what arrived in pieces of its own choosing. */
    const sock: Stream
    const buff: array<byte>
    var off: nat
    var contentSize: nat

    ghost predicate Valid()
      reads this, sock
    {
      sock.Valid() && buff.Length == BUFF_SIZE && off <= contentSize <= BUFF_SIZE
    }

    /** Received, not yet handed on. */
    ghost function Buffered(): bytes
      reads this, sock, buff
      requires Valid()
    {
      buff[off..contentSize]
    }

    /** What a reader of this stream will still see. */
    ghost function Rest(): bytes
      reads this, sock, buff
      requires Valid()
    {
      Buffered() + sock.Rest()
    }

    constructor (sock: Stream)
      requires sock.Valid()
      ensures Valid() && this.sock == sock && fresh(buff) && Buffered() == []
    {
      this.sock := sock;
      buff := new byte[BUFF_SIZE](_ => 0);
      off, contentSize := 0, 0;
    }

    /** Take up to `n` buffered bytes. */
    method TakeBuffered(n: nat) returns (d: bytes)
      requires Valid() && n <= contentSize - off
      modifies this`off
      ensures Valid() && |d| == n && d + Buffered() == old(Buffered())
    {
      d := buff[off..off + n];
      off := off + n;
    }

    /** One receive into the buffer. */
    method Fill() returns (n: int, ghost d: bytes)
      requires Valid()
      modifies this`off, this`contentSize, sock`pos, buff
      ensures Valid() && off == contentSize == 0
      ensures n < 0 ==> !sock.reliable && sock.Rest() == old(sock.Rest())
      ensures n >= 0 ==> n == |d| <= BUFF_SIZE && d + sock.Rest() == old(sock.Rest()) && buff[..n] == d
      ensures n == 0 ==> sock.Rest() == []
    {
      off, contentSize := 0, 0;
      var got;
      n, got := sock.Read(BUFF_SIZE);
      d := got;
      if n > 0 {
        forall i | 0 <= i < n {
          buff[i] := got[i];
        }
      }
    }

    /** `SocketStream::read`: the same contract as the socket's, so the buffer is invisible; the bytes
        handed on followed by the bytes still buffered are the bytes received. */
    method Read(wanted: nat, ready: bool) returns (rt: int, d: bytes)
      requires Valid()
      modifies this`off, this`contentSize, sock`pos, buff
      ensures Valid()
      ensures rt < 0 ==> (!ready || !sock.reliable) && Rest() == old(Rest()) && d == []
      ensures rt >= 0 ==> rt == |d| <= wanted && d + Rest() == old(Rest())
      ensures rt == 0 ==> wanted == 0 || Rest() == []
      ensures d + Rest() == old(Rest()) && sock.pos >= old(sock.pos)
    {
      var size := Min(wanted, SSIZE_MAX);
      if off < contentSize {
        var remaining := contentSize - off;
        if size <= remaining {
          d := TakeBuffered(size);
          return size, d;
        } else {
          d := TakeBuffered(remaining);
          return remaining, d;
        }
      }
      assert Buffered() == [];
      if !ready {
        return -1, [];
      }
      off, contentSize := 0, 0;
      if size < BUFF_SIZE {
        ghost var got;
        rt, got := Fill();
        d := [];
        if rt <= 0 {
          return;
        } else if rt <= size {
          d := buff[..rt];
        } else {
          d := buff[..size];
          off, contentSize, rt := size, rt, size;
          assert d + Buffered() == got;
        }
      } else {
        rt, d := sock.Read(size);
        if rt < 0 { d := []; }
      }
    }

    /** Over any sequence of reads nothing is lost, repeated or reordered. */
    method ReadMany(sizes: seq<nat>, ready: seq<bool>) returns (delivered: bytes)
      requires Valid() && |ready| == |sizes|
      modifies this`off, this`contentSize, sock`pos, buff
      ensures Valid() && delivered + Rest() == old(Rest())
      ensures sock.pos >= old(sock.pos)
      ensures delivered + Buffered() == old(Buffered()) + sock.input[old(sock.pos)..sock.pos]
    {
      delivered := [];
      for i := 0 to |sizes|
        invariant Valid() && delivered + Rest() == old(Rest()) && sock.pos >= old(sock.pos)
      {
        ghost var before := Rest();
        var rt, d := Read(sizes[i], ready[i]);
        Assoc(delivered, d, Rest());
        delivered := delivered + d;
      }
      ghost var was, arrived := old(Buffered()), sock.input[old(sock.pos)..sock.pos];
      Assoc(delivered, Buffered(), sock.Rest());
      Assoc(was, arrived, sock.Rest());
      assert arrived + sock.Rest() == sock.input[old(sock.pos)..];
      SameFront(delivered + Buffered(), was + arrived, sock.Rest());
    }
  }

  lemma SameFront(a: bytes, b: bytes, t: bytes)
    requires a + t == b + t
    ensures a == b
  {
    assert |a + t| == |b + t|;
    assert (a + t)[..|a|] == a && (b + t)[..|b|] == b;
  }
}
