/** The body state of the streaming multipart parser (section 5.1.1 of RFC 2046): a window over a
    growing buffer in which the delimiter is searched for. */
module Multipart {
  import opened Bytes

  predicate Occurs(w: bytes, s: bytes, i: int) { 0 <= i && i + |s| <= |w| && w[i..i + |s|] == s }

  /** The first occurrence of `s` in `w`, or `|w|`. */
  function Find(w: bytes, s: bytes): (n: nat)
    requires s != []
    ensures n <= |w|
  {
    if |w| < |s| then |w| else if s <= w then 0 else 1 + Find(w[1..], s)
  }

  lemma SliceOfSlice(w: bytes, at: nat, i: nat, n: nat)
    requires at <= i && i + n <= |w|
    ensures w[at..][i - at..i - at + n] == w[i..i + n]
  {
    SubSlice(w, at, |w| - at, i - at, n);
    assert w[at..at + (|w| - at)] == w[at..];
  }

  lemma OccursTail(w: bytes, s: bytes, i: int)
    requires 0 < i && w != []
    ensures Occurs(w, s, i) <==> Occurs(w[1..], s, i - 1)
  {
    if i + |s| <= |w| { SliceOfSlice(w, 1, i, |s|); }
  }

  lemma {:induction false} FindMeaning(w: bytes, s: bytes)
    requires s != []
    ensures Find(w, s) < |w| ==> Occurs(w, s, Find(w, s))
    ensures forall i :: i < Find(w, s) ==> !Occurs(w, s, i)
  {
    if |w| >= |s| && !(s <= w) {
      FindMeaning(w[1..], s);
      forall i | 0 < i ensures Occurs(w, s, i) <==> Occurs(w[1..], s, i - 1)
      {
        OccursTail(w, s, i);
      }
      assert !Occurs(w, s, 0);
    }
  }

  lemma FindIs(w: bytes, s: bytes, n: nat)
    requires s != [] && n <= |w| && (n < |w| ==> Occurs(w, s, n))
    requires forall i :: i < n ==> !Occurs(w, s, i)
    ensures Find(w, s) == n
  {
    FindMeaning(w, s);
  }

  /** The content a body state emits for the bytes `all` fed so far: what precedes the delimiter,
      or all but as many bytes as the delimiter has. */
  function Emitted(all: bytes, delim: bytes): bytes
    requires delim != []
  {
    if Find(all, delim) < |all| then all[..Find(all, delim)]
    else all[..Max(0, |all| - |delim|)]
  }

  /** Whether the delimiter has been seen. */
  predicate Left(all: bytes, delim: bytes)
    requires delim != []
  {
    Find(all, delim) < |all|
  }

  /** Where the delimiter begins first, the content ends; while it is nowhere, as many of the last bytes as it has are
      kept back. */
  lemma EmittedMeaning(all: bytes, delim: bytes, i: nat)
    requires delim != []
    ensures Occurs(all, delim, i) && (forall j :: j < i ==> !Occurs(all, delim, j)) ==> Left(all, delim) && Emitted(all, delim) == all[..i]
    ensures (forall j :: !Occurs(all, delim, j)) ==>
              !Left(all, delim) && Emitted(all, delim) == if |all| >= |delim| then all[..|all| - |delim|] else []
  {
    FindMeaning(all, delim);
    if Occurs(all, delim, i) && (forall j :: j < i ==> !Occurs(all, delim, j)) { FindIs(all, delim, i); }
  }

  /** In the body state the window is what was fed and not yet emitted; after it, what follows the
      delimiter. */
  ghost predicate Tracks(fed: bytes, emitted: bytes, delim: bytes, state: nat, window: bytes) {
    && delim != [] && state in {3, 4} && (state == 4 <==> Left(fed, delim))
    && emitted == Emitted(fed, delim)
    && (state == 3 ==> emitted + window == fed)
    && (state == 4 ==> emitted + delim + window == fed)
  }

  class BodyParser {
    const delim: bytes
    var buf: bytes
    var spos: nat
    var epos: nat
    var state: nat

    ghost var fed: bytes
    ghost var emitted: bytes

    predicate Framed()
      reads this
    {
      delim != [] && spos <= epos <= |buf|
    }

    /** `buf_data()` and `buf_size()`. */
    function Window(): bytes
      reads this
      requires Framed()
    {
      buf[spos..epos]
    }

    ghost predicate Valid()
      reads this
    {
      Framed() && Tracks(fed, emitted, delim, state, Window())
    }

    constructor (boundary: bytes)
      ensures Valid() && state == 3 && fed == [] && emitted == [] && delim == [13, 10, 45, 45] + boundary
    {
      delim := CRLF + DASHES + boundary;
      buf, spos, epos, state, fed, emitted := [], 0, 0, 3, [], [];
    }

    /** Move the unread bytes to the front of the buffer, one at a time. */
    method Shift()
      requires Framed()
      modifies this`buf, this`spos, this`epos
      ensures Framed() && spos == 0 && Window() == old(Window())
    {
      var remaining: nat := epos - spos;
      ghost var was := buf;
      if remaining > 0 && spos > 0 {
        for i := 0 to remaining
          invariant spos == old(spos) && epos == old(epos) && |buf| == |was|
          invariant forall j :: 0 <= j < i ==> buf[j] == was[spos + j]
          invariant forall j :: spos + i <= j < |buf| ==> buf[j] == was[j]
        {
          buf := buf[i := buf[spos + i]];
        }
      }
      ghost var w := was[spos..epos];
      assert forall j :: 0 <= j < remaining ==> buf[j] == w[j];
      assert buf[..remaining] == w;
      spos, epos := 0, remaining;
    }

    method BufAppend(data: bytes)
      requires Framed()
      modifies this`buf, this`spos, this`epos
      ensures Framed() && Window() == old(Window()) + data
    {
      Shift();
      ghost var w := Window();
      if epos + |data| > |buf| {
        buf := buf + seq(epos + |data| - |buf|, _ => 0);
      }
      assert buf[..epos] == w;
      for i := 0 to |data|
        invariant |buf| >= epos + |data| && spos == 0
        invariant buf[..epos + i] == w + data[..i]
      {
        buf := buf[epos + i := data[i]];
      }
      epos := epos + |data|;
    }

    /** `start_with`: compare byte by byte at a buffer position. */
    method StartWith(pos: nat, s: bytes) returns (yes: bool)
      requires Framed() && spos <= pos <= epos
      ensures yes <==> Occurs(Window(), s, pos - spos)
    {
      if epos - pos < |s| {
        return false;
      }
      ghost var here := Window()[pos - spos..pos - spos + |s|];
      for i := 0 to |s|
        invariant here[..i] == s[..i]
      {
        assert here[i] == buf[pos + i];
        if buf[pos + i] != s[i] {
          return false;
        }
      }
      assert here[..|s|] == here && s[..|s|] == s;
      yes := true;
    }

    /** `buf_find`: look for the first byte, then compare. */
    method BufFind(s: bytes) returns (n: nat)
      requires Framed() && s != []
      ensures n == Find(Window(), s)
    {
      ghost var w := Window();
      var c, off := s[0], spos;
      while off < epos
        invariant spos <= off <= epos
        invariant forall i :: i < off - spos ==> !Occurs(w, s, i)
      {
        var pos := off;
        while true
          invariant off <= pos <= epos
          invariant forall i :: i < pos - spos ==> !Occurs(w, s, i)
          decreases epos - pos
        {
          if pos == epos {
            FindIs(w, s, |w|);
            return epos - spos;
          }
          if buf[pos] == c { break; }
          assert w[pos - spos] != s[0];
          pos := pos + 1;
        }
        if |s| > epos - pos {
          assert forall i :: i >= pos - spos ==> !Occurs(w, s, i);
          FindIs(w, s, |w|);
          return epos - spos;
        }
        var here := StartWith(pos, s);
        if here {
          FindIs(w, s, pos - spos);
          return pos - spos;
        }
        off := pos + 1;
      }
      FindIs(w, s, |w|);
      n := epos - spos;
    }

    method BufErase(n: nat)
      requires Framed() && n <= epos - spos
      modifies this`spos
      ensures Framed() && Window() == old(Window())[n..]
    {
      spos := spos + n;
    }

    /** The body case of the loop of `parse`: emit what is certainly content. */
    method BodyStep() returns (out: bytes)
      requires Framed() && state == 3
      modifies this`spos, this`state
      ensures Framed() && Tracks(old(Window()), out, delim, state, Window())
    {
      out := [];
      ghost var w := Window();
      FindMeaning(w, delim);
      if |delim| > epos - spos {
        return;
      }
      var pos := BufFind(delim);
      if pos < epos - spos {
        out := buf[spos..spos + pos];
        assert out == w[..pos];
        BufErase(pos + |delim|);
        state := 4;
      } else {
        var len := epos - spos - |delim|;
        if len > 0 {
          out := buf[spos..spos + len];
          BufErase(len);
        }
        assert out == w[..len];
      }
    }

    /** One call of `parse` while in the body state, up to leaving it. */
    method Parse(data: bytes) returns (out: bytes)
      requires Valid() && state == 3
      modifies this
      ensures Valid() && fed == old(fed) + data && emitted == old(emitted) + out
    {
      ghost var e, all := emitted, fed + data;
      BufAppend(data);
      ghost var w := Window();
      assert e + w == all;
      out := [];
      if epos - spos > 0 {
        out := BodyStep();
      }
      EmittedStep(fed, data, delim, w, out, state, Window());
      fed, emitted := all, e + out;
    }

    /** However the input is cut into calls, the content emitted in the body state is what
        precedes the first delimiter; nothing is emitted late, lost or repeated. */
    method ParseAll(parts: seq<bytes>) returns (content: bytes, used: nat)
      requires Valid() && state == 3 && fed == []
      modifies this
      ensures Valid() && used <= |parts| && fed == Concat(parts[..used])
      ensures content == Emitted(fed, delim)
      ensures state == 3 ==> used == |parts|
      ensures state == 4 ==> content + delim <= fed && Find(fed, delim) == |content|
    {
      content, used := [], 0;
      while used < |parts| && state == 3
        invariant Valid() && used <= |parts| && fed == Concat(parts[..used]) && content == emitted
        decreases |parts| - used
      {
        var out := Parse(parts[used]);
        ConcatAppend(parts[..used], parts[used]);
        assert parts[..used + 1] == parts[..used] + [parts[used]];
        content, used := content + out, used + 1;
      }
    }
  }

  /** What was emitted already cannot hide a delimiter: it is found in the window if at all. */
  lemma FoundInWindow(fed: bytes, data: bytes, delim: bytes)
    requires delim != [] && !Left(fed, delim)
    ensures var e, all := Emitted(fed, delim), fed + data;
            && |e| <= |all| && e == all[..|e|]
            && Find(all, delim) == |e| + Find(all[|e|..], delim)
  {
    var e, all := Emitted(fed, delim), fed + data;
    var w := all[|e|..];
    FindMeaning(fed, delim);
    FindMeaning(w, delim);
    forall i | i < |e| ensures !Occurs(all, delim, i)
    {
      if Occurs(all, delim, i) {
        assert fed[i..i + |delim|] == all[i..i + |delim|];
        assert Occurs(fed, delim, i);
      }
    }
    forall i | |e| <= i && i + |delim| <= |all| ensures Occurs(all, delim, i) <==> Occurs(w, delim, i - |e|)
    {
      SliceOfSlice(all, |e|, i, |delim|);
    }
    FindIs(all, delim, |e| + Find(w, delim));
  }

  /** What one more piece of input adds to the content is decided by the window alone. */
  lemma EmittedStep(fed: bytes, data: bytes, delim: bytes, w: bytes, out: bytes, state: nat, window: bytes)
    requires delim != [] && !Left(fed, delim)
    requires Emitted(fed, delim) + w == fed + data
    requires Tracks(w, out, delim, state, window)
    ensures Tracks(fed + data, Emitted(fed, delim) + out, delim, state, window)
  {
    var e, all: bytes := Emitted(fed, delim), fed + data;
    assert w == all[|e|..];
    FoundInWindow(fed, data, delim);
    if state == 4 {
      assert e + out == all[..Find(all, delim)];
      Assoc4(e, out, delim, window);
    } else {
      assert e + out == Emitted(all, delim);
      Assoc4(e, out, [], window);
      assert e + out + [] == e + out && out + [] == out;
    }
  }
}
