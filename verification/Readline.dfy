/** readline.cpp: a line reader over a static buffer that survives from call to call. */
module Readline {
  import opened Bytes
  import opened StreamIO

  const MAXLINE := 4096
  const NEWLINE: byte := 10
  const SIZE_MAX := 0xffff_ffff_ffff_ffff

  /** What reading one byte at a time would return: bytes up to and including a newline, but no more than k. */
  function Line(s: seq<byte>, k: nat): (l: seq<byte>)
    ensures l <= s && |l| <= k
  {
    if k == 0 || s == [] then []
    else if s[0] == NEWLINE then [NEWLINE]
    else [s[0]] + Line(s[1..], k - 1)
  }

  predicate Ended(l: seq<byte>) {
    l != [] && l[|l| - 1] == NEWLINE
  }

  /** Line is the one prefix with a newline nowhere but at its end that stops early only at a newline. */
  lemma {:induction false} LineIsUnique(s: seq<byte>, k: nat, l: seq<byte>)
    ensures l == Line(s, k) <==>
            && l <= s && |l| <= k
            && (forall i :: 0 <= i < |l| - 1 ==> l[i] != NEWLINE)
            && (Ended(l) || |l| == k || l == s)
  {
    if k == 0 || s == [] || l == [] || l[0] != s[0] {
    } else {
      LineIsUnique(s[1..], k - 1, l[1..]);
      assert l == [l[0]] + l[1..];
      assert l <= s <==> l[1..] <= s[1..];
      assert (forall i :: 0 <= i < |l| - 1 ==> l[i] != NEWLINE) <==>
             (|l| > 1 ==> l[0] != NEWLINE) && forall i :: 0 <= i < |l[1..]| - 1 ==> l[1..][i] != NEWLINE by {
        assert forall i :: 0 <= i < |l[1..]| - 1 ==> l[1..][i] == l[i + 1];
        assert forall i :: 0 < i < |l| - 1 ==> l[i] == l[1..][i - 1];
      }
    }
  }

  /** The value readline returns for a line l when it may store k bytes. */
  function Count(l: seq<byte>, k: nat): nat {
    if |l| == k && !Ended(l) then k + 1 else |l|
  }

  /** readline needs no more bytes than s to return a line of at most k. */
  predicate Complete(s: seq<byte>, k: nat) {
    Ended(Line(s, k)) || |Line(s, k)| == k
  }

  class LineReader {
    var readCnt: nat
    var readPtr: nat
    const readBuf: array<byte>

    constructor ()
      ensures Valid() && readCnt == 0 && fresh(readBuf)
    {
      readBuf := new byte[MAXLINE];
      readCnt, readPtr := 0, 0;
    }

    /** A read has failed or was interrupted, but its -1 was stored in an unsigned counter, so nobody noticed: the reader
        hands out the old bytes of its buffer once more, and never looks at the socket again. */
    predicate Astray()
      reads this
    {
      readCnt > MAXLINE
    }

    ghost predicate Valid()
      reads this
    {
      && readBuf.Length == MAXLINE
      && if Astray() then readPtr <= MAXLINE && readCnt == SIZE_MAX - readPtr else readPtr + readCnt <= MAXLINE
    }

    /** Bytes of the buffer still to be handed out. Behind them, a reader gone astray takes memory that is not its own. */
    function Held(): seq<byte>
      requires Valid()
      reads this, readBuf
    {
      if Astray() then readBuf[readPtr..] else readBuf[readPtr..readPtr + readCnt]
    }

    /** The logical stream: what is buffered, then what the socket has. */
    function Rest(fd: Sock): seq<byte>
      requires Valid()
      reads this, readBuf, fd
    {
      if Astray() then Held() else Held() + fd.input
    }

    /** read of a whole buffer; false at the end of the stream. */
    method Fill(fd: Sock) returns (more: bool)
      requires Valid() && readCnt == 0
      modifies this, readBuf, fd`input, fd`interrupts, fd`failures
      ensures Valid() && fd.interrupts <= old(fd.interrupts) && fd.failures >= old(fd.failures)
      ensures Astray() <==> fd.failures > old(fd.failures)
      ensures Astray() ==>
                && more && readBuf[..] == old(readBuf[..]) == Rest(fd) && old(Rest(fd)) == fd.input == old(fd.input)
                && MayFail(old(fd.interrupts), fd.broken)
      ensures !Astray() ==> Rest(fd) == old(Rest(fd)) && more == (old(Rest(fd)) != []) && (more <==> readCnt > 0)
      ensures more ==> Held() != []
    {
      var r := fd.Read(MAXLINE);
      readPtr := 0;
      if !r.Got? {
        readCnt := SIZE_MAX;
        return true;
      }
      readCnt := |r.s|;
      more := readCnt > 0;
      forall k | 0 <= k < |r.s| {
        readBuf[k] := r.s[k];
      }
      assert readBuf[readPtr..readPtr + readCnt] == r.s;
      assert old(readBuf[readPtr..readPtr + readCnt]) == [];
    }

    method TakeByte(fd: Sock) returns (c: byte)
      requires Valid() && Held() != []
      modifies this
      ensures Valid() && Astray() == old(Astray()) && old(Rest(fd)) == [c] + Rest(fd)
    {
      ghost var held := Held();
      readCnt := readCnt - 1;
      c := readBuf[readPtr];
      readPtr := readPtr + 1;
      assert held == [c] + Held();
      assert [c] + Held() + fd.input == [c] + (Held() + fd.input);
    }

    lemma SomethingHeld()
      requires Valid() && !Astray()
      ensures readCnt > 0 <==> Held() != []
    {
    }

    /** One byte of the logical stream; `rc` is 0 at its end. When a read fails, no error, but the old buffer from its start
        instead of the socket. */
    method MyRead(fd: Sock) returns (rc: int, c: byte)
      requires Valid() && (Astray() ==> Held() != [])
      modifies this, readBuf, fd`input, fd`interrupts, fd`failures
      ensures Valid() && fd.interrupts <= old(fd.interrupts) && fd.failures >= old(fd.failures)
      ensures Astray() <==> old(Astray()) || fd.failures > old(fd.failures)
      ensures Astray() ==> readBuf[..] == old(readBuf[..]) && fd.input == old(fd.input)
      ensures Astray() && !old(Astray()) ==>
                && rc == 1 && readBuf[..] == [c] + Rest(fd) && old(Rest(fd)) == fd.input
                && MayFail(old(fd.interrupts), fd.broken)
      ensures Astray() == old(Astray()) ==>
                if old(Rest(fd)) == [] then rc == 0 && Rest(fd) == [] && readCnt == 0
                else rc == 1 && old(Rest(fd)) == [c] + Rest(fd)
    {
      hide Held, Rest;
      c := 0;
      if !Astray() {
        SomethingHeld();
      }
      if readCnt <= 0 {
        var more := Fill(fd);
        if !more {
          return 0, c;
        }
      }
      c := TakeByte(fd);
      rc := 1;
    }

    /** my_read and *ptr++ = c; at the end of the stream the terminator is stored instead. */
    method Step(fd: Sock, vptr: array<byte>, ptr: nat) returns (rc: int, c: byte)
      requires Valid() && (Astray() ==> Held() != []) && ptr < vptr.Length && vptr != readBuf
      modifies this, readBuf, fd`input, fd`interrupts, fd`failures, vptr
      ensures Valid() && fd.interrupts <= old(fd.interrupts) && fd.failures >= old(fd.failures)
      ensures Astray() <==> old(Astray()) || fd.failures > old(fd.failures)
      ensures Astray() ==> readBuf[..] == old(readBuf[..]) && fd.input == old(fd.input)
      ensures Astray() && !old(Astray()) ==>
                && rc == 1 && readBuf[..] == [c] + Rest(fd) && old(Rest(fd)) == fd.input
                && MayFail(old(fd.interrupts), fd.broken)
      ensures Astray() == old(Astray()) ==>
                if old(Rest(fd)) == [] then rc == 0 && Rest(fd) == [] && readCnt == 0
                else rc == 1 && old(Rest(fd)) == [c] + Rest(fd)
      ensures vptr[..ptr] == old(vptr[..ptr]) && rc in {0, 1} && vptr[ptr] == if rc == 1 then c else 0
    {
      rc, c := MyRead(fd);
      ghost var rest := Rest(fd);
      vptr[ptr] := if rc == 1 then c else 0;
      assert rest == Rest(fd);
    }

    /** readline has stored ptr bytes of the line it reads from the front of all, and goes on. */
    ghost predicate Along(fd: Sock, vptr: array<byte>, ptr: nat, all: seq<byte>, k: nat)
      reads this, readBuf, fd, vptr
    {
      Valid() && ptr <= vptr.Length && SoFar(all, k, vptr[..ptr], Rest(fd))
    }

    /** It has stored the whole line, and n is the count to return. */
    ghost predicate Done(fd: Sock, vptr: array<byte>, ptr: nat, all: seq<byte>, k: nat, n: nat)
      reads this, readBuf, fd, vptr
    {
      && Valid() && ptr <= vptr.Length && Exactly(all, k, vptr[..ptr], Rest(fd)) && Count(vptr[..ptr], k) == n
      && (Astray() ==> Complete(all, k))
    }

    lemma AlongStart(fd: Sock, vptr: array<byte>, k: nat)
      requires Valid()
      ensures Along(fd, vptr, 0, Rest(fd), k)
    {
      SoFarStart(Rest(fd), k, vptr[..0]);
    }

    lemma AlongEnd(fd: Sock, vptr: array<byte>, all: seq<byte>, k: nat)
      requires Along(fd, vptr, k, all, k)
      ensures Done(fd, vptr, k, all, k, k + 1)
    {
      SoFarEnd(all, k, vptr[..k], Rest(fd));
    }

    lemma AlongHolds(fd: Sock, vptr: array<byte>, ptr: nat, all: seq<byte>, k: nat)
      requires Along(fd, vptr, ptr, all, k)
      ensures Astray() && readPtr < MAXLINE ==> Held() != []
    {
    }

    /** The reader has come to the end of its old buffer in the middle of a line. */
    lemma AlongOverrun(fd: Sock, vptr: array<byte>, ptr: nat, all: seq<byte>, k: nat)
      requires Along(fd, vptr, ptr, all, k) && ptr < k && Astray() && readPtr == MAXLINE
      ensures !Complete(all, k) && Rest(fd) == []
    {
      SoFarEnd(all, k, vptr[..ptr], []);
    }

    /** One turn of readline's loop, with what it means for the line that is read from `all`. If the read fails, the line
        goes on with the old buffer. */
    method Turn(fd: Sock, vptr: array<byte>, ptr: nat, ghost all: seq<byte>, ghost k: nat)
      returns (rc: int, c: byte, ghost all': seq<byte>)
      requires ptr < k < vptr.Length && vptr != readBuf && Along(fd, vptr, ptr, all, k) && (Astray() ==> Held() != [])
      modifies this, readBuf, fd`input, fd`interrupts, fd`failures, vptr
      ensures fd.interrupts <= old(fd.interrupts) && fd.failures >= old(fd.failures) && rc in {0, 1}
      ensures Astray() <==> old(Astray()) || fd.failures > old(fd.failures)
      ensures Astray() ==> readBuf[..] == old(readBuf[..]) && fd.input == old(fd.input)
      ensures Astray() == old(Astray()) ==> all' == all
      ensures Astray() && !old(Astray()) ==>
                && MayFail(old(fd.interrupts), fd.broken)
                && all == old(vptr[..ptr]) + fd.input && all' == old(vptr[..ptr]) + readBuf[..]
      ensures rc == 0 ==> Done(fd, vptr, ptr, all', k, ptr) && vptr[ptr] == 0 && readCnt == 0
      ensures rc == 1 ==>
                if c == NEWLINE then Done(fd, vptr, ptr + 1, all', k, ptr + 1) else Along(fd, vptr, ptr + 1, all', k)
    {
      ghost var l, rest, went := vptr[..ptr], Rest(fd), Astray();
      rc, c := Step(fd, vptr, ptr);
      all' := all;
      if Astray() && !went {
        all' := l + readBuf[..];
        SoFarAnew(k, l, readBuf[..]);
      }
      if rc == 0 {
        SoFarEnd(all', k, l, rest);
      } else {
        SoFarStep(all', k, l, c, Rest(fd));
        assert vptr[..ptr + 1] == l + [c];
      }
    }

    /** The loop of readline; at the end of the stream it has stored the terminator. `overrun`: it wants a byte from behind
        its buffer, and is not followed any further. The stream it reads is `all`; if a read fails on the way, that is
        what it had read of the line so far, then the old buffer. */
    method Gather(fd: Sock, vptr: array<byte>, maxlen: nat)
      returns (n: int, ptr: nat, eof: bool, overrun: bool, ghost soFar: seq<byte>, ghost all: seq<byte>)
      requires Valid() && 1 <= maxlen <= vptr.Length && vptr != readBuf
      modifies this, readBuf, fd`input, fd`interrupts, fd`failures, vptr
      ensures Valid() && fd.interrupts <= old(fd.interrupts) && fd.failures >= old(fd.failures)
      ensures Astray() <==> old(Astray()) || fd.failures > old(fd.failures)
      ensures old(Astray()) ==> readBuf[..] == old(readBuf[..]) && fd.input == old(fd.input)
      ensures Astray() == old(Astray()) ==> all == old(Rest(fd))
      ensures Astray() && !old(Astray()) ==>
                && old(Rest(fd)) == soFar + fd.input && all == soFar + readBuf[..]
                && MayFail(old(fd.interrupts), fd.broken)
      ensures overrun ==> Astray() && Rest(fd) == [] && !Complete(all, maxlen - 1)
      ensures !overrun ==>
                && ptr < maxlen && n >= 0 && Done(fd, vptr, ptr, all, maxlen - 1, n)
                && if eof then vptr[ptr] == 0 && readCnt == 0 else n > 0
    {
      hide Along, Done, Complete, Held, Rest;
      n, ptr, eof, overrun := 1, 0, false, false;
      soFar, all := [], Rest(fd);
      AlongStart(fd, vptr, maxlen - 1);
      while n < maxlen
        invariant 1 <= n <= maxlen && ptr == n - 1 && fd.interrupts <= old(fd.interrupts)
        invariant fd.failures >= old(fd.failures)
        invariant Valid() && Along(fd, vptr, ptr, all, maxlen - 1)
        invariant Astray() <==> old(Astray()) || fd.failures > old(fd.failures)
        invariant old(Astray()) ==> readBuf[..] == old(readBuf[..]) && fd.input == old(fd.input)
        invariant Astray() == old(Astray()) ==> all == old(Rest(fd))
        invariant Astray() && !old(Astray()) ==>
                    && old(Rest(fd)) == soFar + fd.input && all == soFar + readBuf[..]
                    && MayFail(old(fd.interrupts), fd.broken)
      {
        if Astray() && readPtr == MAXLINE {
          AlongOverrun(fd, vptr, ptr, all, maxlen - 1);
          overrun := true;
          return;
        }
        AlongHolds(fd, vptr, ptr, all, maxlen - 1);
        ghost var went, l := Astray(), vptr[..ptr];
        var rc, c;
        rc, c, all := Turn(fd, vptr, ptr, all, maxlen - 1);
        soFar := if Astray() && !went then l else soFar;
        if rc == 0 {
          return n - 1, ptr, true, false, soFar, all;
        }
        ptr := ptr + 1;
        if c == NEWLINE {
          return;
        }
        n := n + 1;
      }
      AlongEnd(fd, vptr, all, maxlen - 1);
    }

    /** For any way read cuts the stream: the line of the byte-at-a-time reader is stored and terminated, and exactly its
        bytes are consumed. The reader goes astray exactly when a read fails; the line, and all later ones, then come
        from the old buffer, until it is used up. */
    method ReadLine(fd: Sock, vptr: array<byte>, maxlen: nat)
      returns (n: int, overrun: bool, ghost soFar: seq<byte>, ghost all: seq<byte>)
      requires Valid() && 1 <= maxlen <= vptr.Length && vptr != readBuf
      modifies this, readBuf, fd`input, fd`interrupts, fd`failures, vptr
      ensures Valid() && fd.interrupts <= old(fd.interrupts) && fd.failures >= old(fd.failures)
      ensures Astray() <==> old(Astray()) || fd.failures > old(fd.failures)
      ensures old(Astray()) ==> readBuf[..] == old(readBuf[..]) && fd.input == old(fd.input)
      ensures Astray() == old(Astray()) ==> all == old(Rest(fd))
      ensures Astray() && !old(Astray()) ==>
                && old(Rest(fd)) == soFar + fd.input && all == soFar + readBuf[..]
                && MayFail(old(fd.interrupts), fd.broken)
      ensures overrun <==> Astray() && !Complete(all, maxlen - 1)
      ensures !overrun ==>
                var l := Line(all, maxlen - 1);
                && n == Count(l, maxlen - 1) && vptr[..|l|] == l && vptr[|l|] == 0
                && all == l + Rest(fd) && (n == 0 ==> readCnt == 0)
    {
      hide Line, Count, Complete;
      var ptr, eof;
      n, ptr, eof, overrun, soFar, all := Gather(fd, vptr, maxlen);
      if overrun {
        return;
      }
      ghost var l, rest := vptr[..ptr], Rest(fd);
      if !eof {
        vptr[ptr] := 0;
      }
      assert vptr[..ptr] == l && Rest(fd) == rest;
    }
  }

  /** Only a signal or a broken connection makes a call fail. */
  predicate MayFail(interrupts: nat, broken: bool) {
    interrupts > 0 || broken
  }

  /** l was read from the front of all, rest follows, and no newline has ended the line yet. */
  ghost predicate SoFar(all: seq<byte>, k: nat, l: seq<byte>, rest: seq<byte>) {
    |l| <= k && all == l + rest && Line(all, k) == l + Line(rest, k - |l|) && NEWLINE !in l
  }

  lemma SoFarStart(all: seq<byte>, k: nat, l: seq<byte>)
    requires l == []
    ensures SoFar(all, k, l, all)
  {
  }

  lemma LineCons(c: byte, rest: seq<byte>, k: nat)
    requires k > 0
    ensures Line([c] + rest, k) == if c == NEWLINE then [c] else [c] + Line(rest, k - 1)
  {
    assert ([c] + rest)[1..] == rest;
  }

  lemma Assoc(a: seq<byte>, b: seq<byte>, c: seq<byte>)
    ensures a + (b + c) == (a + b) + c
  {
  }

  lemma {:induction false} LineAppend(k: nat, l: seq<byte>, rest: seq<byte>)
    requires |l| <= k && NEWLINE !in l
    ensures Line(l + rest, k) == l + Line(rest, k - |l|)
  {
    hide Line;
    if l == [] {
      assert [] + rest == rest;
      assert [] + Line(rest, k) == Line(rest, k);
    } else {
      assert l + rest == [l[0]] + (l[1..] + rest);
      LineCons(l[0], l[1..] + rest, k);
      LineAppend(k - 1, l[1..], rest);
      Assoc([l[0]], l[1..], Line(rest, k - |l|));
    }
  }

  /** A line without newline so far may be continued by anything. */
  lemma SoFarAnew(k: nat, l: seq<byte>, rest: seq<byte>)
    requires |l| <= k && NEWLINE !in l
    ensures SoFar(l + rest, k, l, rest)
  {
    LineAppend(k, l, rest);
  }

  lemma SoFarStep(all: seq<byte>, k: nat, l: seq<byte>, c: byte, rest: seq<byte>)
    requires |l| < k && SoFar(all, k, l, [c] + rest)
    ensures if c == NEWLINE then Exactly(all, k, l + [c], rest) && Count(l + [c], k) == |l| + 1 && Complete(all, k)
            else SoFar(all, k, l + [c], rest)
  {
    LineCons(c, rest, k - |l|);
    Assoc(l, [c], rest);
    if c != NEWLINE {
      Assoc(l, [c], Line(rest, k - |l| - 1));
    }
  }

  ghost predicate Exactly(all: seq<byte>, k: nat, l: seq<byte>, rest: seq<byte>) {
    l == Line(all, k) && all == l + rest
  }

  lemma SoFarEnd(all: seq<byte>, k: nat, l: seq<byte>, rest: seq<byte>)
    requires SoFar(all, k, l, rest) && (|l| == k || rest == [])
    ensures Exactly(all, k, l, rest) && Count(l, k) == if |l| == k then k + 1 else |l|
    ensures Complete(all, k) <==> |l| == k
  {
    assert l + [] == l;
  }

  lemma {:induction false} LineEnds(s: seq<byte>, k: nat)
    ensures var l := Line(s, k); Ended(l) || |l| < k <==> |s| < k || NEWLINE in s[..k]
  {
    var l := Line(s, k);
    LineIsUnique(s, k, l);
    if |s| >= k {
      if Ended(l) {
        assert s[..k][|l| - 1] == NEWLINE;
      } else {
        assert l == s[..k];
      }
    }
  }

  /** For every stream and every room for k bytes, the value returned is the number of bytes stored if and only if the
      stream ends, or has a newline, within those k bytes; otherwise it is one too large. It is 0 only at the end of the
      stream. */
  lemma {:induction false} CountIsExact(s: seq<byte>, k: nat)
    ensures Count(Line(s, k), k) == |Line(s, k)| <==> |s| < k || NEWLINE in s[..k]
    ensures k <= |s| && NEWLINE !in s[..k] ==> Line(s, k) == s[..k] && Count(Line(s, k), k) == k + 1
    ensures k > 0 ==> (Count(Line(s, k), k) == 0 <==> s == [])
  {
    LineEnds(s, k);
  }

  /** The stream on which it fails: 4095 bytes without a newline, read into a buffer of 4096. */
  lemma CountTooLarge()
    ensures var s := seq(4095, _ => 97); Line(s, 4095) == s && Count(Line(s, 4095), 4095) == 4096
  {
    var s: seq<byte> := seq(MAXLINE - 1, _ => 97);
    LineIsUnique(s, MAXLINE - 1, s);
    CountIsExact(s, MAXLINE - 1);
  }
}
