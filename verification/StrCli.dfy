/** nonblock/str_cli_nonblock.cpp, the first str_cli: copy stdin to a socket and the socket to stdout, all non-blocking. */
module StrCli {
  import opened Bytes

  const MAXLINE := 4096

  /** A buffer with its two pointers: bytes are what lies between optr = off and iptr = off + |bytes|. */
  datatype Buf = Buf(off: nat, bytes: seq<byte>) {
    function In(): nat {
      off + |bytes|
    }

    /** Room for one more read. */
    function Room(): int {
      MAXLINE - In()
    }

    function Push(s: seq<byte>): Buf {
      Buf(off, bytes + s)
    }

    /** Drop n bytes; an emptied buffer starts again at the beginning. */
    function Pop(n: nat): Buf
      requires n <= |bytes|
    {
      if n == |bytes| then Buf(0, []) else Buf(off + n, bytes[n..])
    }
  }

  /** rset and wset */
  datatype Fds = Fds(rStdin: bool, rSock: bool, wStdout: bool, wSock: bool)

  datatype Client = Client(to: Buf, fr: Buf, stdineof: bool, shutdowns: nat, fds: Fds)

  const FRESH := Client(Buf(0, []), Buf(0, []), false, 0, Fds(false, false, false, false))

  /** Results of read and write; Blocked is EWOULDBLOCK. */
  datatype ReadResult = Data(bytes: seq<byte>) | Eof | Blocked

  datatype WriteResult = Wrote(n: nat) | NotNow

  predicate ReadFits(b: Buf, r: ReadResult) {
    r.Data? ==> 0 < |r.bytes| <= b.Room()
  }

  predicate WriteFits(b: Buf, w: WriteResult) {
    w.Wrote? ==> 0 < w.n <= |b.bytes|
  }

  // ----- one turn of the loop, block by block

  /** The descriptors select is asked about. */
  function Asked(c: Client): Fds {
    Fds(!c.stdineof && c.to.In() < MAXLINE, c.fr.In() < MAXLINE, c.fr.bytes != [], c.to.bytes != [])
  }

  function Shutdown(c: Client): Client {
    c.(shutdowns := c.shutdowns + 1)
  }

  function OnStdin(c: Client, r: ReadResult): Client {
    if !c.fds.rStdin then c
    else
      match r
      case Blocked => c
      case Eof =>
        var d := c.(stdineof := true);
        if c.to.bytes == [] then Shutdown(d) else d
      case Data(s) => c.(to := c.to.Push(s), fds := c.fds.(wSock := true))
  }

  /** End of file is handled by the caller: it ends the loop. */
  function OnSocket(c: Client, r: ReadResult): Client {
    if !c.fds.rSock then c
    else
      match r
      case Blocked => c
      case Eof => c
      case Data(s) => c.(fr := c.fr.Push(s), fds := c.fds.(wStdout := true))
  }

  function OnStdout(c: Client, w: WriteResult): Client
    requires WriteFits(c.fr, w)
  {
    if c.fds.wStdout && c.fr.bytes != [] && w.Wrote? then c.(fr := c.fr.Pop(w.n)) else c
  }

  function OnSockout(c: Client, w: WriteResult): Client
    requires WriteFits(c.to, w)
  {
    if c.fds.wSock && c.to.bytes != [] && w.Wrote? then
      var d := c.(to := c.to.Pop(w.n));
      if d.to.bytes == [] && d.stdineof then Shutdown(d) else d
    else
      c
  }

  /** Outcome of the socket's block: go on, return, or quit because the server went away too soon. */
  datatype Ending = GoOn | Returns | Premature

  class Copier {
    const to: array<byte>
    const fr: array<byte>
    var toiptr: nat
    var tooptr: nat
    var friptr: nat
    var froptr: nat
    var stdineof: bool
    var shutdowns: nat
    var fds: Fds

    ghost predicate Valid()
      reads this
    {
      && to != fr && to.Length == fr.Length == MAXLINE
      && tooptr <= toiptr <= MAXLINE && froptr <= friptr <= MAXLINE
      && (tooptr == toiptr ==> toiptr == 0) && (froptr == friptr ==> friptr == 0)
    }

    function Value(): Client
      requires Valid()
      reads this, to, fr
    {
      Client(Buf(tooptr, to[tooptr..toiptr]), Buf(froptr, fr[froptr..friptr]), stdineof, shutdowns, fds)
    }

    constructor ()
      ensures Valid() && Value() == FRESH && fresh(to) && fresh(fr)
    {
      to := new byte[MAXLINE];
      fr := new byte[MAXLINE];
      toiptr, tooptr, friptr, froptr := 0, 0, 0, 0;
      stdineof, shutdowns := false, 0;
      fds := Fds(false, false, false, false);
    }

    /** The sets built before select; `picked` is what select leaves of them. */
    method Ask()
      requires Valid()
      modifies this`fds
      ensures Valid() && Value() == old(Value()).(fds := Asked(old(Value())))
    {
      var rStdin, rSock, wSock, wStdout := false, false, false, false;
      if !stdineof && toiptr < MAXLINE {
        rStdin := true;
      }
      if friptr < MAXLINE {
        rSock := true;
      }
      if tooptr != toiptr {
        wSock := true;
      }
      if froptr != friptr {
        wStdout := true;
      }
      fds := Fds(rStdin, rSock, wStdout, wSock);
    }

    method FromStdin(r: ReadResult)
      requires Valid() && (fds.rStdin ==> ReadFits(Value().to, r))
      modifies this, to
      ensures Valid() && Value() == OnStdin(old(Value()), r)
    {
      if fds.rStdin {
        match r
        case Blocked =>
        case Eof =>
          stdineof := true;
          if tooptr == toiptr {
            shutdowns := shutdowns + 1;
          }
        case Data(s) =>
          forall k | 0 <= k < |s| {
            to[toiptr + k] := s[k];
          }
          assert to[tooptr..toiptr + |s|] == old(to[tooptr..toiptr]) + s;
          toiptr := toiptr + |s|;
          fds := fds.(wSock := true);
      }
    }

    method FromSocket(r: ReadResult) returns (ending: Ending)
      requires Valid() && (fds.rSock ==> ReadFits(Value().fr, r))
      modifies this, fr
      ensures Valid() && Value() == OnSocket(old(Value()), r)
      ensures ending == if !old(fds.rSock) || !r.Eof? then GoOn else if stdineof then Returns else Premature
    {
      ending := GoOn;
      if fds.rSock {
        match r
        case Blocked =>
        case Eof =>
          ending := if stdineof then Returns else Premature;
        case Data(s) =>
          forall k | 0 <= k < |s| {
            fr[friptr + k] := s[k];
          }
          assert fr[froptr..friptr + |s|] == old(fr[froptr..friptr]) + s;
          friptr := friptr + |s|;
          fds := fds.(wStdout := true);
      }
    }

    method ToStdout(w: WriteResult)
      requires Valid() && WriteFits(Value().fr, w)
      modifies this
      ensures Valid() && Value() == OnStdout(old(Value()), w)
    {
      if fds.wStdout && friptr - froptr > 0 && w.Wrote? {
        froptr := froptr + w.n;
        if froptr == friptr {
          froptr, friptr := 0, 0;
        }
      }
    }

    method ToSocket(w: WriteResult)
      requires Valid() && WriteFits(Value().to, w)
      modifies this
      ensures Valid() && Value() == OnSockout(old(Value()), w)
    {
      if fds.wSock && toiptr - tooptr > 0 && w.Wrote? {
        tooptr := tooptr + w.n;
        if tooptr == toiptr {
          toiptr, tooptr := 0, 0;
          if stdineof {
            shutdowns := shutdowns + 1;
          }
        }
      }
    }
  }
}
