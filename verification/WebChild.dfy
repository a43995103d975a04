/** server/web_clild.cpp and the request side of server/client/main.cpp: ask for a number of bytes in decimal, get them. */
module WebChild {
  import opened Bytes
  import opened StreamIO
  import opened Readline
  import opened Sums

  const MAXN := 16384
  const LONG_MAX := 0x7fff_ffff_ffff_ffff
  const LONG_MIN := -0x8000_0000_0000_0000
  const MINUS: byte := 45
  const PLUS: byte := 43

  // ----- atol and "%ld"

  predicate IsDigit(c: byte) {
    48 <= c <= 57
  }

  predicate IsSpace(c: byte) {
    c == 32 || 9 <= c <= 13
  }

  function SkipSpace(s: seq<byte>): seq<byte> {
    if s != [] && IsSpace(s[0]) then SkipSpace(s[1..]) else s
  }

  /** The number acc continued by the digits at the front of s. */
  function Digits(acc: nat, s: seq<byte>): nat
    decreases |s|
  {
    if s != [] && IsDigit(s[0]) then Digits(10 * acc + (s[0] - 48), s[1..]) else acc
  }

  function Saturate(x: int): int {
    if x > LONG_MAX then LONG_MAX else if x < LONG_MIN then LONG_MIN else x
  }

  /** atol on a line: white space, an optional sign, digits; a number that is too large saturates. */
  function Atol(s: seq<byte>): int {
    var t := SkipSpace(s);
    if t != [] && t[0] == MINUS then
      var d: int := Digits(0, t[1..]);
      Saturate(-d)
    else if t != [] && t[0] == PLUS then Saturate(Digits(0, t[1..]))
    else Saturate(Digits(0, t))
  }

  /** Assigning a long to an int. */
  function ToInt(x: int): int {
    (x + 0x8000_0000) % W32 - 0x8000_0000
  }

  function Decimal(n: nat): (s: seq<byte>)
    ensures s != [] && forall i :: 0 <= i < |s| ==> IsDigit(s[i])
  {
    if n < 10 then [48 + n] else Decimal(n / 10) + [48 + n % 10]
  }

  function PrintLong(x: int): seq<byte> {
    if x < 0 then [MINUS] + Decimal(-x) else Decimal(x)
  }

  lemma {:induction false} DigitsOfDecimal(n: nat, u: seq<byte>)
    ensures Digits(0, Decimal(n) + u) == Digits(n, u)
  {
    if n < 10 {
      assert ([48 + n] + u)[1..] == u;
    } else {
      var c: seq<byte> := [48 + n % 10];
      assert Decimal(n) + u == Decimal(n / 10) + (c + u);
      DigitsOfDecimal(n / 10, c + u);
      assert (c + u)[1..] == u;
    }
  }

  lemma AtolOfDecimal(n: nat, u: seq<byte>)
    requires u != [] ==> !IsDigit(u[0])
    ensures Atol(Decimal(n) + u) == Saturate(n) && Atol([MINUS] + (Decimal(n) + u)) == Saturate(0 - n)
  {
    hide Saturate;
    var s := Decimal(n) + u;
    assert IsDigit(s[0]);
    DigitsOfDecimal(n, u);
    assert ([MINUS] + s)[1..] == s;
  }

  /** atol undoes "%ld" for every long, whatever follows the number. */
  lemma AtolOfPrinted(x: int, u: seq<byte>)
    requires LONG_MIN <= x <= LONG_MAX && (u != [] ==> !IsDigit(u[0]))
    ensures Atol(PrintLong(x) + u) == x
  {
    hide Atol, Decimal;
    var n: nat := if x < 0 then -x else x;
    AtolOfDecimal(n, u);
    assert [MINUS] + Decimal(n) + u == [MINUS] + (Decimal(n) + u);
  }

  // ----- what atol and "%ld" mean, digit by digit

  /** The number a string of decimal digits stands for. */
  function Value(s: seq<byte>): int {
    if s == [] then 0
    else
      var digit: int := s[|s| - 1];
      10 * Value(s[..|s| - 1]) + (digit - 48)
  }

  /** Decimal prints the one string of decimal digits, without leading zeros, that stands for n. */
  lemma {:induction false} DecimalStandsFor(n: nat)
    ensures Value(Decimal(n)) == n
    ensures forall i :: 0 <= i < |Decimal(n)| ==> 48 <= Decimal(n)[i] <= 57
    ensures Decimal(n)[0] == 48 ==> n == 0 && |Decimal(n)| == 1
  {
    if n < 10 {
      assert [48 + n][..0] == [];
    } else {
      DecimalStandsFor(n / 10);
      assert Decimal(n)[..|Decimal(n)| - 1] == Decimal(n / 10);
    }
  }

  lemma {:induction false} SpaceSkipped(space: seq<byte>, t: seq<byte>)
    requires forall i :: 0 <= i < |space| ==> space[i] == 32 || 9 <= space[i] <= 13
    requires t != [] ==> !(t[0] == 32 || 9 <= t[0] <= 13)
    ensures SkipSpace(space + t) == t
  {
    if space == [] {
      assert [] + t == t;
    } else {
      assert (space + t)[1..] == space[1..] + t;
      SpaceSkipped(space[1..], t);
    }
  }

  /** atol: any white space, a sign or none, the digits; what does not fit a long becomes the nearest long. */
  lemma AtolOfAnyNumber(space: seq<byte>, sign: seq<byte>, n: nat, u: seq<byte>)
    requires forall i :: 0 <= i < |space| ==> space[i] == 32 || 9 <= space[i] <= 13
    requires sign in {[], [43], [45]} && (u != [] ==> !(48 <= u[0] <= 57))
    ensures var x: int := if sign == [45] then 0 - n else n;
            Atol(space + (sign + (Decimal(n) + u))) ==
            if x > 0x7fff_ffff_ffff_ffff then 0x7fff_ffff_ffff_ffff
            else if x < -0x8000_0000_0000_0000 then -0x8000_0000_0000_0000
            else x
  {
    var t := sign + (Decimal(n) + u);
    DecimalStandsFor(n);
    assert sign == [] ==> t == Decimal(n) + u;
    SpaceSkipped(space, t);
    DigitsOfDecimal(n, u);
    assert sign != [] ==> t[1..] == Decimal(n) + u;
  }

  /** And without digits it is 0. */
  lemma AtolOfNoNumber(space: seq<byte>, sign: seq<byte>, u: seq<byte>)
    requires forall i :: 0 <= i < |space| ==> space[i] == 32 || 9 <= space[i] <= 13
    requires sign in {[], [43], [45]}
    requires u != [] ==> !(48 <= u[0] <= 57)
    requires sign == [] && u != [] ==> !(u[0] == 32 || 9 <= u[0] <= 13 || u[0] == 43 || u[0] == 45)
    ensures Atol(space + (sign + u)) == 0
  {
    assert sign == [] ==> sign + u == u;
    SpaceSkipped(space, sign + u);
    assert sign != [] ==> (sign + u)[1..] == u;
  }

  /** The int that a long becomes: the one in range that differs by a multiple of 2^32. */
  lemma ToIntWraps(x: int)
    ensures -0x8000_0000 <= ToInt(x) < 0x8000_0000 && (ToInt(x) - x) % 0x1_0000_0000 == 0
  {
    var q := (x + 0x8000_0000) / W32;
    assert ToInt(x) - x == -W32 * q;
  }

  // ----- what a connection is served

  /** Bytes written in reply before the client closed, or before a bad request ended the server. */
  datatype Session = Session(written: nat, quit: bool)

  const ROOM := MAXLINE - 1

  function Serve(s: seq<byte>): Session
    decreases |s|
  {
    if s == [] then Session(0, false)
    else
      var l := Line(s, ROOM);
      var n := Asked(l);
      if n <= 0 || n > MAXN then Session(0, true)
      else
        var r := Serve(s[|l|..]);
        Session(n + r.written, r.quit)
  }

  /** The value readline's caller passes on: the number in line l, as an int. */
  function Asked(l: seq<byte>): int {
    ToInt(Atol(l))
  }

  /** What a reader gone astray makes of the bytes s it still holds: the requests in them are answered, until one is
      refused or s does not hold a whole line any more. */
  function Replay(s: seq<byte>): Session
    decreases |s|
  {
    if !Complete(s, ROOM) then Session(0, false)
    else
      var l := Line(s, ROOM);
      var n := Asked(l);
      if n <= 0 || n > MAXN then Session(0, true)
      else
        var r := Replay(s[|l|..]);
        Session(n + r.written, r.quit)
  }

  /** How a request, or the whole connection, comes out: the client has closed, the request was answered, it was refused
      (err_quit), the reply could not be written (err_sys), or the reader ran out of its buffer. */
  datatype Outcome = Closed | Served | Refused | Unwritten | Overrun

  /** Read one request: at the end of the stream nothing, else the number in its next line. */
  method ReadCount(fd: Sock, reader: LineReader, line: array<byte>)
    returns (nread: int, ntowrite: int, overrun: bool, ghost soFar: seq<byte>, ghost all: seq<byte>)
    requires reader.Valid() && line.Length == MAXLINE && line != reader.readBuf
    modifies reader, reader.readBuf, fd`input, fd`interrupts, fd`failures, line
    ensures reader.Valid() && fd.interrupts <= old(fd.interrupts) && fd.failures >= old(fd.failures)
    ensures reader.Astray() <==> old(reader.Astray()) || fd.failures > old(fd.failures)
    ensures old(reader.Astray()) ==> reader.readBuf[..] == old(reader.readBuf[..]) && fd.input == old(fd.input)
    ensures reader.Astray() == old(reader.Astray()) ==> all == old(reader.Rest(fd))
    ensures reader.Astray() && !old(reader.Astray()) ==>
              && old(reader.Rest(fd)) == soFar + fd.input && all == soFar + reader.readBuf[..]
              && MayFail(old(fd.interrupts), fd.broken)
    ensures overrun <==> reader.Astray() && !Complete(all, ROOM)
    ensures !overrun ==>
              var l := Line(all, ROOM);
              && all == l + reader.Rest(fd)
              && (nread == 0 <==> all == []) && (nread == 0 ==> reader.readCnt == 0) && (nread != 0 ==> ntowrite == Asked(l))
  {
    nread, overrun, soFar, all := reader.ReadLine(fd, line, MAXLINE);
    CountIsExact(all, ROOM);
    ghost var l := Line(all, ROOM);
    ntowrite := 0;
    if !overrun && nread != 0 {
      assert line[..][..|l|] == l && line[..][|l|] == 0;
      AtolStops(line[..], |l|);
      ntowrite := ToInt(Atol(line[..]));
    }
  }

  /** Read one request and answer it. */
  method OneRequest(fd: Sock, reader: LineReader, line: array<byte>, result: seq<byte>)
    returns (r: Outcome, ghost soFar: seq<byte>, ghost all: seq<byte>)
    requires reader.Valid() && |result| == MAXN && line.Length == MAXLINE && line != reader.readBuf
    modifies reader, reader.readBuf, fd`input, fd`output, fd`interrupts, fd`failures, line
    ensures reader.Valid() && fd.interrupts <= old(fd.interrupts) && fd.failures >= old(fd.failures)
    ensures reader.Astray() <==> old(reader.Astray()) || fd.failures > old(fd.failures)
    ensures old(reader.Astray()) ==> reader.readBuf[..] == old(reader.readBuf[..]) && fd.input == old(fd.input)
    ensures reader.Astray() == old(reader.Astray()) ==> all == old(reader.Rest(fd))
    ensures reader.Astray() && !old(reader.Astray()) ==>
              && old(reader.Rest(fd)) == soFar + fd.input && all == soFar + reader.readBuf[..]
              && MayFail(old(fd.interrupts), fd.broken)
    ensures r == Overrun <==> reader.Astray() && !Complete(all, ROOM)
    ensures r == Closed ==> !reader.Astray() && reader.readCnt == 0 && reader.Rest(fd) == []
    ensures r == Unwritten ==> fd.broken
    ensures old(fd.output) <= fd.output && Did(r, all, reader.Rest(fd), |fd.output| - |old(fd.output)|)
    ensures r == Served || r == Unwritten ==> fd.output[|old(fd.output)|..] <= result
  {
    hide Line, Asked, Complete, LineReader.Rest, LineReader.Held, LineReader.Valid, LineReader.Astray;
    var nread, ntowrite, overrun;
    nread, ntowrite, overrun, soFar, all := ReadCount(fd, reader, line);
    if overrun {
      return Overrun, soFar, all;
    }
    if nread == 0 {
      return Closed, soFar, all;
    }
    if ntowrite <= 0 || ntowrite > MAXN {
      return Refused, soFar, all;
    }
    var ok := WriteReply(fd, reader, result[..ntowrite]);
    r := if ok then Served else Unwritten;
  }

  /** Writen; the reader and what it has still to read are not touched. */
  method WriteReply(fd: Sock, reader: LineReader, reply: seq<byte>) returns (ok: bool)
    requires reader.Valid()
    modifies fd`output, fd`interrupts
    ensures fd.interrupts <= old(fd.interrupts) && reader.Rest(fd) == old(reader.Rest(fd))
    ensures old(fd.output) <= fd.output && fd.output[|old(fd.output)|..] <= reply
    ensures if ok then fd.output == old(fd.output) + reply
            else fd.broken && |fd.output| < |old(fd.output)| + |reply|
  {
    var w := Writen(fd, reply);
    ok := w >= 0;
  }

  /** The request loop. The reply's contents come from an uninitialised buffer: any bytes of the right length. At a normal
      return nothing is left in the reader's static buffer, so no byte reaches the next connection served with it. If a
      read fails, the requests before it have been answered (`done` bytes), and then the old buffer is served, behind what
      had been read of the next line. */
  method WebChild(fd: Sock, reader: LineReader, result: seq<byte>)
    returns (r: Outcome, ghost done: nat, ghost soFar: seq<byte>)
    requires reader.Valid() && !reader.Astray() && |result| == MAXN
    modifies reader, reader.readBuf, fd`input, fd`output, fd`interrupts, fd`failures
    ensures reader.Valid() && r != Served && old(fd.output) <= fd.output
    ensures reader.Astray() <==> fd.failures > old(fd.failures)
    ensures reader.Astray() ==> MayFail(old(fd.interrupts), fd.broken)
    ensures r == Unwritten ==> fd.broken
    ensures !reader.Astray() ==>
              && r != Overrun
              && IsSession(Serve(old(reader.Rest(fd))), r, |fd.output| - |old(fd.output)|)
              && (r == Closed ==> reader.readCnt == 0 && reader.Rest(fd) == [])
    ensures reader.Astray() ==>
              && r != Closed
              && Balance(Serve(old(reader.Rest(fd))), done, Serve(soFar + fd.input))
              && IsSession(Replay(soFar + reader.readBuf[..]), r, |fd.output| - |old(fd.output)| - done)
  {
    hide Serve, Replay, Line, Complete, Asked, Balance, IsSession, MayFail, Did, AstrayBalance;
    hide LineReader.Rest, LineReader.Held, LineReader.Valid, LineReader.Astray;
    ghost var start, base := reader.Rest(fd), |fd.output|;
    var line := new byte[MAXLINE];
    done, soFar := 0, [];
    NothingDone(Serve(start));
    while true
      invariant reader.Valid() && fd.interrupts <= old(fd.interrupts) && fd.failures >= old(fd.failures)
      invariant old(fd.output) <= fd.output
      invariant reader.Astray() <==> fd.failures > old(fd.failures)
      invariant reader.Astray() ==> MayFail(old(fd.interrupts), fd.broken)
      invariant if reader.Astray() then
                  AstrayBalance(start, done, soFar, fd.input, reader.readBuf[..], |fd.output| - base, reader.Rest(fd))
                else
                  Balance(Serve(start), |fd.output| - base, Serve(reader.Rest(fd)))
      decreases !reader.Astray(), |reader.Rest(fd)|
    {
      ghost var went, n, rest, interrupts := reader.Astray(), |fd.output| - base, reader.Rest(fd), fd.interrupts;
      ghost var l, all;
      r, l, all := OneRequest(fd, reader, line, result);
      ghost var m := |fd.output| - base - n;
      if reader.Astray() {
        if !went {
          done, soFar := n, l;
          MayFailSooner(interrupts, old(fd.interrupts), fd.broken);
          GoneAstray(start, n, l, fd.input, reader.readBuf[..]);
        }
        AstrayStep(start, done, soFar, fd.input, reader.readBuf[..], n, r, all, reader.Rest(fd), m);
      } else {
        StraightStep(start, n, r, all, reader.Rest(fd), m);
      }
      if r != Served {
        return;
      }
    }
  }

  /** One request was read from the front of all, rest is left, and m bytes were written. */
  ghost predicate Did(r: Outcome, all: seq<byte>, rest: seq<byte>, m: int) {
    var l := Line(all, ROOM);
    match r
    case Closed => all == [] && m == 0
    case Overrun => !Complete(all, ROOM) && m == 0
    case Refused => all != [] && all == l + rest && !(1 <= Asked(l) <= MAXN) && m == 0
    case Served => all != [] && all == l + rest && 1 <= Asked(l) <= MAXN && m == Asked(l)
    case Unwritten => all != [] && all == l + rest && 1 <= Asked(l) <= MAXN && 0 <= m < Asked(l)
  }

  /** After a failed read: done bytes were written before it, and n so far, with rest of the old buffer to come. */
  ghost predicate AstrayBalance(start: seq<byte>, done: nat, soFar: seq<byte>, input: seq<byte>, buf: seq<byte>,
                                n: int, rest: seq<byte>)
  {
    && done <= n
    && Balance(Serve(start), done, Serve(soFar + input)) && Balance(Replay(soFar + buf), n - done, Replay(rest))
  }

  lemma NothingDone(s: Session)
    ensures Balance(s, 0, s)
  {
  }

  lemma MayFailSooner(i: nat, j: nat, broken: bool)
    requires i <= j && MayFail(i, broken)
    ensures MayFail(j, broken)
  {
  }

  lemma GoneAstray(start: seq<byte>, n: nat, soFar: seq<byte>, input: seq<byte>, buf: seq<byte>)
    requires Balance(Serve(start), n, Serve(soFar + input))
    ensures AstrayBalance(start, n, soFar, input, buf, n, soFar + buf)
  {
  }

  lemma NothingServed()
    ensures Serve([]) == Session(0, false)
  {
  }

  lemma NothingReplayed(s: seq<byte>)
    requires !Complete(s, ROOM)
    ensures Replay(s) == Session(0, false)
  {
  }

  lemma StraightStep(start: seq<byte>, n: nat, r: Outcome, all: seq<byte>, rest: seq<byte>, m: int)
    requires Balance(Serve(start), n, Serve(all)) && Did(r, all, rest, m) && r != Overrun
    ensures r == Served ==> Balance(Serve(start), n + m, Serve(rest)) && |rest| < |all|
    ensures r != Served ==> IsSession(Serve(start), r, n + m)
  {
    hide Line, Asked, Complete, Serve;
    if r == Closed {
      NothingServed();
    } else {
      ServeStep(all, rest);
    }
  }

  lemma AstrayStep(start: seq<byte>, done: nat, soFar: seq<byte>, input: seq<byte>, buf: seq<byte>, n: nat,
                   r: Outcome, all: seq<byte>, rest: seq<byte>, m: int)
    requires AstrayBalance(start, done, soFar, input, buf, n, all) && Did(r, all, rest, m)
    requires r != Closed && (r != Overrun ==> Complete(all, ROOM))
    ensures r == Served ==> AstrayBalance(start, done, soFar, input, buf, n + m, rest) && |rest| < |all|
    ensures r != Served ==>
              IsSession(Replay(soFar + buf), r, n + m - done) && Balance(Serve(start), done, Serve(soFar + input))
  {
    hide Line, Asked, Complete, Replay, Serve;
    if r == Overrun {
      NothingReplayed(all);
    } else {
      ReplayStep(all, rest);
    }
  }

  /** A server that did what session s says and came out with r has written n bytes; less than s, if writing failed. */
  ghost predicate IsSession(s: Session, r: Outcome, n: int) {
    if r == Unwritten then 0 <= n < s.written else n == s.written && s.quit == (r == Refused)
  }

  /** The session `all` is `done` bytes, then what `more` says. */
  ghost predicate Balance(all: Session, done: int, more: Session) {
    all.written == done + more.written && all.quit == more.quit
  }

  lemma ServeStep(s: seq<byte>, rest: seq<byte>)
    requires s != [] && s == Line(s, ROOM) + rest
    ensures var n := Asked(Line(s, ROOM));
            if 1 <= n <= MAXN then Balance(Serve(s), n, Serve(rest)) else Serve(s) == Session(0, true)
    ensures |rest| < |s|
  {
    assert s[|Line(s, ROOM)|..] == rest;
  }

  lemma ReplayStep(s: seq<byte>, rest: seq<byte>)
    requires Complete(s, ROOM) && s == Line(s, ROOM) + rest
    ensures var n := Asked(Line(s, ROOM));
            if 1 <= n <= MAXN then Balance(Replay(s), n, Replay(rest)) else Replay(s) == Session(0, true)
    ensures |rest| < |s|
  {
    assert s[|Line(s, ROOM)|..] == rest;
  }

  /** atol looks no further than the terminator. */
  lemma AtolStops(s: seq<byte>, n: nat)
    requires n < |s| && s[n] == 0
    ensures Atol(s) == Atol(s[..n])
  {
    var k := SpaceStops(s, n);
    var t := s[k..];
    assert s[..n][k..] == t[..n - k];
    if k < n {
      DigitsStop(0, t, n - k);
      DigitsStop(0, t[1..], n - k - 1);
      assert t[..n - k][1..] == t[1..][..n - k - 1];
    }
  }

  lemma {:induction false} SpaceStops(s: seq<byte>, n: nat) returns (k: nat)
    requires n < |s| && s[n] == 0
    ensures k <= n && SkipSpace(s) == s[k..] && SkipSpace(s[..n]) == s[..n][k..]
    decreases n
  {
    if n == 0 || !IsSpace(s[0]) {
      k := 0;
    } else {
      k := SpaceStops(s[1..], n - 1);
      assert s[..n][1..] == s[1..][..n - 1];
      k := k + 1;
    }
  }

  lemma {:induction false} DigitsStop(acc: nat, s: seq<byte>, n: nat)
    requires n < |s| && s[n] == 0
    ensures Digits(acc, s) == Digits(acc, s[..n])
    decreases n
  {
    if n == 0 || !IsDigit(s[0]) {
    } else {
      DigitsStop(10 * acc + (s[0] - 48), s[1..], n - 1);
      assert s[..n][1..] == s[1..][..n - 1];
    }
  }

  // ----- client and server together

  /** What the client prints into its request buffer. */
  function Request(nbytes: int): seq<byte> {
    PrintLong(nbytes) + [NEWLINE]
  }

  lemma {:induction false} DecimalLength(n: nat, k: nat)
    requires n < Power10(k) && k > 0
    ensures |Decimal(n)| <= k
  {
    if n < 10 {
    } else {
      DecimalLength(n / 10, k - 1);
    }
  }

  function Power10(k: nat): nat {
    if k == 0 then 1 else 10 * Power10(k - 1)
  }

  lemma LongsAreShort(x: int)
    requires LONG_MIN <= x <= LONG_MAX
    ensures |Request(x)| <= ROOM
  {
    assert Power10(5) == 100000;
    assert Power10(10) == 100000 * Power10(5);
    assert Power10(15) == 100000 * Power10(10);
    assert Power10(20) == 100000 * Power10(15);
    DecimalLength(if x < 0 then -x else x, 20);
  }

  lemma FirstLineIsRequest(x: int, u: seq<byte>)
    requires LONG_MIN <= x <= LONG_MAX
    ensures Line(Request(x) + u, ROOM) == Request(x)
  {
    LongsAreShort(x);
    var r := Request(x);
    assert forall i :: 0 <= i < |r| - 1 ==> r[i] == PrintLong(x)[i];
    LineIsUnique(r + u, ROOM, r);
  }

  /** A request is answered with exactly the bytes it asks for if it asks for 1 to 16384 of them (as an int); any other
      ends the server. */
  lemma RequestIsServed(x: int, u: seq<byte>)
    requires LONG_MIN <= x <= LONG_MAX
    ensures if 1 <= ToInt(x) <= MAXN then Balance(Serve(Request(x) + u), ToInt(x), Serve(u))
            else Serve(Request(x) + u) == Session(0, true)
  {
    FirstLineIsRequest(x, u);
    AtolOfPrinted(x, [NEWLINE]);
    ServeStep(Request(x) + u, u);
  }

  /** A reader that goes astray between two lines answers a request at the front of its old buffer once more. */
  lemma OldRequestIsAnsweredAgain(x: nat, u: seq<byte>)
    requires 1 <= x <= MAXN
    ensures Replay(Request(x) + u).written == x + Replay(u).written
    ensures Serve(Request(x)) == Session(x, false)
  {
    FirstLineIsRequest(x, u);
    AtolOfPrinted(x, [NEWLINE]);
    ReplayStep(Request(x) + u, u);
    assert Request(x) + [] == Request(x);
    RequestIsServed(x, []);
  }

  function Requests(xs: seq<nat>): seq<byte> {
    if xs == [] then [] else Request(xs[0]) + Requests(xs[1..])
  }

  function Itself(n: nat): nat {
    n
  }

  /** Any number of valid requests down one connection, however they arrive in pieces: all are answered in full. */
  lemma {:induction false} AllRequestsAreServed(xs: seq<nat>)
    requires forall i :: 0 <= i < |xs| ==> 1 <= xs[i] <= MAXN
    ensures Serve(Requests(xs)).written == Sum(Itself, xs) && !Serve(Requests(xs)).quit
  {
    if xs == [] {
    } else {
      RequestIsServed(xs[0], Requests(xs[1..]));
      assert ToInt(xs[0]) == xs[0];
      AllRequestsAreServed(xs[1..]);
    }
  }

  /** The client gets exactly the bytes it asked for if and only if it asked for 1 to 16384: a larger number whose int value
      falls in the range is answered, but with fewer bytes. */
  lemma AskedIsGivenExactlyInRange(x: int)
    requires LONG_MIN <= x <= LONG_MAX
    ensures Serve(Request(x)).written == x && !Serve(Request(x)).quit <==> 1 <= x <= 16384
    ensures x >= 0 && !Serve(Request(x)).quit ==> Serve(Request(x)).written <= x
  {
    assert Request(x) + [] == Request(x);
    RequestIsServed(x, []);
  }

  /** One turn of the client's loop against a child of the server: send the request, read the reply. */
  method Exchange(reader: LineReader, nbytes: int, reply: array<byte>, result: seq<byte>) returns (n: int, gone: bool)
    requires reader.Valid() && reader.readCnt == 0
    requires 0 <= nbytes <= reply.Length && nbytes <= LONG_MAX && |result| == MAXN && reply != reader.readBuf
    modifies reader, reader.readBuf, reply
    ensures reader.Valid()
    ensures 1 <= nbytes <= MAXN <==> n == nbytes && !gone
    ensures !gone ==> reader.readCnt == 0
  {
    hide Serve, Line, Request;
    var server := new Sock(Request(nbytes), 0, false);
    assert reader.Rest(server) == Request(nbytes);
    AskedIsGivenExactlyInRange(nbytes);
    var r, _, _ := WebChild(server, reader, result);
    gone := r != Closed;
    var client := new Sock(server.output, 0, false);
    n := Readn(client, reply, nbytes);
  }
}
