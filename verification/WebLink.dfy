/** server/client/main.cpp against server/web_clild.cpp: one connection, in every interleaving of client and server and for
    every way the bytes are cut on their way. */
module WebLink {
  import opened Bytes
  import opened Readline
  import opened WebChild

  const SIZE_T := 0x1_0000_0000_0000_0000

  /** Before Write; in Readn with some bytes received; or past it with its result, the connection closed. */
  datatype Client = Asking | Reading(got: nat) | Finished(n: nat)

  /** Collecting a line, with the bytes read since the last one; in Writen; or past the request loop. */
  datatype Server = Gathering(buf: seq<byte>) | Replying(left: nat, buf: seq<byte>) | Gone(quit: bool)

  /** `x`: nbytes of the client. `up`: bytes on their way to the server; `down`: how many are on their way back. */
  datatype State = State(x: int, client: Client, up: seq<byte>, server: Server, down: nat)

  datatype Event =
    | Send
    | ClientRead(n: nat)
    | ClientEof
    | ServerRead(n: nat)
    | Parse
    | ServerWrite(n: nat)
    | ServerEof

  /** The byte count of Readn: a long passed as a size_t. */
  function Want(x: int): nat {
    x % SIZE_T
  }

  predicate InRange(n: int) {
    1 <= n <= MAXN
  }

  /** The server after readline has returned line l of buf. */
  function Answer(buf: seq<byte>, l: seq<byte>): Server
    requires |l| <= |buf|
  {
    if InRange(Asked(l)) then Replying(Asked(l), buf[|l|..]) else Gone(true)
  }

  predicate Enabled(s: State, e: Event) {
    match e
    case Send => s.client.Asking?
    case ClientRead(n) => s.client.Reading? && 0 < n <= s.down && n <= Want(s.x) - s.client.got
    case ClientEof => s.client.Reading? && s.down == 0 && s.server.Gone?
    case ServerRead(n) => s.server.Gathering? && !Complete(s.server.buf, ROOM) && 0 < n <= |s.up| && n <= MAXLINE
    case Parse => s.server.Gathering? && Complete(s.server.buf, ROOM)
    case ServerWrite(n) => s.server.Replying? && 0 < n <= s.server.left
    case ServerEof => s.server.Gathering? && !Complete(s.server.buf, ROOM) && s.up == [] && s.client.Finished?
  }

  function Apply(s: State, e: Event): State
    requires Enabled(s, e)
  {
    match e
    case Send => s.(up := Request(s.x), client := if Want(s.x) == 0 then Finished(0) else Reading(0))
    case ClientRead(n) =>
      var got := s.client.got + n;
      s.(down := s.down - n, client := if got == Want(s.x) then Finished(got) else Reading(got))
    case ClientEof => s.(client := Finished(s.client.got))
    case ServerRead(n) => s.(up := s.up[n..], server := Gathering(s.server.buf + s.up[..n]))
    case Parse => s.(server := Answer(s.server.buf, Line(s.server.buf, ROOM)))
    case ServerWrite(n) =>
      var left := s.server.left - n;
      s.(down := s.down + n, server := if left == 0 then Gathering(s.server.buf) else Replying(left, s.server.buf))
    case ServerEof => s.(server := if s.server.buf == [] then Gone(false) else Answer(s.server.buf, s.server.buf))
  }

  ghost predicate StepAt(ss: seq<State>, es: seq<Event>, k: int)
    requires 0 <= k < |es| && |ss| == |es| + 1
  {
    Enabled(ss[k], es[k]) && ss[k + 1] == Apply(ss[k], es[k])
  }

  ghost predicate IsRun(x: int, ss: seq<State>, es: seq<Event>) {
    && |ss| == |es| + 1 && LONG_MIN <= x <= LONG_MAX
    && ss[0] == State(x, Asking, [], Gathering([]), 0)
    && forall k :: 0 <= k < |es| ==> StepAt(ss, es, k)
  }

  // ----- the invariant

  function Got(c: Client): nat {
    match c
    case Asking => 0
    case Reading(got) => got
    case Finished(n) => n
  }

  /** The client in Readn, or done with all it wanted. */
  predicate Receiving(s: State) {
    !s.client.Asking? && Got(s.client) <= Want(s.x) && (s.client.Finished? <==> Got(s.client) == Want(s.x))
  }

  /** Nothing sent; the request on its way; the reply on its way, or all written; the server gone. */
  ghost predicate Inv(s: State) {
    var n := ToInt(s.x);
    || (s.client.Asking? && s.up == [] && s.server == Gathering([]) && s.down == 0)
    || (&& s.server.Gathering? && s.server.buf + s.up == Request(s.x) && s.down == 0
        && Receiving(s) && Got(s.client) == 0)
    || (&& !s.server.Gone? && s.server.buf == [] && s.up == [] && InRange(n) && Receiving(s)
        && (s.server.Replying? ==> s.server.left > 0)
        && Got(s.client) + s.down + (if s.server.Replying? then s.server.left else 0) == n)
    || (s.server == Gone(false) && s.up == [] && InRange(n) && Want(s.x) == n && s.client == Finished(n) && s.down == 0)
    || (s.server == Gone(true) && s.up == [] && !InRange(n) && !s.client.Asking? && Got(s.client) == 0 && s.down == 0)
  }

  /** The request is a line, and part of it is none yet. */
  lemma WholeRequest(x: int)
    requires LONG_MIN <= x <= LONG_MAX
    ensures Request(x) != [] && Line(Request(x), ROOM) == Request(x) && Complete(Request(x), ROOM)
    ensures Asked(Request(x)) == ToInt(x)
  {
    AtolOfPrinted(x, [NEWLINE]);
    assert Request(x) == Request(x) + [];
    FirstLineIsRequest(x, []);
  }

  lemma PartOfRequest(x: int, buf: seq<byte>, up: seq<byte>)
    requires LONG_MIN <= x <= LONG_MAX && buf + up == Request(x) && up != []
    ensures !Complete(buf, ROOM)
  {
    LongsAreShort(x);
    var p := PrintLong(x);
    assert forall i :: 0 <= i < |buf| ==> buf[i] == (buf + up)[i] == p[i];
    assert forall i :: 0 <= i < |p| ==> p[i] != NEWLINE;
    LineIsUnique(buf, ROOM, buf);
  }

  lemma RequestInPieces(x: int, buf: seq<byte>, up: seq<byte>)
    requires LONG_MIN <= x <= LONG_MAX && buf + up == Request(x)
    ensures Complete(buf, ROOM) <==> up == []
    ensures up == [] ==> buf == Request(x)
  {
    if up == [] {
      assert buf + [] == buf;
      WholeRequest(x);
    } else {
      PartOfRequest(x, buf, up);
    }
  }

  /** The server is never asked for more than the client waits for. */
  lemma NoMoreThanWanted(x: int)
    requires LONG_MIN <= x <= LONG_MAX && InRange(ToInt(x))
    ensures ToInt(x) <= Want(x) && (ToInt(x) == Want(x) <==> InRange(x))
  {
  }

  lemma ClientStep(s: State, e: Event)
    requires LONG_MIN <= s.x <= LONG_MAX && Inv(s) && Enabled(s, e) && (e.Send? || e.ClientRead? || e.ClientEof?)
    ensures Inv(Apply(s, e))
  {
    if e.Send? {
      assert [] + Request(s.x) == Request(s.x);
    } else if InRange(ToInt(s.x)) {
      NoMoreThanWanted(s.x);
    }
  }

  lemma ServerReadStep(s: State, e: Event)
    requires LONG_MIN <= s.x <= LONG_MAX && Inv(s) && Enabled(s, e) && e.ServerRead?
    ensures Inv(Apply(s, e))
  {
    var buf, up := s.server.buf, s.up;
    assert (buf + up[..e.n]) + up[e.n..] == buf + up;
  }

  lemma ParseStep(s: State)
    requires LONG_MIN <= s.x <= LONG_MAX && Inv(s) && Enabled(s, Parse)
    ensures Inv(Apply(s, Parse))
  {
    WholeRequest(s.x);
    if s.server.buf != [] {
      RequestInPieces(s.x, s.server.buf, s.up);
      if InRange(ToInt(s.x)) {
        NoMoreThanWanted(s.x);
      }
    }
  }

  lemma ServerEofStep(s: State)
    requires LONG_MIN <= s.x <= LONG_MAX && Inv(s) && Enabled(s, ServerEof)
    ensures Inv(Apply(s, ServerEof))
  {
    if s.server.buf + s.up == Request(s.x) {
      RequestInPieces(s.x, s.server.buf, s.up);
      WholeRequest(s.x);
    }
  }

  lemma InvStep(s: State, e: Event)
    requires LONG_MIN <= s.x <= LONG_MAX && Inv(s) && Enabled(s, e)
    ensures Inv(Apply(s, e)) && Apply(s, e).x == s.x
  {
    match e
    case Send => ClientStep(s, e);
    case ClientRead(_) => ClientStep(s, e);
    case ClientEof => ClientStep(s, e);
    case ServerRead(_) => ServerReadStep(s, e);
    case Parse => ParseStep(s);
    case ServerWrite(_) =>
    case ServerEof => ServerEofStep(s);
  }

  lemma {:induction false} InvAlong(x: int, ss: seq<State>, es: seq<Event>, k: nat)
    requires IsRun(x, ss, es) && k < |ss|
    ensures Inv(ss[k]) && ss[k].x == x
  {
    if k == 0 {
    } else {
      InvAlong(x, ss, es, k - 1);
      assert StepAt(ss, es, k - 1);
      InvStep(ss[k - 1], es[k - 1]);
    }
  }

  // ----- main results

  /** What Readn returns, in every interleaving: all of the bytes asked for if they are 1 to 16384, otherwise none; the server
      comes to a regular end of file only when they have arrived, and the client's reply buffer is never overrun. */
  lemma AllOrNothing(x: int, ss: seq<State>, es: seq<Event>, k: nat)
    requires IsRun(x, ss, es) && k < |ss|
    ensures var s := ss[k];
            && (s.client.Finished? ==> s.client.n == if 1 <= x <= 16384 then x else 0)
            && (s.server == Gone(false) ==> 1 <= x <= 16384 && s.client == Finished(x))
            && (s.server == Gone(true) ==> !(1 <= ToInt(x) <= 16384) && Got(s.client) == 0)
            && Got(s.client) <= 16384
  {
    InvAlong(x, ss, es, k);
    if InRange(ToInt(x)) {
      NoMoreThanWanted(x);
    }
  }

  /** Nothing can happen any more. */
  ghost predicate AtRest(s: State) {
    forall e :: !Enabled(s, e)
  }

  /** Every exchange ends in the same state, however client and server interleave and however their reads and writes are
      cut: with the bytes asked for and a closed connection; or with nothing and the server gone; or, when only the int
      value of the number is in range, with client and server waiting for each other for ever. */
  lemma EveryExchangeEndsAlike(x: int, ss: seq<State>, es: seq<Event>, k: nat)
    requires IsRun(x, ss, es) && k < |ss| && AtRest(ss[k])
    ensures ss[k] ==
            if 1 <= x <= 16384 then State(x, Finished(x), [], Gone(false), 0)
            else if 1 <= ToInt(x) <= 16384 then State(x, Reading(ToInt(x)), [], Gathering([]), 0)
            else State(x, Finished(0), [], Gone(true), 0)
  {
    InvAlong(x, ss, es, k);
    var s := ss[k];
    assert !Enabled(s, Send) && !Enabled(s, ClientRead(1)) && !Enabled(s, ClientEof);
    assert !Enabled(s, ServerRead(1)) && !Enabled(s, Parse) && !Enabled(s, ServerWrite(1)) && !Enabled(s, ServerEof);
    if InRange(ToInt(x)) {
      NoMoreThanWanted(x);
    }
    if s.server.Gathering? && s.server.buf + s.up == Request(x) {
      RequestInPieces(x, s.server.buf, s.up);
    }
  }

  // ----- termination

  function WorkOfServer(s: State): nat {
    match s.server
    case Gathering(buf) => if buf == [] && s.up == [] then 1 else 2 * MAXN + 3
    case Replying(left, _) => 2 * left + 2
    case Gone(_) => 0
  }

  function WorkOfClient(s: State): nat {
    match s.client
    case Asking => |Request(s.x)| + 2 * MAXN + 4
    case Reading(_) => 1
    case Finished(_) => 0
  }

  function WorkLeft(s: State): nat {
    WorkOfClient(s) + |s.up| + WorkOfServer(s) + s.down
  }

  lemma StepUsesUpWork(s: State, e: Event)
    requires LONG_MIN <= s.x <= LONG_MAX && Inv(s) && Enabled(s, e)
    ensures WorkLeft(Apply(s, e)) < WorkLeft(s)
  {
    if e.Parse? || e.ServerEof? {
      WholeRequest(s.x);
      if s.server.buf + s.up == Request(s.x) {
        RequestInPieces(s.x, s.server.buf, s.up);
      }
    }
  }

  /** And every exchange does come to an end: no run makes more steps than this. */
  lemma {:induction false} ExchangesAreFinite(x: int, ss: seq<State>, es: seq<Event>, k: nat)
    requires IsRun(x, ss, es) && k < |ss|
    ensures k + WorkLeft(ss[k]) <= |Request(x)| + 2 * MAXN + 5
  {
    hide Inv, Request;
    if k == 0 {
    } else {
      ExchangesAreFinite(x, ss, es, k - 1);
      InvAlong(x, ss, es, k - 1);
      assert StepAt(ss, es, k - 1);
      StepUsesUpWork(ss[k - 1], es[k - 1]);
    }
  }
}
