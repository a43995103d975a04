/** The copier, a TCP connection and the echo server (str_echo.cpp with writen.cpp), in every interleaving. */
module EchoLink {
  import opened Bytes
  import opened StrCli

  /** Where the client stands in its loop. */
  datatype Pc = Selecting | AtStdin | AtSocket | AtStdout | AtSockout | Returned | Quit

  /** Inside writen with some bytes left, in read, or gone after end of file. */
  datatype Server = Reading | Writing(rest: seq<byte>) | Closed

  /** `input`: bytes read from stdin so far; `printed`: bytes written to stdout so far (histories). `up`, `down`: bytes in
      the two directions of the connection. */
  datatype State = State(c: Client, pc: Pc, up: seq<byte>, down: seq<byte>, server: Server,
                         input: seq<byte>, printed: seq<byte>)

  const START := State(FRESH, Selecting, [], [], Reading, [], [])

  datatype Event =
    | Select(ready: Fds)
    | ReadStdin(r: ReadResult)
    | ReadSocket(r: ReadResult)
    | WriteStdout(w: WriteResult)
    | WriteSocket(w: WriteResult)
    | ServerRead(n: nat)
    | ServerWrite(n: nat)
    | ServerEof

  /** The client has sent its FIN. */
  predicate Fin(s: State) {
    s.c.shutdowns > 0
  }

  predicate Within(f: Fds, g: Fds) {
    (f.rStdin ==> g.rStdin) && (f.rSock ==> g.rSock) && (f.wStdout ==> g.wStdout) && (f.wSock ==> g.wSock)
  }

  const NO_FDS := Fds(false, false, false, false)

  /** Reads and writes may be short and may block; a read of the socket finds the end of file only after all data. */
  predicate Enabled(s: State, e: Event) {
    match e
    case Select(ready) => s.pc == Selecting && Within(ready, Asked(s.c)) && ready != NO_FDS
    case ReadStdin(r) => s.pc == AtStdin && (s.c.fds.rStdin ==> ReadFits(s.c.to, r))
    case ReadSocket(r) =>
      && s.pc == AtSocket
      && (s.c.fds.rSock ==>
            && ReadFits(s.c.fr, r)
            && (r.Data? ==> r.bytes <= s.down)
            && (r.Eof? ==> s.down == [] && s.server.Closed?))
    case WriteStdout(w) => s.pc == AtStdout && WriteFits(s.c.fr, w)
    case WriteSocket(w) => s.pc == AtSockout && WriteFits(s.c.to, w)
    case ServerRead(n) => s.server.Reading? && 0 < n <= MAXLINE && n <= |s.up|
    case ServerWrite(n) => s.server.Writing? && 0 < n <= |s.server.rest|
    case ServerEof => s.server.Reading? && s.up == [] && Fin(s)
  }

  /** Whether the step hands bytes to, or takes bytes from, a descriptor. */
  predicate Moves(s: State, e: Event) {
    match e
    case Select(_) => false
    case ReadStdin(r) => s.c.fds.rStdin && r.Data?
    case ReadSocket(r) => s.c.fds.rSock && r.Data?
    case WriteStdout(w) => s.c.fds.wStdout && s.c.fr.bytes != [] && w.Wrote?
    case WriteSocket(w) => s.c.fds.wSock && s.c.to.bytes != [] && w.Wrote?
    case ServerRead(_) => true
    case ServerWrite(_) => true
    case ServerEof => true
  }

  function Apply(s: State, e: Event): State
    requires Enabled(s, e)
  {
    match e
    case Select(ready) => s.(c := s.c.(fds := ready), pc := AtStdin)
    case ReadStdin(r) =>
      s.(c := OnStdin(s.c, r), pc := AtSocket, input := if Moves(s, e) then s.input + r.bytes else s.input)
    case ReadSocket(r) =>
      var pc := if s.c.fds.rSock && r.Eof? then (if s.c.stdineof then Returned else Quit) else AtStdout;
      s.(c := OnSocket(s.c, r), pc := pc, down := if Moves(s, e) then s.down[|r.bytes|..] else s.down)
    case WriteStdout(w) =>
      s.(c := OnStdout(s.c, w), pc := AtSockout,
         printed := if Moves(s, e) then s.printed + s.c.fr.bytes[..w.n] else s.printed)
    case WriteSocket(w) =>
      s.(c := OnSockout(s.c, w), pc := Selecting, up := if Moves(s, e) then s.up + s.c.to.bytes[..w.n] else s.up)
    case ServerRead(n) => s.(up := s.up[n..], server := Writing(s.up[..n]))
    case ServerWrite(n) =>
      var rest := s.server.rest;
      s.(down := s.down + rest[..n], server := if n == |rest| then Reading else Writing(rest[n..]))
    case ServerEof => s.(server := Closed)
  }

  ghost predicate StepAt(ss: seq<State>, es: seq<Event>, k: int)
    requires 0 <= k < |es| && |ss| == |es| + 1
  {
    Enabled(ss[k], es[k]) && ss[k + 1] == Apply(ss[k], es[k])
  }

  ghost predicate IsRun(ss: seq<State>, es: seq<Event>) {
    && |ss| == |es| + 1
    && ss[0] == START
    && forall k :: 0 <= k < |es| ==> StepAt(ss, es, k)
  }

  // ----- the invariant

  function InServer(v: Server): seq<byte> {
    if v.Writing? then v.rest else []
  }

  /** Everything between stdin and stdout, oldest byte first. */
  function Pipeline(s: State): seq<byte> {
    s.printed + (s.c.fr.bytes + (s.down + (InServer(s.server) + (s.up + s.c.to.bytes))))
  }

  predicate BufOk(b: Buf) {
    b.In() <= MAXLINE && (b.bytes == [] ==> b.off == 0)
  }

  predicate ControlOk(s: State) {
    && BufOk(s.c.to) && BufOk(s.c.fr)
    && s.c.shutdowns == (if s.c.stdineof && s.c.to.bytes == [] then 1 else 0)
    && (s.server.Writing? ==> s.server.rest != [])
    && (s.server.Closed? ==> Fin(s) && s.up == [])
    && (s.pc == AtStdin && s.c.fds.rStdin ==> !s.c.stdineof && s.c.to.Room() > 0)
    && (s.pc in {AtStdin, AtSocket} && s.c.fds.rSock ==> s.c.fr.Room() > 0)
    && (s.pc == Returned ==> s.down == [] && s.server.Closed?)
    && s.pc != Quit
  }

  predicate Inv(s: State) {
    s.input == Pipeline(s) && ControlOk(s)
  }

  lemma ControlStep(s: State, e: Event)
    requires ControlOk(s) && Enabled(s, e)
    ensures ControlOk(Apply(s, e))
  {
  }

  /** Moving the front x of one stage to the end of the stage before it. */
  lemma Shift(a: seq<byte>, x: seq<byte>, b: seq<byte>, z: seq<byte>)
    ensures (a + x) + (b + z) == a + ((x + b) + z)
  {
  }

  lemma Snoc(a: seq<byte>, b: seq<byte>, x: seq<byte>)
    ensures a + (b + x) == (a + b) + x
  {
  }

  lemma StdinKeepsPipeline(s: State, r: ReadResult)
    requires Enabled(s, ReadStdin(r)) && Moves(s, ReadStdin(r))
    ensures Pipeline(Apply(s, ReadStdin(r))) == Pipeline(s) + r.bytes
  {
    var x, t, u, v, d, f := r.bytes, s.c.to.bytes, s.up, InServer(s.server), s.down, s.c.fr.bytes;
    Snoc(u, t, x);
    Snoc(v, u + t, x);
    Snoc(d, v + (u + t), x);
    Snoc(f, d + (v + (u + t)), x);
    Snoc(s.printed, f + (d + (v + (u + t))), x);
  }

  lemma ClientKeepsPipeline(s: State, e: Event)
    requires Enabled(s, e) && Moves(s, e) && (e.ReadSocket? || e.WriteStdout? || e.WriteSocket?)
    ensures Pipeline(Apply(s, e)) == Pipeline(s)
  {
    var toServer := InServer(s.server) + (s.up + s.c.to.bytes);
    match e
    case ReadSocket(r) =>
      var rest := s.down[|r.bytes|..];
      assert s.down == r.bytes + rest;
      Shift(s.c.fr.bytes, r.bytes, rest, toServer);
    case WriteStdout(w) =>
      var x, rest := s.c.fr.bytes[..w.n], s.c.fr.Pop(w.n).bytes;
      assert s.c.fr.bytes == x + rest;
      Shift(s.printed, x, rest, s.down + toServer);
    case WriteSocket(w) =>
      var x, rest := s.c.to.bytes[..w.n], s.c.to.Pop(w.n).bytes;
      assert s.c.to.bytes == x + rest;
      Snoc(s.up, x, rest);
  }

  lemma ServerKeepsPipeline(s: State, e: Event)
    requires Enabled(s, e) && (e.ServerRead? || e.ServerWrite? || e.ServerEof?)
    ensures Pipeline(Apply(s, e)) == Pipeline(s)
  {
    match e
    case ServerRead(n) =>
      assert s.up == s.up[..n] + s.up[n..];
      Snoc(s.up[..n], s.up[n..], s.c.to.bytes);
      assert [] + (s.up + s.c.to.bytes) == s.up + s.c.to.bytes;
    case ServerWrite(n) =>
      var x, rest := s.server.rest[..n], s.server.rest[n..];
      assert s.server.rest == x + rest;
      Shift(s.down, x, rest, s.up + s.c.to.bytes);
      assert n == |s.server.rest| ==> rest == [];
    case ServerEof =>
  }

  lemma InvStep(s: State, e: Event)
    requires Inv(s) && Enabled(s, e)
    ensures Inv(Apply(s, e))
  {
    ControlStep(s, e);
    if e.ReadStdin? && Moves(s, e) {
      StdinKeepsPipeline(s, e.r);
    } else if e.ServerRead? || e.ServerWrite? || e.ServerEof? {
      ServerKeepsPipeline(s, e);
    } else if Moves(s, e) {
      ClientKeepsPipeline(s, e);
    }
  }

  lemma {:induction false} InvAlong(ss: seq<State>, es: seq<Event>, k: nat)
    requires IsRun(ss, es) && k < |ss|
    ensures Inv(ss[k])
  {
    if k == 0 {
    } else {
      InvAlong(ss, es, k - 1);
      assert StepAt(ss, es, k - 1);
      InvStep(ss[k - 1], es[k - 1]);
    }
  }

  // ----- main results

  /** Conservation, in every interleaving and for all short reads and writes: what stdin gave is what was printed followed
      by what is in the fr buffer, on the way back, in the server, on the way there and in the to buffer, in this order. */
  lemma NothingLostOrReordered(ss: seq<State>, es: seq<Event>, k: nat)
    requires IsRun(ss, es) && k < |ss|
    ensures ss[k].input == Pipeline(ss[k])
  {
    InvAlong(ss, es, k);
  }

  /** str_cli returns only after the end of stdin, with everything echoed except what it still holds unprinted in fr; it never
      quits with "server terminated prematurely". */
  lemma AtReturnOnlyFrIsUnprinted(ss: seq<State>, es: seq<Event>, k: nat)
    requires IsRun(ss, es) && k < |ss|
    ensures ss[k].pc != Quit
    ensures ss[k].pc == Returned ==> ss[k].c.stdineof && ss[k].input == ss[k].printed + ss[k].c.fr.bytes
  {
    InvAlong(ss, es, k);
  }

  /** The half-close is sent once, and has been sent exactly when stdin is at its end and the to buffer is empty; nothing is
      written to the socket after it. */
  lemma HalfCloseExactlyOnce(ss: seq<State>, es: seq<Event>, k: nat)
    requires IsRun(ss, es) && k < |ss|
    ensures ss[k].c.shutdowns <= 1
    ensures Fin(ss[k]) <==> ss[k].c.stdineof && ss[k].c.to.bytes == []
    ensures k < |es| && es[k].WriteSocket? && Moves(ss[k], es[k]) ==> !Fin(ss[k])
  {
    InvAlong(ss, es, k);
  }

  /** No read is issued with an empty buffer, so a result of 0 is a true end of file; and select never waits on empty sets. */
  lemma ReadsHaveRoomAndSelectHasWork(ss: seq<State>, es: seq<Event>, k: nat)
    requires IsRun(ss, es) && k < |ss|
    ensures ss[k].pc == AtStdin && ss[k].c.fds.rStdin ==> ss[k].c.to.Room() > 0
    ensures ss[k].pc == AtSocket && ss[k].c.fds.rSock ==> ss[k].c.fr.Room() > 0
    ensures Asked(ss[k].c) != NO_FDS
  {
    InvAlong(ss, es, k);
  }

  // ----- when the output is complete

  /** The step offers bytes to stdout: all of the fr buffer. */
  predicate Offers(s: State, e: Event) {
    e.WriteStdout? && s.c.fds.wStdout && s.c.fr.bytes != []
  }

  function Taken(w: WriteResult): nat {
    if w.Wrote? then w.n else 0
  }

  predicate TakesAll(s: State, e: Event)
    requires Offers(s, e)
  {
    Taken(e.w) == |s.c.fr.bytes|
  }

  /** What stdout did not take of the last bytes offered to it in the first k steps; nothing if none were offered. */
  ghost function Refused(ss: seq<State>, es: seq<Event>, k: nat): seq<byte>
    requires IsRun(ss, es) && k < |ss|
  {
    if k == 0 then []
    else if Offers(ss[k - 1], es[k - 1]) then
      assert StepAt(ss, es, k - 1);
      ss[k - 1].c.fr.bytes[Taken(es[k - 1].w)..]
    else Refused(ss, es, k - 1)
  }

  /** The fr buffer holds what was refused, but for bytes just read from the socket that are offered next. */
  lemma {:induction false} FrIsWhatWasRefused(ss: seq<State>, es: seq<Event>, k: nat)
    requires IsRun(ss, es) && k < |ss|
    ensures var s := ss[k];
            (s.pc == AtStdout && s.c.fds.wStdout && s.c.fr.bytes != []) || s.c.fr.bytes == Refused(ss, es, k)
  {
    if k == 0 {
    } else {
      FrIsWhatWasRefused(ss, es, k - 1);
      assert StepAt(ss, es, k - 1);
    }
  }

  /** str_cli returns with exactly the bytes unprinted that stdout refused when it was last offered some: the output is
      complete if and only if that write took everything. */
  lemma OutputIsCompleteExactlyWhenTaken(ss: seq<State>, es: seq<Event>, k: nat)
    requires IsRun(ss, es) && k < |ss| && ss[k].pc == Returned
    ensures ss[k].input == ss[k].printed + Refused(ss, es, k)
    ensures ss[k].printed == ss[k].input <==> Refused(ss, es, k) == []
  {
    AtReturnOnlyFrIsUnprinted(ss, es, k);
    FrIsWhatWasRefused(ss, es, k);
  }

  /** So a stdout that takes whatever it is offered gets all of the input before the copier returns. */
  lemma WillingStdoutGetsEverything(ss: seq<State>, es: seq<Event>, k: nat)
    requires IsRun(ss, es) && k < |ss| && ss[k].pc == Returned
    requires forall i :: 0 <= i < k && Offers(ss[i], es[i]) ==> TakesAll(ss[i], es[i])
    ensures ss[k].printed == ss[k].input
  {
    NothingRefused(ss, es, k);
    OutputIsCompleteExactlyWhenTaken(ss, es, k);
  }

  lemma {:induction false} NothingRefused(ss: seq<State>, es: seq<Event>, k: nat)
    requires IsRun(ss, es) && k < |ss|
    requires forall i :: 0 <= i < k && Offers(ss[i], es[i]) ==> TakesAll(ss[i], es[i])
    ensures Refused(ss, es, k) == []
  {
    if k == 0 {
    } else {
      NothingRefused(ss, es, k - 1);
    }
  }

  /** And a refusal does happen: a run that reads one byte from stdin, returns, and has printed nothing. */
  lemma LastBytesMayStayUnprinted() returns (ss: seq<State>, es: seq<Event>)
    ensures IsRun(ss, es) && ss[|es|].pc == Returned
    ensures ss[|es|].input == [1] && ss[|es|].printed == [] && ss[|es|].c.fr.bytes == [1]
  {
    ss, es := EchoReadBack();
    ss, es := Extend(ss, es, ServerEof);
    ss, es := Extend(ss, es, Select(Fds(false, true, false, false)));
    ss, es := Extend(ss, es, ReadStdin(Blocked));
    ss, es := Extend(ss, es, ReadSocket(Eof));
  }

  /** One byte on its way, the client in select again. */
  const SENT := State(Client(Buf(0, []), Buf(0, []), false, 0, Fds(true, false, false, true)),
                      Selecting, [], [1], Reading, [1], [])

  lemma OneByteEchoed() returns (ss: seq<State>, es: seq<Event>)
    ensures IsRun(ss, es) && ss[|es|] == SENT
  {
    ss, es := [START], [];
    ss, es := Extend(ss, es, Select(Fds(true, false, false, false)));
    ss, es := Extend(ss, es, ReadStdin(Data([1])));
    ss, es := Extend(ss, es, ReadSocket(Blocked));
    ss, es := Extend(ss, es, WriteStdout(NotNow));
    ss, es := Extend(ss, es, WriteSocket(Wrote(1)));
    ss, es := Extend(ss, es, ServerRead(1));
    ss, es := Extend(ss, es, ServerWrite(1));
  }

  /** The byte read back, but not yet printed, after the end of stdin. */
  lemma EchoReadBack() returns (ss: seq<State>, es: seq<Event>)
    ensures IsRun(ss, es)
    ensures ss[|es|] == SENT.(c := Client(Buf(0, []), Buf(0, [1]), true, 1, Fds(true, true, true, false)), down := [])
  {
    ss, es := OneByteEchoed();
    ss, es := Extend(ss, es, Select(Fds(true, true, false, false)));
    ss, es := Extend(ss, es, ReadStdin(Eof));
    ss, es := Extend(ss, es, ReadSocket(Data([1])));
    ss, es := Extend(ss, es, WriteStdout(NotNow));
    ss, es := Extend(ss, es, WriteSocket(NotNow));
  }

  lemma Extend(ss: seq<State>, es: seq<Event>, e: Event) returns (ss': seq<State>, es': seq<Event>)
    requires IsRun(ss, es) && Enabled(ss[|es|], e)
    ensures IsRun(ss', es') && |es'| == |es| + 1 && ss'[|es'|] == Apply(ss[|es|], e)
    ensures ss <= ss' && es' == es + [e]
  {
    ss', es' := ss + [Apply(ss[|es|], e)], es + [e];
    forall k | 0 <= k < |es'| ensures StepAt(ss', es', k) {
      if k < |es| {
        assert StepAt(ss, es, k);
      }
    }
  }

  // ----- what select is asked about, and when

  /** A read of stdin has found its end in the first k steps. */
  ghost predicate StdinEnded(ss: seq<State>, es: seq<Event>, k: nat)
    requires k <= |es| < |ss|
  {
    exists i :: 0 <= i < k && es[i] == ReadStdin(Eof) && ss[i].c.fds.rStdin
  }

  /** Bytes read from stdin since the to buffer was last empty, written on or not. */
  ghost function FromStdin(ss: seq<State>, es: seq<Event>, k: nat): nat
    requires k <= |es| < |ss|
  {
    if k == 0 then 0
    else
      var s, e, n := ss[k - 1], es[k - 1], FromStdin(ss, es, k - 1);
      if e.ReadStdin? && Moves(s, e) then n + |e.r.bytes|
      else if e.WriteSocket? && Moves(s, e) && e.w.n == |s.c.to.bytes| then 0
      else n
  }

  /** Bytes read from the socket since the fr buffer was last empty, printed or not. */
  ghost function FromSocket(ss: seq<State>, es: seq<Event>, k: nat): nat
    requires k <= |es| < |ss|
  {
    if k == 0 then 0
    else
      var s, e, n := ss[k - 1], es[k - 1], FromSocket(ss, es, k - 1);
      if e.ReadSocket? && Moves(s, e) then n + |e.r.bytes|
      else if e.WriteStdout? && Moves(s, e) && e.w.n == |s.c.fr.bytes| then 0
      else n
  }

  lemma EndedStep(ss: seq<State>, es: seq<Event>, k: nat)
    requires k < |es| < |ss|
    ensures StdinEnded(ss, es, k + 1) <==> StdinEnded(ss, es, k) || (es[k] == ReadStdin(Eof) && ss[k].c.fds.rStdin)
  {
  }

  lemma {:induction false} EndedAlong(ss: seq<State>, es: seq<Event>, k: nat)
    requires IsRun(ss, es) && k < |ss|
    ensures ss[k].c.stdineof <==> StdinEnded(ss, es, k)
  {
    if k == 0 {
    } else {
      hide StdinEnded;
      EndedAlong(ss, es, k - 1);
      assert StepAt(ss, es, k - 1);
      EndedStep(ss, es, k - 1);
    }
  }

  lemma {:induction false} ToAlong(ss: seq<State>, es: seq<Event>, k: nat)
    requires IsRun(ss, es) && k < |ss|
    ensures ss[k].c.to.In() == FromStdin(ss, es, k)
  {
    if k == 0 {
    } else {
      ToAlong(ss, es, k - 1);
      assert StepAt(ss, es, k - 1);
    }
  }

  lemma {:induction false} FrAlong(ss: seq<State>, es: seq<Event>, k: nat)
    requires IsRun(ss, es) && k < |ss|
    ensures ss[k].c.fr.In() == FromSocket(ss, es, k)
  {
    if k == 0 {
    } else {
      FrAlong(ss, es, k - 1);
      assert StepAt(ss, es, k - 1);
    }
  }

  /** In every run select may report stdin exactly while it has not ended and fewer than 4096 bytes were read from it since the
      to buffer was last empty, however many of those are written; the socket likewise for reading, whether or not stdin
      has ended; and stdout and the socket for writing exactly while bytes for them are held. */
  lemma AskedExactly(ss: seq<State>, es: seq<Event>, k: nat)
    requires IsRun(ss, es) && k < |ss| && ss[k].pc == Selecting
    ensures (exists f :: Enabled(ss[k], Select(f)) && f.rStdin) <==> !StdinEnded(ss, es, k) && FromStdin(ss, es, k) < 4096
    ensures (exists f :: Enabled(ss[k], Select(f)) && f.rSock) <==> FromSocket(ss, es, k) < 4096
    ensures (exists f :: Enabled(ss[k], Select(f)) && f.wStdout) <==> ss[k].c.fr.bytes != []
    ensures (exists f :: Enabled(ss[k], Select(f)) && f.wSock) <==> ss[k].c.to.bytes != []
  {
    EndedAlong(ss, es, k);
    ToAlong(ss, es, k);
    FrAlong(ss, es, k);
    var s, a := ss[k], Asked(ss[k].c);
    assert a.rStdin ==> Enabled(s, Select(NO_FDS.(rStdin := true)));
    assert a.rSock ==> Enabled(s, Select(NO_FDS.(rSock := true)));
    assert a.wStdout ==> Enabled(s, Select(NO_FDS.(wStdout := true)));
    assert a.wSock ==> Enabled(s, Select(NO_FDS.(wSock := true)));
  }

  /** What has been read in a turn is offered in the same turn, without waiting for select: from stdin (step j) to the
      socket (step k), behind what the to buffer held before. */
  lemma {:induction false} ReadThenOffered(ss: seq<State>, es: seq<Event>, j: nat, k: nat)
    requires IsRun(ss, es) && j < k < |ss| && es[j].ReadStdin? && Moves(ss[j], es[j])
    requires forall i :: j < i < k ==> !es[i].WriteSocket?
    ensures ss[k].pc in {AtSocket, AtStdout, AtSockout, Returned, Quit}
    ensures ss[k].c.fds.wSock && ss[k].c.to.bytes == ss[j].c.to.bytes + es[j].r.bytes != []
  {
    assert StepAt(ss, es, k - 1);
    if j == k - 1 {
    } else {
      ReadThenOffered(ss, es, j, k - 1);
    }
  }

  // ----- progress

  /** Descriptors that are ready when stdin is exhausted, stdout takes data and the connection holds cap bytes each way. */
  predicate Ready(s: State, cap: nat, f: Fds) {
    && !f.rStdin
    && (f.rSock ==> s.down != [] || s.server.Closed?)
    && (f.wSock ==> |s.up| < cap)
  }

  predicate ServerCanMove(s: State, cap: nat) {
    || (Enabled(s, ServerRead(1)) && s.up != [])
    || (Enabled(s, ServerWrite(1)) && |s.down| < cap)
    || Enabled(s, ServerEof)
  }

  /** After the end of stdin the two sides never wait for each other, however small the connection's buffers: while the
      client is in select, some descriptor it asks about is ready, or the server can move. */
  lemma NeverStuck(ss: seq<State>, es: seq<Event>, k: nat, cap: nat) returns (f: Fds)
    requires IsRun(ss, es) && k < |ss| && cap > 0
    requires ss[k].pc == Selecting && ss[k].c.stdineof
    ensures ServerCanMove(ss[k], cap) || (Ready(ss[k], cap, f) && Enabled(ss[k], Select(f)))
  {
    InvAlong(ss, es, k);
    var s := ss[k];
    var a := Asked(s.c);
    f := Fds(false, a.rSock && (s.down != [] || s.server.Closed?), a.wStdout, a.wSock && |s.up| < cap);
  }

  /** Steps still to be made by the bytes under way, and by the end of file. */
  function WorkLeft(s: State): nat {
    |s.c.fr.bytes| + 2 * |s.down| + 3 * |InServer(s.server)| + 4 * |s.up| + 5 * |s.c.to.bytes|
    + (if s.server.Closed? then 0 else 1)
  }

  lemma MovesUseUpWork(s: State, e: Event)
    requires Inv(s) && Enabled(s, e) && s.c.stdineof
    ensures Moves(s, e) ==> WorkLeft(Apply(s, e)) < WorkLeft(s)
    ensures !Moves(s, e) ==> WorkLeft(Apply(s, e)) == WorkLeft(s)
    ensures Apply(s, e).c.stdineof
  {
  }

  function Transfers(ss: seq<State>, es: seq<Event>, j: nat, k: nat): nat
    requires j <= k <= |es| < |ss|
    decreases k - j
  {
    if j == k then 0 else Transfers(ss, es, j, k - 1) + (if Moves(ss[k - 1], es[k - 1]) then 1 else 0)
  }

  /** From the end of stdin on, at most WorkLeft transfers remain. */
  lemma {:induction false} TransfersAreBounded(ss: seq<State>, es: seq<Event>, j: nat, k: nat)
    requires IsRun(ss, es) && j <= k < |ss| && ss[j].c.stdineof
    ensures ss[k].c.stdineof && WorkLeft(ss[k]) + Transfers(ss, es, j, k) <= WorkLeft(ss[j])
    decreases k - j
  {
    if j == k {
    } else {
      TransfersAreBounded(ss, es, j, k - 1);
      InvAlong(ss, es, k - 1);
      assert StepAt(ss, es, k - 1);
      MovesUseUpWork(ss[k - 1], es[k - 1]);
    }
  }

  // ----- the exchange can always be brought to its end

  /** Select finds only what is ready, and what the step writes goes into a connection that holds cap bytes each way. */
  predicate Fits(s: State, e: Event, cap: nat) {
    match e
    case Select(ready) => Ready(s, cap, ready)
    case WriteSocket(w) => Moves(s, e) ==> |s.up| + w.n <= cap
    case ServerWrite(n) => |s.down| + n <= cap
    case _ => true
  }

  /** The second run continues the first one, after the end of stdin, over such a connection. */
  ghost predicate Continues(ss: seq<State>, es: seq<Event>, ss': seq<State>, es': seq<Event>, cap: nat) {
    && IsRun(ss, es) && IsRun(ss', es') && es <= es' && ss <= ss'
    && ss[|es|].c.stdineof && ss'[|es'|].c.stdineof && ss'[|es'|].input == ss[|es|].input
    && WorkLeft(ss'[|es'|]) <= WorkLeft(ss[|es|])
    && forall k :: |es| <= k < |es'| ==> Fits(ss'[k], es'[k], cap)
  }

  lemma ContinuesOn(ss: seq<State>, es: seq<Event>, ss1: seq<State>, es1: seq<Event>,
                    ss2: seq<State>, es2: seq<Event>, cap: nat)
    requires Continues(ss, es, ss1, es1, cap) && Continues(ss1, es1, ss2, es2, cap)
    ensures Continues(ss, es, ss2, es2, cap)
  {
    forall k | |es| <= k < |es2| ensures Fits(ss2[k], es2[k], cap) {
      if k < |es1| {
        assert ss2[k] == ss1[k] && es2[k] == es1[k];
      }
    }
  }

  lemma GoOnWith(ss: seq<State>, es: seq<Event>, e: Event, cap: nat) returns (ss': seq<State>, es': seq<Event>)
    requires IsRun(ss, es) && Enabled(ss[|es|], e) && ss[|es|].c.stdineof && Fits(ss[|es|], e, cap)
    ensures Continues(ss, es, ss', es', cap) && ss'[|es'|] == Apply(ss[|es|], e) && |es'| == |es| + 1
    ensures Inv(ss'[|es'|])
    ensures Moves(ss[|es|], e) ==> WorkLeft(ss'[|es'|]) < WorkLeft(ss[|es|])
  {
    InvAlong(ss, es, |es|);
    MovesUseUpWork(ss[|es|], e);
    ss', es' := Extend(ss, es, e);
    assert ss'[|es|] == ss[|es|];
    InvAlong(ss', es', |es'|);
  }

  /** A step of the client inside its loop in which nothing is ready. */
  function Idle(pc: Pc): Event {
    match pc
    case AtStdin => ReadStdin(Blocked)
    case AtSocket => ReadSocket(Blocked)
    case AtStdout => WriteStdout(NotNow)
    case _ => WriteSocket(NotNow)
  }

  function StepsToSelect(pc: Pc): nat {
    match pc
    case AtStdin => 4
    case AtSocket => 3
    case AtStdout => 2
    case AtSockout => 1
    case _ => 0
  }

  /** The rest of the present turn, in which nothing more is ready. */
  lemma {:induction false} ToSelect(ss: seq<State>, es: seq<Event>, cap: nat) returns (ss': seq<State>, es': seq<Event>)
    requires IsRun(ss, es) && ss[|es|].c.stdineof && ss[|es|].pc != Returned
    ensures Continues(ss, es, ss', es', cap) && ss'[|es'|].pc == Selecting
    ensures |es'| == |es| + StepsToSelect(ss[|es|].pc)
    decreases StepsToSelect(ss[|es|].pc)
  {
    hide WorkLeft;
    InvAlong(ss, es, |es|);
    if ss[|es|].pc == Selecting {
      ss', es' := ss, es;
    } else {
      var ss1, es1 := GoOnWith(ss, es, Idle(ss[|es|].pc), cap);
      ss', es' := ToSelect(ss1, es1, cap);
      ContinuesOn(ss, es, ss1, es1, ss', es', cap);
    }
  }

  /** From select on to the socket's block, with one descriptor ready. */
  lemma ToSocket(ss: seq<State>, es: seq<Event>, ready: Fds, cap: nat) returns (ss': seq<State>, es': seq<Event>)
    requires IsRun(ss, es) && ss[|es|].c.stdineof
    requires Enabled(ss[|es|], Select(ready)) && Ready(ss[|es|], cap, ready)
    ensures Continues(ss, es, ss', es', cap) && |es'| == |es| + 2 && Inv(ss'[|es'|])
    ensures ss'[|es'|] == ss[|es|].(c := ss[|es|].c.(fds := ready), pc := AtSocket)
  {
    hide WorkLeft;
    InvAlong(ss, es, |es|);
    var ss1, es1 := GoOnWith(ss, es, Select(ready), cap);
    ss', es' := GoOnWith(ss1, es1, ReadStdin(Blocked), cap);
    ContinuesOn(ss, es, ss1, es1, ss', es', cap);
  }

  /** A step e at the socket or behind it, and what is left of the turn. */
  lemma StepAndToSelect(ss: seq<State>, es: seq<Event>, e: Event, cap: nat) returns (ss': seq<State>, es': seq<Event>)
    requires IsRun(ss, es) && ss[|es|].c.stdineof && Enabled(ss[|es|], e) && Fits(ss[|es|], e, cap) && Moves(ss[|es|], e)
    requires e.ReadSocket? || e.WriteStdout? || e.WriteSocket?
    ensures Continues(ss, es, ss', es', cap) && |es'| <= |es| + 3
    ensures ss'[|es'|].pc == Selecting && WorkLeft(ss'[|es'|]) < WorkLeft(ss[|es|])
  {
    hide WorkLeft;
    var ss1, es1 := GoOnWith(ss, es, e, cap);
    ss', es' := ToSelect(ss1, es1, cap);
    ContinuesOn(ss, es, ss1, es1, ss', es', cap);
  }

  /** On from the socket's block to the one for pc, with nothing ready before it. */
  lemma {:induction false} SkipTo(ss: seq<State>, es: seq<Event>, pc: Pc, cap: nat)
    returns (ss': seq<State>, es': seq<Event>)
    requires IsRun(ss, es) && ss[|es|].c.stdineof && ss[|es|].pc in {AtSocket, AtStdout, AtSockout}
    requires pc in {AtSocket, AtStdout, AtSockout} && StepsToSelect(pc) <= StepsToSelect(ss[|es|].pc)
    ensures Continues(ss, es, ss', es', cap) && ss'[|es'|] == ss[|es|].(pc := pc)
    ensures |es'| == |es| + StepsToSelect(ss[|es|].pc) - StepsToSelect(pc)
    decreases StepsToSelect(ss[|es|].pc)
  {
    hide WorkLeft;
    InvAlong(ss, es, |es|);
    if ss[|es|].pc == pc {
      ss', es' := ss, es;
    } else {
      var ss1, es1 := GoOnWith(ss, es, Idle(ss[|es|].pc), cap);
      ss', es' := SkipTo(ss1, es1, pc, cap);
      ContinuesOn(ss, es, ss1, es1, ss', es', cap);
    }
  }

  /** Where in the loop the step is taken, and what select must have found ready for it. */
  function Place(e: Event): Pc {
    if e.ReadSocket? then AtSocket else if e.WriteStdout? then AtStdout else AtSockout
  }

  function Needs(e: Event): Fds {
    NO_FDS.(rSock := e.ReadSocket?, wStdout := e.WriteStdout?, wSock := e.WriteSocket?)
  }

  /** A turn of the client in which only e transfers something. */
  lemma OneTurn(ss: seq<State>, es: seq<Event>, e: Event, cap: nat) returns (ss': seq<State>, es': seq<Event>)
    requires IsRun(ss, es) && ss[|es|].c.stdineof
    requires Enabled(ss[|es|], Select(Needs(e))) && Ready(ss[|es|], cap, Needs(e))
    requires e.ReadSocket? || e.WriteStdout? || e.WriteSocket?
    requires var s := ss[|es|]; var t := s.(c := s.c.(fds := Needs(e)), pc := Place(e));
             Enabled(t, e) && Fits(t, e, cap) && Moves(t, e)
    ensures Continues(ss, es, ss', es', cap) && |es'| <= |es| + 7
    ensures ss'[|es'|].pc == Selecting && WorkLeft(ss'[|es'|]) < WorkLeft(ss[|es|])
  {
    hide WorkLeft, Enabled, Moves, Fits, Inv, Ready;
    var ss1, es1 := ToSocket(ss, es, Needs(e), cap);
    var ss2, es2 := SkipTo(ss1, es1, Place(e), cap);
    ContinuesOn(ss, es, ss1, es1, ss2, es2, cap);
    ss', es' := StepAndToSelect(ss2, es2, e, cap);
    ContinuesOn(ss, es, ss2, es2, ss', es', cap);
  }

  /** A step that transfers something, and that does not wait for room in the connection: print first, then read what the
      server has sent, so that it has room to write; what it has not read yet is the client's room. */
  function NextTransfer(s: State, cap: nat): Event {
    if s.c.fr.bytes != [] then WriteStdout(Wrote(|s.c.fr.bytes|))
    else if s.down != [] then ReadSocket(Data(s.down[..Min(|s.down|, MAXLINE)]))
    else if s.server.Writing? then ServerWrite(Min(|s.server.rest|, cap))
    else if s.server.Reading? && s.up != [] then ServerRead(Min(|s.up|, MAXLINE))
    else if s.c.to.bytes != [] then WriteSocket(Wrote(Min(|s.c.to.bytes|, cap)))
    else ServerEof
  }

  /** All of the input has been printed, and the server is gone. */
  predicate AllPrinted(s: State) {
    s.c.fr.bytes == [] && s.down == [] && s.server.Closed?
  }

  lemma Transfer(ss: seq<State>, es: seq<Event>, cap: nat) returns (ss': seq<State>, es': seq<Event>)
    requires IsRun(ss, es) && ss[|es|].c.stdineof && ss[|es|].pc == Selecting && cap > 0 && !AllPrinted(ss[|es|])
    ensures Continues(ss, es, ss', es', cap) && |es'| <= |es| + 7
    ensures ss'[|es'|].pc == Selecting && WorkLeft(ss'[|es'|]) < WorkLeft(ss[|es|])
  {
    hide WorkLeft;
    InvAlong(ss, es, |es|);
    var e := NextTransfer(ss[|es|], cap);
    if e.ReadSocket? || e.WriteStdout? || e.WriteSocket? {
      ss', es' := OneTurn(ss, es, e, cap);
    } else {
      ss', es' := GoOnWith(ss, es, e, cap);
    }
  }

  lemma LastTurn(ss: seq<State>, es: seq<Event>, cap: nat) returns (ss': seq<State>, es': seq<Event>)
    requires IsRun(ss, es) && ss[|es|].c.stdineof && ss[|es|].pc == Selecting && AllPrinted(ss[|es|])
    ensures Continues(ss, es, ss', es', cap) && |es'| == |es| + 3
    ensures ss'[|es'|].pc == Returned && ss'[|es'|].printed == ss[|es|].input
  {
    InvAlong(ss, es, |es|);
    var ss1, es1 := ToSocket(ss, es, NO_FDS.(rSock := true), cap);
    ss', es' := GoOnWith(ss1, es1, ReadSocket(Eof), cap);
    ContinuesOn(ss, es, ss1, es1, ss', es', cap);
  }

  /** From every state after the end of stdin in every run the exchange can still come to its end, with all of the input
      printed, however little the connection holds, and in a number of steps linear in the bytes under way. */
  lemma {:induction false} CanAlwaysReturn(ss: seq<State>, es: seq<Event>, cap: nat)
    returns (ss': seq<State>, es': seq<Event>)
    requires IsRun(ss, es) && ss[|es|].c.stdineof && ss[|es|].pc != Returned && cap > 0
    ensures Continues(ss, es, ss', es', cap) && ss'[|es'|].pc == Returned
    ensures ss'[|es'|].printed == ss'[|es'|].input == ss[|es|].input
    ensures |es'| <= |es| + 7 * WorkLeft(ss[|es|]) + StepsToSelect(ss[|es|].pc) + 3
    decreases WorkLeft(ss[|es|]), ss[|es|].pc != Selecting
  {
    hide WorkLeft, AllPrinted;
    InvAlong(ss, es, |es|);
    if ss[|es|].pc == Selecting && AllPrinted(ss[|es|]) {
      ss', es' := LastTurn(ss, es, cap);
    } else {
      var ss1, es1;
      if ss[|es|].pc == Selecting {
        ss1, es1 := Transfer(ss, es, cap);
      } else {
        ss1, es1 := ToSelect(ss, es, cap);
      }
      ss', es' := CanAlwaysReturn(ss1, es1, cap);
      ContinuesOn(ss, es, ss1, es1, ss', es', cap);
    }
  }
}
