/** The UDP client, the echo server (dg_echo.cpp) and a network that loses, duplicates, delays and reorders. */
module DgNetwork {
  import opened Bytes
  import opened Rtt
  import opened DgSendRecv

  /** The server's receive buffer: longer datagrams are cut there. */
  const MAXLINE := 4096

  /** `start` is the retransmission timeout at the first transmission of the call. */
  datatype Pc = Idle | Waiting(payload: seq<byte>, inbytes: nat, start: real)

  /** History of one transmission: the call it belongs to, the clock then, and the timer armed after it. */
  datatype Xmit = Xmit(call: nat, payload: seq<byte>, at: Timeval, base: uint32, alarm: int)

  const NOISE := -1

  /** `origin` is history: which transmission the bytes come from. */
  datatype Packet = Packet(origin: int, data: seq<byte>)

  /** A packet that ever entered the network may be delivered any number of times from then on, or never. */
  datatype State = State(
    client: Client, pc: Pc, calls: nat, first: nat, xmits: seq<Xmit>, requests: set<Packet>, replies: set<Packet>)

  const START := State(ZERO_CLIENT, Idle, 0, 0, [], {}, {})

  datatype Event =
    | Call(payload: seq<byte>, inbytes: nat, initAt: Timeval, sentAt: Timeval)
    | Alarm(at: Timeval)
    | Deliver(p: Packet, at: Timeval)
    | Echo(p: Packet)
    | Noise(data: seq<byte>)

  /** Noise: anything too short to hold a header may reach the client's port as well. */
  predicate Enabled(s: State, e: Event) {
    match e
    case Call(_, _, _, _) => s.pc.Idle?
    case Alarm(_) => s.pc.Waiting?
    case Deliver(p, _) => s.pc.Waiting? && p in s.replies
    case Echo(p) => p in s.requests
    case Noise(data) => |data| < HDRLEN
  }

  /** Bytes of packet p that fit in the client's buffers. */
  function Seen(s: State, p: Packet): seq<byte>
    requires s.pc.Waiting?
  {
    Take(p.data, HDRLEN + s.pc.inbytes)
  }

  predicate Accepts(s: State, e: Event) {
    e.Deliver? && s.pc.Waiting? && e.p in s.replies && Matches(s.client, Seen(s, e.p))
  }

  /** What dg_send_recv hands back to its caller. */
  function Received(s: State, e: Event): seq<byte>
    requires Accepts(s, e)
  {
    Seen(s, e.p)[HDRLEN..]
  }

  function Transmit(s: State, payload: seq<byte>, at: Timeval): State {
    var c := s.client;
    var x := Xmit(s.calls, payload, at, c.info.base, Round(c.info.rto));
    s.(xmits := s.xmits + [x], requests := s.requests + {Packet(|s.xmits|, Datagram(c.seqno, c.ts, payload))})
  }

  function Apply(s: State, e: Event): State
    requires Enabled(s, e)
  {
    match e
    case Call(payload, inbytes, initAt, sentAt) =>
      var c := Begin(s.client, initAt, sentAt);
      var s' := s.(client := c, pc := Waiting(payload, inbytes, c.info.rto), calls := s.calls + 1, first := |s.xmits|);
      Transmit(s', payload, sentAt)
    case Alarm(at) =>
      var s' := s.(client := OnAlarm(s.client, at));
      if GivesUp(s.client) then s'.(pc := Idle) else Transmit(s', s.pc.payload, at)
    case Deliver(p, at) =>
      if Matches(s.client, Seen(s, p)) then
        s.(client := OnMatch(s.client, Seen(s, p), at), pc := Idle)
      else
        s
    case Echo(p) =>
      s.(replies := s.replies + {Packet(p.origin, Take(p.data, MAXLINE))})
    case Noise(data) =>
      s.(replies := s.replies + {Packet(NOISE, data)})
  }

  ghost predicate StepAt(ss: seq<State>, es: seq<Event>, k: int)
    requires 0 <= k < |es| && |ss| == |es| + 1
  {
    Enabled(ss[k], es[k]) && ss[k + 1] == Apply(ss[k], es[k])
  }

  ghost predicate IsRun(ss: seq<State>, es: seq<Event>) {
    && |ss| == |es| + 1
    && ss[0] == START
    && forall k :: 0 <= k < |es| ==> StepAt(ss, es, k)
  }

  // ----- the invariant

  /** x * 2^n */
  function Doubled(x: real, n: nat): real {
    if n == 0 then x else 2.0 * Doubled(x, n - 1)
  }

  function Image(x: Xmit): seq<byte> {
    Datagram(x.call % W32, Stamp(x.base, x.at), x.payload)
  }

  ghost predicate PacketsOk(s: State) {
    && (forall p :: p in s.requests ==> 0 <= p.origin < |s.xmits| && p.data == Image(s.xmits[p.origin]))
    && (forall p :: p in s.replies ==>
          if p.origin == NOISE then |p.data| < HDRLEN
          else 0 <= p.origin < |s.xmits| && p.data == Take(Image(s.xmits[p.origin]), MAXLINE))
  }

  /** The k-th transmission of the current call is for this call's payload and armed twice the timer of the one before. */
  ghost predicate ThisCall(s: State, k: nat)
    requires s.pc.Waiting? && s.first + k < |s.xmits|
  {
    var x := s.xmits[s.first + k];
    && x.call == s.calls
    && x.payload == s.pc.payload
    && x.base == s.client.info.base
    && x.alarm == Round(Doubled(s.pc.start, k))
  }

  ghost predicate TimerOk(s: State) {
    if s.pc.Waiting? then
      && s.client.inited
      && RXTMIN <= s.pc.start <= RXTMAX
      && 0 <= s.client.info.nrexmt <= MAXNREXMT
      && s.client.info.rto == Doubled(s.pc.start, s.client.info.nrexmt)
      && |s.xmits| == s.first + s.client.info.nrexmt + 1
      && forall k: nat :: s.first + k < |s.xmits| ==> ThisCall(s, k)
    else
      s.client.inited ==> RXTMIN <= s.client.info.rto <= RXTMAX
  }

  ghost predicate Inv(s: State) {
    && s.client.seqno == s.calls % W32
    && s.first <= |s.xmits|
    && (forall k :: 0 <= k < |s.xmits| ==> 1 <= s.xmits[k].call <= s.calls)
    && (s.pc.Waiting? ==> forall k :: 0 <= k < s.first ==> s.xmits[k].call < s.calls)
    && PacketsOk(s)
    && TimerOk(s)
  }

  lemma NextSeqno(calls: nat)
    ensures (calls % W32 + 1) % W32 == (calls + 1) % W32
  {
    ModShift(calls % W32 + 1, calls / W32);
  }

  lemma TransmitKeepsPackets(s: State, payload: seq<byte>, at: Timeval)
    requires PacketsOk(s)
    requires s.client.seqno == s.calls % W32 && s.client.ts == Stamp(s.client.info.base, at)
    ensures PacketsOk(Transmit(s, payload, at))
  {
    var t := Transmit(s, payload, at);
    assert forall k :: 0 <= k < |s.xmits| ==> t.xmits[k] == s.xmits[k];
  }

  lemma CallKeepsInv(s: State, e: Event)
    requires Inv(s) && e.Call? && Enabled(s, e)
    ensures Inv(Apply(s, e))
  {
    NextSeqno(s.calls);
    var c := Begin(s.client, e.initAt, e.sentAt);
    var s' := s.(client := c, pc := Waiting(e.payload, e.inbytes, c.info.rto), calls := s.calls + 1, first := |s.xmits|);
    TransmitKeepsPackets(s', e.payload, e.sentAt);
    assert ThisCall(Apply(s, e), 0);
  }

  lemma AlarmKeepsTimer(s: State, at: Timeval)
    requires Inv(s) && s.pc.Waiting? && !GivesUp(s.client)
    ensures TimerOk(Apply(s, Event.Alarm(at)))
  {
    var t, n := Apply(s, Event.Alarm(at)), s.client.info.nrexmt;
    forall k: nat | t.first + k < |t.xmits| ensures ThisCall(t, k) {
      if k <= n {
        assert ThisCall(s, k);
        assert t.xmits[t.first + k] == s.xmits[s.first + k];
      }
    }
  }

  lemma AlarmKeepsInv(s: State, at: Timeval)
    requires Inv(s) && s.pc.Waiting?
    ensures Inv(Apply(s, Event.Alarm(at)))
  {
    assert ThisCall(s, 0);
    if !GivesUp(s.client) {
      TransmitKeepsPackets(s.(client := OnAlarm(s.client, at)), s.pc.payload, at);
      AlarmKeepsTimer(s, at);
    }
  }

  lemma ReplyTrafficKeepsInv(s: State, e: Event)
    requires Inv(s) && Enabled(s, e) && (e.Echo? || e.Noise?)
    ensures Inv(Apply(s, e))
  {
    var t := Apply(s, e);
    assert PacketsOk(t);
    forall k: nat | t.pc.Waiting? && t.first + k < |t.xmits| ensures ThisCall(t, k) {
      assert ThisCall(s, k);
    }
  }

  lemma DeliveryKeepsInv(s: State, e: Event)
    requires Inv(s) && Enabled(s, e) && e.Deliver?
    ensures Inv(Apply(s, e))
  {
  }

  lemma InvStep(s: State, e: Event)
    requires Inv(s) && Enabled(s, e)
    ensures Inv(Apply(s, e))
  {
    match e
    case Call(_, _, _, _) => CallKeepsInv(s, e);
    case Alarm(at) => AlarmKeepsInv(s, at);
    case Deliver(_, _) => DeliveryKeepsInv(s, e);
    case Echo(_) => ReplyTrafficKeepsInv(s, e);
    case Noise(_) => ReplyTrafficKeepsInv(s, e);
  }

  lemma {:induction false} InvAlong(ss: seq<State>, es: seq<Event>, k: nat)
    requires IsRun(ss, es) && k < |ss|
    ensures Inv(ss[k])
  {
    if k == 0 {
    } else {
      InvAlong(ss, es, k - 1);
      assert StepAt(ss, es, k - 1);
      InvStep(ss[k - 1], es[k - 1]);
    }
  }

  // ----- the client of a run is DgClient

  /** What events es make happen to the waiting call. */
  function Happenings(es: seq<Event>): seq<Happening> {
    if es == [] then []
    else
      match es[0]
      case Alarm(at) => [Happening.Alarm(at)] + Happenings(es[1..])
      case Deliver(p, at) => [Arrive(p.data, at)] + Happenings(es[1..])
      case _ => Happenings(es[1..])
  }

  /** The datagrams of transmissions xs, and the timers armed after them. */
  function Images(xs: seq<Xmit>): seq<seq<byte>> {
    if xs == [] then [] else [Image(xs[0])] + Images(xs[1..])
  }

  function Alarms(xs: seq<Xmit>): seq<int> {
    if xs == [] then [] else [xs[0].alarm] + Alarms(xs[1..])
  }

  /** Transmissions made between states j and n of a run. */
  ghost function Made(ss: seq<State>, j: nat, n: nat): seq<Xmit>
    requires j <= n < |ss| && |ss[j].xmits| <= |ss[n].xmits|
  {
    ss[n].xmits[|ss[j].xmits|..]
  }

  lemma {:induction false} XmitsGrow(ss: seq<State>, es: seq<Event>, j: nat, n: nat)
    requires IsRun(ss, es) && j <= n < |ss|
    ensures ss[j].xmits <= ss[n].xmits
    decreases n - j
  {
    if j == n {
    } else {
      XmitsGrow(ss, es, j, n - 1);
      assert StepAt(ss, es, n - 1);
    }
  }

  /** A retransmission sends and arms what the client's transition says. */
  lemma Retransmission(s: State, at: Timeval)
    requires Inv(s) && s.pc.Waiting? && !GivesUp(s.client)
    ensures var t, c := Apply(s, Event.Alarm(at)), OnAlarm(s.client, at);
            && |t.xmits| == |s.xmits| + 1
            && Image(t.xmits[|s.xmits|]) == Datagram(c.seqno, c.ts, s.pc.payload)
            && t.xmits[|s.xmits|].alarm == Round(c.info.rto)
  {
  }

  /** One event of a run is one turn of Wait. */
  lemma WaitUnfolds(s: State, e: Event, es: seq<Event>)
    requires s.pc.Waiting? && Enabled(s, e)
    ensures var t, p, n := Apply(s, e), s.pc.payload, s.pc.inbytes;
            && (t.pc.Waiting? ==> t.pc == s.pc)
            && Wait(s.client, p, n, Happenings([e] + es)) ==
               if !t.pc.Waiting? then Result(t.client, if Accepts(s, e) then Reply(Received(s, e)) else NoResponse, [], [])
               else if e.Alarm? then
                 Later([Datagram(t.client.seqno, t.client.ts, p)], [Round(t.client.info.rto)],
                       Wait(t.client, p, n, Happenings(es)))
               else Wait(t.client, p, n, Happenings(es))
    ensures Accepts(s, e) ==> !Apply(s, e).pc.Waiting?
    ensures Apply(s, e).pc.Waiting? && e.Alarm? <==> e.Alarm? && !GivesUp(s.client)
  {
    hide Stopped, TimedOut, Stamp, Datagram, SeqOf, Round;
    var hs := Happenings([e] + es);
    assert ([e] + es)[1..] == es;
    if e.Alarm? || e.Deliver? {
      assert hs[1..] == Happenings(es);
    }
  }

  /** The waiting part of a call, from any state in it on. */
  lemma {:induction false} WaitFollowsRun(ss: seq<State>, es: seq<Event>, j: nat, n: nat)
    requires IsRun(ss, es) && j <= n < |ss| && ss[j].pc.Waiting?
    requires forall i :: j <= i < n ==> ss[i].pc.Waiting?
    ensures |ss[j].xmits| <= |ss[n].xmits|
    ensures var w := Wait(ss[j].client, ss[j].pc.payload, ss[j].pc.inbytes, Happenings(es[j..n]));
            && w.client == ss[n].client
            && (w.outcome.StillWaiting? <==> ss[n].pc.Waiting?)
            && (j < n && Accepts(ss[n - 1], es[n - 1]) ==> w.outcome == Reply(Received(ss[n - 1], es[n - 1])))
            && w.sent == Images(Made(ss, j, n)) && w.alarms == Alarms(Made(ss, j, n))
    decreases n - j
  {
    hide Inv, Images, Alarms, Wait, Happenings, Apply;
    XmitsGrow(ss, es, j, n);
    if j == n {
      NothingMade(ss, j);
      NothingHappens(ss[j].client, ss[j].pc.payload, ss[j].pc.inbytes);
      assert es[j..j] == [];
    } else {
      assert StepAt(ss, es, j);
      assert es[j..n] == [es[j]] + es[j + 1..n];
      WaitUnfolds(ss[j], es[j], es[j + 1..n]);
      MadeFirst(ss, es, j, n);
      if ss[j + 1].pc.Waiting? {
        WaitFollowsRun(ss, es, j + 1, n);
      } else {
        NothingMade(ss, n);
      }
    }
  }

  lemma NothingHappens(c: Client, payload: seq<byte>, inbytes: nat)
    ensures Wait(c, payload, inbytes, Happenings([])) == Result(c, StillWaiting, [], [])
  {
  }

  lemma NothingMade(ss: seq<State>, n: nat)
    requires n < |ss|
    ensures Images(Made(ss, n, n)) == [] && Alarms(Made(ss, n, n)) == []
  {
  }

  /** What the step from state j sends comes before everything sent later. */
  lemma MadeFirst(ss: seq<State>, es: seq<Event>, j: nat, n: nat)
    requires IsRun(ss, es) && j < n < |ss| && ss[j].pc.Waiting?
    ensures |ss[j].xmits| <= |ss[j + 1].xmits| <= |ss[n].xmits|
    ensures var c := ss[j + 1].client;
            var sends := es[j].Alarm? && !GivesUp(ss[j].client);
            && Images(Made(ss, j, n))
               == (if sends then [Datagram(c.seqno, c.ts, ss[j].pc.payload)] else []) + Images(Made(ss, j + 1, n))
            && Alarms(Made(ss, j, n)) == (if sends then [Round(c.info.rto)] else []) + Alarms(Made(ss, j + 1, n))
  {
    InvAlong(ss, es, j);
    XmitsGrow(ss, es, j, j + 1);
    XmitsGrow(ss, es, j + 1, n);
    assert StepAt(ss, es, j);
    if es[j].Alarm? && !GivesUp(ss[j].client) {
      Retransmission(ss[j], es[j].at);
      assert Made(ss, j, n)[0] == ss[j + 1].xmits[|ss[j].xmits|];
      assert Made(ss, j, n)[1..] == Made(ss, j + 1, n);
    } else {
      assert ss[j + 1].xmits == ss[j].xmits;
    }
  }

  /** The stretch of a run from a call (event j) to its end or any earlier point (state n) is exactly what the method
      DgClient.DgSendRecv computes from the events that reach the client in between: statics, outcome, datagrams sent and
      timers armed. */
  lemma CallIsDgSendRecv(ss: seq<State>, es: seq<Event>, j: nat, n: nat)
    requires IsRun(ss, es) && j < n < |ss| && es[j].Call?
    requires forall i :: j < i < n ==> ss[i].pc.Waiting?
    ensures |ss[j].xmits| <= |ss[n].xmits|
    ensures var e := es[j];
            var c := Begin(ss[j].client, e.initAt, e.sentAt);
            var w := Wait(c, e.payload, e.inbytes, Happenings(es[j + 1..n]));
            && w.client == ss[n].client
            && (w.outcome.StillWaiting? <==> ss[n].pc.Waiting?)
            && (Accepts(ss[n - 1], es[n - 1]) ==> w.outcome == Reply(Received(ss[n - 1], es[n - 1])))
            && [Datagram(c.seqno, c.ts, e.payload)] + w.sent == Images(Made(ss, j, n))
            && [Round(c.info.rto)] + w.alarms == Alarms(Made(ss, j, n))
  {
    assert StepAt(ss, es, j);
    InvAlong(ss, es, j + 1);
    WaitFollowsRun(ss, es, j + 1, n);
    XmitsGrow(ss, es, j + 1, n);
    assert Made(ss, j, n)[0] == ss[j + 1].xmits[|ss[j].xmits|];
    assert Made(ss, j, n)[1..] == Made(ss, j + 1, n);
  }

  // ----- what an accepted reply is

  function Own(s: State): seq<byte>
    requires s.pc.Waiting?
  {
    Take(s.pc.payload, Min(MAXLINE - HDRLEN, s.pc.inbytes))
  }

  /** In any run at all, an accepted reply is the echo of a transmission of a call with this call's number modulo 2^32. */
  lemma ReplyOrigin(ss: seq<State>, es: seq<Event>, k: nat)
    requires IsRun(ss, es) && k < |es| && Accepts(ss[k], es[k])
    ensures var s, p := ss[k], es[k].p;
            && 0 <= p.origin < |s.xmits|
            && var x := s.xmits[p.origin];
            && 1 <= x.call <= s.calls && x.call % W32 == s.calls % W32
            && TsOf(Seen(s, p)) == Stamp(x.base, x.at)
            && Received(s, es[k]) == Take(x.payload, Min(MAXLINE - HDRLEN, s.pc.inbytes))
  {
    InvAlong(ss, es, k);
    var s, p := ss[k], es[k].p;
    var x := s.xmits[p.origin];
    var n := Min(MAXLINE, HDRLEN + s.pc.inbytes);
    assert Seen(s, p) == Take(Image(x), n);
    DatagramFields(x.call % W32, Stamp(x.base, x.at), x.payload, n);
  }

  /** With at most 2^32 calls so far, also across give-ups, every call returns the echo of its own payload, cut to the
      server's and the caller's buffers, and what reaches the estimator is the time since the very copy answered. */
  lemma ReplyIsOwn(ss: seq<State>, es: seq<Event>, k: nat)
    requires IsRun(ss, es) && k < |es| && Accepts(ss[k], es[k])
    requires ss[k].calls <= W32
    ensures var s, e := ss[k], es[k];
            && s.first <= e.p.origin < |s.xmits|
            && var x := s.xmits[e.p.origin];
            && x.call == s.calls && x.payload == s.pc.payload
            && Received(s, e) == Own(s)
            && ss[k + 1].client.info == Stopped(s.client.info, (Millis(e.at) - Millis(x.at)) % W32)
  {
    ReplyOrigin(ss, es, k);
    InvAlong(ss, es, k);
    var s, e := ss[k], es[k];
    var x := s.xmits[e.p.origin];
    SameCall(x.call, s.calls);
    assert ThisCall(s, e.p.origin - s.first);
    StampDifference(x.base, x.at, e.at);
    assert StepAt(ss, es, k);
  }

  lemma SameCall(a: nat, b: nat)
    requires 1 <= a <= b <= W32 && a % W32 == b % W32
    ensures a == b
  {
    assert a % W32 == if a == W32 then 0 else a;
    assert b % W32 == if b == W32 then 0 else b;
  }

  /** Lines of up to 4088 bytes come back whole into a buffer that holds them. */
  lemma ShortPayloadComesBackWhole(ss: seq<State>, es: seq<Event>, k: nat)
    requires IsRun(ss, es) && k < |es| && Accepts(ss[k], es[k])
    requires ss[k].calls <= W32
    ensures Received(ss[k], es[k]) == ss[k].pc.payload <==> |ss[k].pc.payload| <= Min(MAXLINE - HDRLEN, ss[k].pc.inbytes)
  {
    ReplyIsOwn(ss, es, k);
  }

  /** What dg_cli may send: a line of 4095 bytes, with room for 4096 bytes of reply. */
  const LONG_LINE: seq<byte> := seq(MAXLINE - 1, _ => 1)

  /** Its echo comes back short of the last seven bytes: a run of one call that ends so. */
  lemma LongPayloadComesBackCut() returns (ss: seq<State>, es: seq<Event>)
    ensures IsRun(ss, es) && |es| == 3 && Accepts(ss[2], es[2])
    ensures ss[2].pc.payload == LONG_LINE && ss[2].pc.inbytes == MAXLINE
    ensures Received(ss[2], es[2]) == LONG_LINE[..4088] != LONG_LINE
  {
    ss, es := Extend([START], [], Call(LONG_LINE, MAXLINE, T0, T0));
    InvAlong(ss, es, 1);
    var s := ss[1];
    var image := Image(s.xmits[0]);
    ss, es := Extend(ss, es, Echo(Packet(0, image)));
    DatagramFields(s.client.seqno, s.client.ts, LONG_LINE, MAXLINE);
    assert Take(Take(image, MAXLINE), HDRLEN + MAXLINE) == Take(image, MAXLINE);
    ss, es := Extend(ss, es, Deliver(Packet(0, Take(image, MAXLINE)), T0));
  }

  // ----- the bound of 2^32 calls is exact

  /** No run returns another call's payload within the first n calls. */
  ghost predicate SafeFor(n: nat) {
    forall ss: seq<State>, es: seq<Event>, k: nat :: IsRun(ss, es) && k < |es| && ss[k].calls <= n && Accepts(ss[k], es[k]) ==>
      Received(ss[k], es[k]) == Own(ss[k])
  }

  lemma SafeExactlyUpToWrapAround(n: nat)
    ensures SafeFor(n) <==> n <= W32
  {
    if n <= W32 {
      forall ss: seq<State>, es: seq<Event>, k: nat |
        IsRun(ss, es) && k < |es| && ss[k].calls <= n && Accepts(ss[k], es[k])
        ensures Received(ss[k], es[k]) == Own(ss[k])
      {
        ReplyIsOwn(ss, es, k);
      }
    } else {
      var ss, es, k := StaleReply();
      assert IsRun(ss, es) && k < |es| && ss[k].calls <= n && Accepts(ss[k], es[k]);
    }
  }

  const T0 := Timeval(0, 0)

  lemma Extend(ss: seq<State>, es: seq<Event>, e: Event) returns (ss': seq<State>, es': seq<Event>)
    requires IsRun(ss, es) && Enabled(ss[|es|], e)
    ensures IsRun(ss', es') && |es'| == |es| + 1 && ss'[..|ss|] == ss && es'[|es|] == e
    ensures ss'[|es'|] == Apply(ss[|es|], e)
  {
    ss', es' := ss + [Apply(ss[|es|], e)], es + [e];
    forall k | 0 <= k < |es'| ensures StepAt(ss', es', k) {
      if k < |es| {
        assert StepAt(ss, es, k);
      }
    }
  }

  /** A run of n calls, each answered, after which the echo of the first one is still in the network. */
  lemma {:induction false} AnsweredCalls(n: nat) returns (ss: seq<State>, es: seq<Event>)
    requires n >= 1
    ensures IsRun(ss, es)
    ensures var s := ss[|es|]; s.pc.Idle? && s.calls == n && |s.xmits| > 0 && s.xmits[0].payload == [1] && s.xmits[0].call == 1
    ensures Packet(0, Take(Image(ss[|es|].xmits[0]), MAXLINE)) in ss[|es|].replies
  {
    if n == 1 {
      ss, es := [START], [];
    } else {
      ss, es := AnsweredCalls(n - 1);
    }
    var s := ss[|es|];
    InvAlong(ss, es, |es|);
    ss, es := Extend(ss, es, Call([1], 1, T0, T0));
    var p := Packet(|s.xmits|, Image(ss[|es|].xmits[|s.xmits|]));
    InvAlong(ss, es, |es|);
    ss, es := Extend(ss, es, Echo(p));
    var t := ss[|es|];
    var r := Packet(p.origin, Take(p.data, MAXLINE));
    DatagramFields(t.client.seqno, t.client.ts, [1], MAXLINE);
    DatagramFields(t.client.seqno, t.client.ts, [1], HDRLEN + 1);
    assert r.data == p.data;
    ss, es := Extend(ss, es, Deliver(r, T0));
  }

  /** Call number 2^32 + 1 accepts the echo of the first call. */
  lemma StaleReply() returns (ss: seq<State>, es: seq<Event>, k: nat)
    ensures IsRun(ss, es) && k < |es| && ss[k].calls == W32 + 1
    ensures Accepts(ss[k], es[k]) && Received(ss[k], es[k]) != Own(ss[k])
  {
    hide Inv, Image, Received, Own, Matches;
    ss, es := AnsweredCalls(W32);
    var x := ss[|es|].xmits[0];
    var e := Deliver(Packet(0, Take(Image(x), MAXLINE)), T0);
    InvAlong(ss, es, |es|);
    NumberWraps(ss[|es|]);
    ss, es := Extend(ss, es, Call([2], 1, T0, T0));
    StaleAccepted(ss[|es|], x, e);
    k := |es|;
    ss, es := Extend(ss, es, e);
  }

  /** The call after 2^32 others has number 1 again. */
  lemma NumberWraps(s: State)
    requires Inv(s) && s.pc.Idle? && s.calls == W32
    ensures var t := Apply(s, Call([2], 1, T0, T0));
            && t.calls == W32 + 1 && t.client.seqno == 1 && t.replies == s.replies
            && t.pc.Waiting? && t.pc.payload == [2] && t.pc.inbytes == 1
  {
  }

  lemma StaleAccepted(s: State, x: Xmit, e: Event)
    requires s.pc.Waiting? && s.pc.payload == [2] && s.pc.inbytes == 1 && s.client.seqno == 1
    requires x.payload == [1] && x.call == 1
    requires e == Deliver(Packet(0, Take(Image(x), MAXLINE)), T0) && e.p in s.replies
    ensures Accepts(s, e) && Received(s, e) != Own(s)
  {
    assert Seen(s, e.p) == Take(Image(x), HDRLEN + 1);
    DatagramFields(1, Stamp(x.base, x.at), [1], HDRLEN + 1);
    assert Received(s, e)[0] == 1 && Own(s)[0] == 2;
  }

  // ----- retransmissions

  /** While a call waits, at most four copies are out and the timeout is the start value doubled once a retransmission. */
  lemma BackoffWhileWaiting(ss: seq<State>, es: seq<Event>, k: nat)
    requires IsRun(ss, es) && k < |ss| && ss[k].pc.Waiting?
    ensures var s := ss[k];
            && RXTMIN <= s.pc.start <= RXTMAX
            && 0 <= s.client.info.nrexmt <= MAXNREXMT
            && s.client.info.rto == Doubled(s.pc.start, s.client.info.nrexmt)
            && 1 <= |s.xmits| - s.first == s.client.info.nrexmt + 1 <= 4
  {
    InvAlong(ss, es, k);
  }

  /** A call gives up only after four transmissions, whose timers add up to between 30 and 900 seconds; the next call
      starts with a fresh estimator, but never with an old sequence number. */
  lemma GivingUp(ss: seq<State>, es: seq<Event>, k: nat)
    requires IsRun(ss, es) && k < |es| && es[k].Alarm? && ss[k + 1].pc.Idle?
    ensures var s := ss[k];
            && |s.xmits| == s.first + 4
            && 30 <= s.xmits[s.first].alarm + s.xmits[s.first + 1].alarm + s.xmits[s.first + 2].alarm
                     + s.xmits[s.first + 3].alarm <= 900
            && !ss[k + 1].client.inited
            && ss[k + 1].client.seqno == s.client.seqno
  {
    var s := ss[k];
    InvAlong(ss, es, k);
    assert StepAt(ss, es, k);
    assert GivesUp(s.client);
    assert ThisCall(s, 0) && ThisCall(s, 1) && ThisCall(s, 2) && ThisCall(s, 3);
    AlarmTotal(s.pc.start);
  }

  lemma AlarmTotal(r: real)
    requires RXTMIN <= r <= RXTMAX
    ensures 30 <= Round(Doubled(r, 0)) + Round(Doubled(r, 1)) + Round(Doubled(r, 2)) + Round(Doubled(r, 3)) <= 900
  {
    assert Doubled(r, 1) == 2.0 * Doubled(r, 0);
    assert Doubled(r, 2) == 2.0 * Doubled(r, 1);
    assert Doubled(r, 3) == 2.0 * Doubled(r, 2);
  }
}
