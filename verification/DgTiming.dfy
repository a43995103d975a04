/** What the reliable UDP client puts on the wire, which echoes it takes, and how its timers follow from the echoes taken: over
    whole runs of DgNetwork, in terms of clocks and bytes only. */
module DgTiming {
  import opened Bytes
  import opened Rtt
  import opened DgSendRecv
  import opened DgNetwork

  // ----- the wire

  /** The number a little-endian host reads from four bytes. */
  function Word(b: seq<byte>, at: nat): int
    requires at + 4 <= |b|
  {
    var b0: int, b1: int, b2: int, b3: int := b[at], b[at + 1], b[at + 2], b[at + 3];
    b0 + 0x100 * b1 + 0x1_0000 * b2 + 0x100_0000 * b3
  }

  /** Every request is the number of its call modulo 2^32, the milliseconds since the second `base` at which it was sent, and
      the payload of its call, in this order. */
  lemma RequestOnTheWire(ss: seq<State>, es: seq<Event>, k: nat, p: Packet)
    requires IsRun(ss, es) && k < |ss| && p in ss[k].requests
    ensures 0 <= p.origin < |ss[k].xmits|
    ensures var x := ss[k].xmits[p.origin];
            && |p.data| == 8 + |x.payload|
            && Word(p.data, 0) == x.call % 0x1_0000_0000
            && Word(p.data, 4) == ((x.at.sec - x.base) * 1000 + x.at.usec / 1000) % 0x1_0000_0000
            && p.data[8..] == x.payload
  {
    InvAlong(ss, es, k);
    var x := ss[k].xmits[p.origin];
    var number, stamp := Encode32(x.call % W32), Encode32(Stamp(x.base, x.at));
    DecodeEncode32(x.call % W32);
    DecodeEncode32(Stamp(x.base, x.at));
    assert p.data == number + stamp + x.payload;
    forall i | 0 <= i < 4 ensures p.data[i] == number[i] && p.data[4 + i] == stamp[i] {
    }
  }

  /** Up to 2^32 calls, a datagram that arrives while a call waits is taken if and only if it is the echo of one of the copies
      of this very call: none of those is ignored, and nothing else is taken. */
  lemma EchoesOfThisCallAreTaken(ss: seq<State>, es: seq<Event>, k: nat, p: Packet, at: Timeval)
    requires IsRun(ss, es) && k < |ss| && ss[k].pc.Waiting? && p in ss[k].replies && ss[k].calls <= W32
    ensures Accepts(ss[k], Deliver(p, at)) <==> ss[k].first <= p.origin
  {
    InvAlong(ss, es, k);
    var s := ss[k];
    if p.origin != NOISE {
      var x := s.xmits[p.origin];
      var n := Min(MAXLINE, HDRLEN + s.pc.inbytes);
      assert Seen(s, p) == Take(Image(x), n);
      DatagramFields(x.call % W32, Stamp(x.base, x.at), x.payload, n);
      if s.first <= p.origin {
        assert ThisCall(s, p.origin - s.first);
      } else if x.call % W32 == s.calls % W32 {
        SameCall(x.call, s.calls);
      }
    }
  }

  // ----- which measurements count

  /** No initialisation is in force: before the first call, and between a give-up and the next call. */
  ghost predicate Uninitialised(ss: seq<State>, es: seq<Event>, k: nat)
    requires k <= |es| < |ss|
  {
    k == 0
    || (!es[k - 1].Call? && ((es[k - 1].Alarm? && ss[k].pc.Idle?) || Uninitialised(ss, es, k - 1)))
  }

  /** The clock at the last initialisation. */
  ghost function Since(ss: seq<State>, es: seq<Event>, k: nat): Timeval
    requires k <= |es| < |ss| && !Uninitialised(ss, es, k)
  {
    if es[k - 1].Call? && Uninitialised(ss, es, k - 1) then es[k - 1].initAt else Since(ss, es, k - 1)
  }

  /** Milliseconds from t0 to t1, as a 32-bit counter. */
  function Between(t0: Timeval, t1: Timeval): int {
    ((t1.sec * 1000 + t1.usec / 1000) - (t0.sec * 1000 + t0.usec / 1000)) % 0x1_0000_0000
  }

  /** From the sending of the copy that was answered to the arrival of its echo. */
  ghost function Elapsed(ss: seq<State>, es: seq<Event>, k: nat): int
    requires IsRun(ss, es) && k < |es| && Accepts(ss[k], es[k])
  {
    ReplyOrigin(ss, es, k);
    Between(ss[k].xmits[es[k].p.origin].at, es[k].at)
  }

  /** The times, in seconds, measured by all replies taken since the last initialisation, oldest first. */
  ghost function Samples(ss: seq<State>, es: seq<Event>, k: nat): seq<real>
    requires IsRun(ss, es) && k < |ss|
  {
    if k == 0 then []
    else if es[k - 1].Call? && Uninitialised(ss, es, k - 1) then []
    else if Accepts(ss[k - 1], es[k - 1]) then
      Samples(ss, es, k - 1) + [Elapsed(ss, es, k - 1) as real / 1000.0]
    else Samples(ss, es, k - 1)
  }

  // ----- section 2.3 of RFC 6298, from the start values of rtt_init

  function Smoothed(rs: seq<real>): real {
    if rs == [] then 0.0 else 0.875 * Smoothed(rs[..|rs| - 1]) + 0.125 * rs[|rs| - 1]
  }

  function Deviation(rs: seq<real>): real {
    if rs == [] then 0.75
    else
      var error := Smoothed(rs[..|rs| - 1]) - rs[|rs| - 1];
      0.75 * Deviation(rs[..|rs| - 1]) + 0.25 * (if error < 0.0 then -error else error)
  }

  /** The timeout a call starts with. */
  function Timeout(rs: seq<real>): real {
    var rto := Smoothed(rs) + 4.0 * Deviation(rs);
    if rto < 2.0 then 2.0 else if rto > 60.0 then 60.0 else rto
  }

  // ----- main results

  lemma {:induction false} InitedAlong(ss: seq<State>, es: seq<Event>, k: nat)
    requires IsRun(ss, es) && k < |ss|
    ensures ss[k].client.inited <==> !Uninitialised(ss, es, k)
  {
    if k == 0 {
    } else {
      InitedAlong(ss, es, k - 1);
      InvAlong(ss, es, k - 1);
      assert StepAt(ss, es, k - 1);
    }
  }

  /** What the estimator holds, and the timeout without the doublings of the call that waits. */
  ghost predicate Follows(s: State, since: Timeval, rs: seq<real>) {
    && s.client.info.srtt == Smoothed(rs) && s.client.info.rttvar == Deviation(rs)
    && s.client.info.base == since.sec % 0x1_0000_0000
    && (if s.pc.Waiting? then s.pc.start else s.client.info.rto) == Timeout(rs)
  }

  lemma Snoc(rs: seq<real>, r: real)
    ensures Smoothed(rs + [r]) == 0.875 * Smoothed(rs) + 0.125 * r
    ensures Deviation(rs + [r])
            == 0.75 * Deviation(rs) + 0.25 * (if Smoothed(rs) < r then r - Smoothed(rs) else Smoothed(rs) - r)
  {
    assert (rs + [r])[..|rs|] == rs;
  }

  lemma CallFollows(s: State, e: Event, since: Timeval, rs: seq<real>)
    requires e.Call? && Enabled(s, e) && (s.client.inited ==> Follows(s, since, rs))
    ensures if s.client.inited then Follows(Apply(s, e), since, rs) else Follows(Apply(s, e), e.initAt, [])
  {
  }

  /** A reply measured as ms milliseconds. */
  lemma ReplyFollows(s: State, t: State, since: Timeval, rs: seq<real>, ms: uint32)
    requires Follows(s, since, rs) && t.pc.Idle? && t.client.info == Stopped(s.client.info, ms)
    ensures Follows(t, since, rs + [ms as real / 1000.0])
  {
    Snoc(rs, ms as real / 1000.0);
  }

  /** Up to 2^32 calls, and as long as an initialisation is in force, the estimators are those of section 2.3 of RFC 6298 after
      exactly the replies taken since then, each measured from the copy it answers. No call but the first, and the first
      after a give-up, starts them afresh or moves the origin of the time stamps; and every call starts its timer with the
      timeout that follows from them. */
  lemma {:induction false} EstimatorFollowsReplies(ss: seq<State>, es: seq<Event>, k: nat)
    requires IsRun(ss, es) && k < |ss| && ss[k].calls <= W32 && !Uninitialised(ss, es, k)
    ensures Follows(ss[k], Since(ss, es, k), Samples(ss, es, k))
  {
    hide Follows, Inv, Apply, Enabled, Elapsed;
    var s, t, e := ss[k - 1], ss[k], es[k - 1];
    assert StepAt(ss, es, k - 1);
    InitedAlong(ss, es, k - 1);
    InitedAlong(ss, es, k);
    CallsGrow(s, e);
    if s.client.inited {
      EstimatorFollowsReplies(ss, es, k - 1);
    }
    if e.Call? {
      CallFollows(s, e, if s.client.inited then Since(ss, es, k - 1) else e.initAt, Samples(ss, es, k - 1));
    } else if Accepts(s, e) {
      ReplyIsOwn(ss, es, k - 1);
      ElapsedIsMeasured(ss, es, k - 1);
      ReplyFollows(s, t, Since(ss, es, k - 1), Samples(ss, es, k - 1), Elapsed(ss, es, k - 1));
    } else {
      NothingNewFollows(s, e, Since(ss, es, k - 1), Samples(ss, es, k - 1));
    }
  }

  lemma CallsGrow(s: State, e: Event)
    requires Enabled(s, e)
    ensures s.calls <= Apply(s, e).calls
    ensures Accepts(s, e) ==> Apply(s, e).pc.Idle?
    ensures !e.Call? && Apply(s, e).client.inited ==> s.client.inited
  {
  }

  lemma ElapsedIsMeasured(ss: seq<State>, es: seq<Event>, k: nat)
    requires IsRun(ss, es) && k < |es| && Accepts(ss[k], es[k])
    ensures 0 <= es[k].p.origin < |ss[k].xmits|
    ensures 0 <= Elapsed(ss, es, k) < W32
    ensures Elapsed(ss, es, k) == (Millis(es[k].at) - Millis(ss[k].xmits[es[k].p.origin].at)) % W32
  {
    ReplyOrigin(ss, es, k);
  }

  lemma NothingNewFollows(s: State, e: Event, since: Timeval, rs: seq<real>)
    requires Enabled(s, e) && !e.Call? && !Accepts(s, e) && Apply(s, e).client.inited && Follows(s, since, rs)
    requires s.client.inited
    ensures Follows(Apply(s, e), since, rs)
  {
    hide Smoothed, Deviation;
  }

  /** One reply in milliseconds: an eighth of the new measurement, a quarter of its error, without fractions. */
  lemma ReplyInMilliseconds(ss: seq<State>, es: seq<Event>, k: nat)
    requires IsRun(ss, es) && k < |es| && ss[k].calls <= W32 && Accepts(ss[k], es[k])
    ensures var i, j, d := ss[k].client.info, ss[k + 1].client.info, Elapsed(ss, es, k) as real;
            && 8000.0 * j.srtt == 7000.0 * i.srtt + d
            && 4000.0 * j.rttvar == 3000.0 * i.rttvar + (if 1000.0 * i.srtt < d then d - 1000.0 * i.srtt else 1000.0 * i.srtt - d)
            && j.base == i.base
  {
    ReplyIsOwn(ss, es, k);
  }

  /** The timer after transmission n of a call (0 is the first) is the whole number of seconds nearest to 2^n times the timeout
      that follows from the replies, halves up. */
  lemma TimersFollowReplies(ss: seq<State>, es: seq<Event>, k: nat, n: nat)
    requires IsRun(ss, es) && k < |ss| && ss[k].calls <= W32 && ss[k].pc.Waiting?
    requires ss[k].first + n < |ss[k].xmits|
    ensures n < 4
    ensures var seconds := ss[k].xmits[ss[k].first + n].alarm as real;
            var exact := [1.0, 2.0, 4.0, 8.0][n] * Timeout(Samples(ss, es, k));
            seconds - 0.5 <= exact < seconds + 0.5
    ensures Samples(ss, es, k) == [] ==> ss[k].xmits[ss[k].first + n].alarm == [3, 6, 12, 24][n]
  {
    InvAlong(ss, es, k);
    InitedAlong(ss, es, k);
    EstimatorFollowsReplies(ss, es, k);
    var s := ss[k];
    assert ThisCall(s, n);
    var r := s.pc.start;
    assert Doubled(r, 1) == 2.0 * Doubled(r, 0);
    assert Doubled(r, 2) == 2.0 * Doubled(r, 1);
    assert Doubled(r, 3) == 2.0 * Doubled(r, 2);
  }
}
