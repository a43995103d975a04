/** rtt/dg_send_recv.cpp: one reliable request/reply exchange over UDP, as the client sees it. */
module DgSendRecv {
  import opened Bytes
  import opened Rtt

  const HDRLEN := 8

  /** The statics that survive from call to call: rttinfo, rttinit and sendhdr. */
  datatype Client = Client(info: Info, inited: bool, seqno: uint32, ts: uint32)

  const ZERO_CLIENT := Client(Info(0.0, 0.0, 0.0, 0.0, 0, 0), false, 0, 0)

  // ----- datagrams: an eight-byte header in host byte order, then the caller's bytes

  function Datagram(seqno: uint32, ts: uint32, payload: seq<byte>): seq<byte> {
    Encode32(seqno) + Encode32(ts) + payload
  }

  function SeqOf(d: seq<byte>): uint32
    requires |d| >= HDRLEN
  {
    Decode32(d[..4])
  }

  function TsOf(d: seq<byte>): uint32
    requires |d| >= HDRLEN
  {
    Decode32(d[4..8])
  }

  /** What a receive buffer of n bytes keeps of a datagram. */
  function Take(d: seq<byte>, n: nat): seq<byte> {
    d[..Min(|d|, n)]
  }

  lemma DatagramFields(seqno: uint32, ts: uint32, payload: seq<byte>, n: nat)
    requires n >= HDRLEN
    ensures var d := Take(Datagram(seqno, ts, payload), n);
            |d| >= HDRLEN && SeqOf(d) == seqno && TsOf(d) == ts && d[HDRLEN..] == Take(payload, n - HDRLEN)
  {
    var d := Take(Datagram(seqno, ts, payload), n);
    assert d == Encode32(seqno) + (Encode32(ts) + Take(payload, n - HDRLEN));
    DecodeEncode32(seqno);
    DecodeEncode32(ts);
    assert d[..4] == Encode32(seqno);
    assert d[4..8] == Encode32(ts);
  }

  // ----- the client's transitions

  function Begin(c: Client, initAt: Timeval, sentAt: Timeval): Client {
    var info := if c.inited then c.info else InitInfo(initAt);
    Client(info.(nrexmt := 0), true, (c.seqno + 1) % W32, Stamp(info.base, sentAt))
  }

  predicate GivesUp(c: Client) {
    c.info.nrexmt >= MAXNREXMT
  }

  function OnAlarm(c: Client, at: Timeval): Client {
    var info := TimedOut(c.info);
    if GivesUp(c) then c.(info := info, inited := false) else c.(info := info, ts := Stamp(info.base, at))
  }

  predicate Matches(c: Client, d: seq<byte>) {
    |d| >= HDRLEN && SeqOf(d) == c.seqno
  }

  function OnMatch(c: Client, d: seq<byte>, at: Timeval): Client
    requires Matches(c, d)
  {
    c.(info := Stopped(c.info, (Stamp(c.info.base, at) - TsOf(d)) % W32))
  }

  // ----- a whole call, as a function of what happens while it waits

  datatype Happening = Alarm(at: Timeval) | Arrive(data: seq<byte>, at: Timeval)

  datatype Outcome = Reply(data: seq<byte>) | NoResponse | StillWaiting

  /** `sent` and `alarms` list the datagrams sent and the timers armed after the first ones. */
  datatype Result = Result(client: Client, outcome: Outcome, sent: seq<seq<byte>>, alarms: seq<int>)

  function Wait(c: Client, payload: seq<byte>, inbytes: nat, hs: seq<Happening>): Result
    decreases |hs|
  {
    if hs == [] then
      Result(c, StillWaiting, [], [])
    else
      match hs[0]
      case Alarm(at) =>
        var c' := OnAlarm(c, at);
        if GivesUp(c) then
          Result(c', NoResponse, [], [])
        else
          Later([Datagram(c'.seqno, c'.ts, payload)], [Round(c'.info.rto)], Wait(c', payload, inbytes, hs[1..]))
      case Arrive(data, at) =>
        var d := Take(data, HDRLEN + inbytes);
        if Matches(c, d) then
          Result(OnMatch(c, d, at), Reply(d[HDRLEN..]), [], [])
        else
          Wait(c, payload, inbytes, hs[1..])
  }

  /** The result r, after more datagrams and timers came first. */
  function Later(sent: seq<seq<byte>>, alarms: seq<int>, r: Result): Result {
    r.(sent := sent + r.sent, alarms := alarms + r.alarms)
  }

  lemma LaterTwice(sent: seq<seq<byte>>, alarms: seq<int>, dgram: seq<byte>, seconds: int, r: Result)
    ensures Later(sent, alarms, Later([dgram], [seconds], r)) == Later(sent + [dgram], alarms + [seconds], r)
  {
    assert sent + ([dgram] + r.sent) == sent + [dgram] + r.sent;
    assert alarms + ([seconds] + r.alarms) == alarms + [seconds] + r.alarms;
  }

  class DgClient {
    const rttinfo: RttInfo
    var rttinit: bool
    var seqno: uint32
    var ts: uint32

    function Value(): Client
      reads this, rttinfo
    {
      Client(rttinfo.Value(), rttinit, seqno, ts)
    }

    constructor ()
      ensures Value() == ZERO_CLIENT && fresh(rttinfo)
    {
      rttinfo := new RttInfo();
      rttinit, seqno, ts := false, 0, 0;
    }

    /** The return of siglongjmp: retransmit, or give up. */
    method Timeout(outbuff: seq<byte>, at: Timeval) returns (gaveUp: bool, dgram: seq<byte>, seconds: int)
      modifies this, rttinfo
      ensures Value() == OnAlarm(old(Value()), at)
      ensures gaveUp == GivesUp(old(Value()))
      ensures !gaveUp ==> dgram == Datagram(Value().seqno, Value().ts, outbuff) && seconds == Round(Value().info.rto)
    {
      var rc := rttinfo.Timeout();
      gaveUp, dgram, seconds := rc < 0, [], 0;
      if gaveUp {
        rttinit := false;
      } else {
        ts := rttinfo.Ts(at);
        dgram := Datagram(seqno, ts, outbuff);
        seconds := rttinfo.Start();
      }
    }

    /** One turn of the receive loop. */
    method Receive(data: seq<byte>, inbytes: nat, at: Timeval) returns (done: bool, reply: seq<byte>)
      modifies this, rttinfo
      ensures var d := Take(data, HDRLEN + inbytes);
              && done == Matches(old(Value()), d)
              && (done ==> Value() == OnMatch(old(Value()), d, at) && reply == d[HDRLEN..])
              && (!done ==> Value() == old(Value()))
    {
      var d := data[..Min(|data|, HDRLEN + inbytes)];
      done := |d| >= HDRLEN && SeqOf(d) == seqno;
      reply := [];
      if done {
        var now := rttinfo.Ts(at);
        rttinfo.Stop((now - TsOf(d)) % W32);
        reply := d[HDRLEN..];
      }
    }

    /** `hs` is what happens to the call: each alarm signal and each datagram received, with the clock read then. */
    method DgSendRecv(outbuff: seq<byte>, inbytes: nat, initAt: Timeval, sentAt: Timeval, hs: seq<Happening>)
      returns (r: Outcome, sent: seq<seq<byte>>, alarms: seq<int>)
      modifies this, rttinfo
      ensures var c := Begin(old(Value()), initAt, sentAt);
              var w := Wait(c, outbuff, inbytes, hs);
              && Value() == w.client
              && r == w.outcome
              && sent == [Datagram(c.seqno, c.ts, outbuff)] + w.sent
              && alarms == [Round(c.info.rto)] + w.alarms
    {
      if !rttinit {
        rttinfo.Init(initAt);
        rttinit := true;
      }
      seqno := (seqno + 1) % W32;
      rttinfo.NewPack();
      ts := rttinfo.Ts(sentAt);
      sent := [Datagram(seqno, ts, outbuff)];
      var seconds := rttinfo.Start();
      alarms := [seconds];
      var again, secs;
      r, again, secs := Await(outbuff, inbytes, hs);
      sent, alarms := sent + again, alarms + secs;
    }

    method Await(outbuff: seq<byte>, inbytes: nat, hs: seq<Happening>)
      returns (r: Outcome, sent: seq<seq<byte>>, alarms: seq<int>)
      modifies this, rttinfo
      ensures Wait(old(Value()), outbuff, inbytes, hs) == Result(Value(), r, sent, alarms)
    {
      ghost var whole := Wait(Value(), outbuff, inbytes, hs);
      sent, alarms := [], [];
      var k := 0;
      while k < |hs|
        invariant 0 <= k <= |hs|
        invariant whole == Later(sent, alarms, Wait(Value(), outbuff, inbytes, hs[k..]))
      {
        assert hs[k..][1..] == hs[k + 1..];
        match hs[k] {
        case Alarm(at) =>
          var gaveUp, dgram, seconds := Timeout(outbuff, at);
          if gaveUp {
            return NoResponse, sent, alarms;
          }
          LaterTwice(sent, alarms, dgram, seconds, Wait(Value(), outbuff, inbytes, hs[k + 1..]));
          sent, alarms := sent + [dgram], alarms + [seconds];
        case Arrive(data, at) =>
          var done, reply := Receive(data, inbytes, at);
          if done {
            return Reply(reply), sent, alarms;
          }
        }
        k := k + 1;
      }
      r := StillWaiting;
    }
  }
}
