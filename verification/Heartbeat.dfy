/** oob/heartbeat_cli/main.cpp and oob/heartbeat_serv/main.cpp: the client sends an out-of-band byte every nsec seconds, the
    server echoes it, and each side leaves when it has not heard the other for too many alarms. */
module Heartbeat {
  // ----- the handlers

  /** nsec, maxnprobes (maxnalarms at the server) and nprobes */
  datatype Counter = Counter(nsec: int, max: int, nprobes: int)

  /** The period is the smallest that is at least one second and as long as asked for; the limit the smallest that is at
      least the period and as high as asked for. */
  function Started(nsec: int, max: int): (c: Counter)
    ensures c.nsec >= 1 && c.nsec >= nsec && c.nsec in {1, nsec}
    ensures c.max >= c.nsec && c.max >= max && c.max in {c.nsec, max}
    ensures c.nprobes == 0
  {
    var n := if nsec < 1 then 1 else nsec;
    Counter(n, if max < n then n else max, 0)
  }

  function Heard(c: Counter): Counter {
    c.(nprobes := 0)
  }

  function Alarmed(c: Counter): Counter {
    c.(nprobes := c.nprobes + 1)
  }

  predicate GivesUp(c: Counter) {
    c.nprobes + 1 > c.max
  }

  class Client {
    var nsec: int
    var maxnprobes: int
    var nprobes: int

    function Value(): Counter
      reads this
    {
      Counter(nsec, maxnprobes, nprobes)
    }

    /** heartbeat_cli; `seconds` is the alarm it arms. */
    constructor (nsecArg: int, maxArg: int)
      ensures Value() == Started(nsecArg, maxArg)
    {
      var n := nsecArg;
      if n < 1 {
        n := 1;
      }
      nsec, maxnprobes, nprobes := n, maxArg, 0;
      if maxArg < n {
        maxnprobes := n;
      }
    }

    method SigUrg()
      modifies this
      ensures Value() == Heard(old(Value()))
    {
      nprobes := 0;
    }

    /** Either exits, or sends a probe and rearms the alarm. */
    method SigAlrm() returns (exits: bool, probe: bool, seconds: int)
      modifies this
      ensures Value() == Alarmed(old(Value()))
      ensures exits == GivesUp(old(Value())) && probe == !exits && (!exits ==> seconds == nsec)
    {
      exits, probe, seconds := false, false, 0;
      nprobes := nprobes + 1;
      if nprobes > maxnprobes {
        exits := true;
        return;
      }
      probe := true;
      seconds := nsec;
    }
  }

  class Server {
    var nsec: int
    var maxnalarms: int
    var nprobes: int

    function Value(): Counter
      reads this
    {
      Counter(nsec, maxnalarms, nprobes)
    }

    constructor (nsecArg: int, maxArg: int)
      ensures Value() == Started(nsecArg, maxArg)
    {
      var n := nsecArg;
      if n < 1 {
        n := 1;
      }
      nsec, maxnalarms, nprobes := n, maxArg, 0;
      if maxArg < n {
        maxnalarms := n;
      }
    }

    /** The byte goes back to the client. */
    method SigUrg() returns (echo: bool)
      modifies this
      ensures Value() == Heard(old(Value())) && echo
    {
      echo := true;
      nprobes := 0;
    }

    /** Either exits or rearms the alarm; nothing is sent. */
    method SigAlrm() returns (exits: bool, seconds: int)
      modifies this
      ensures Value() == Alarmed(old(Value()))
      ensures exits == GivesUp(old(Value())) && (!exits ==> seconds == nsec)
    {
      nprobes := nprobes + 1;
      exits, seconds := nprobes > maxnalarms, nsec;
    }
  }

  // ----- both processes and the connection, in time

  /** `next`: when the alarm goes off. `heard`: when the other side was last heard, or the start (history). */
  datatype Side = Side(c: Counter, next: real, heard: real, gone: bool)

  /** `up`, `down`: when the urgent bytes in flight were sent, oldest first. `due`: by when the next probe reaches the server
      (history). `off`: stdin has ended and the client has turned its alarm off. */
  datatype State = State(now: real, cli: Side, srv: Side, up: seq<real>, down: seq<real>, off: bool, due: real)

  /** One SIGURG may stand for several urgent bytes: a delivery takes the oldest n. */
  datatype Event = Wait(dt: real) | CliAlarm | SrvAlarm | SrvUrgent(n: nat) | CliUrgent(n: nat) | Eof

  /** delay bounds the time from sending an urgent byte to its handler. */
  predicate Punctual(s: State, t: real, delay: real) {
    && (!s.cli.gone && !s.off ==> t <= s.cli.next)
    && (!s.srv.gone ==> t <= s.srv.next)
    && (!s.srv.gone && s.up != [] ==> t <= s.up[0] + delay)
    && (!s.cli.gone && s.down != [] ==> t <= s.down[0] + delay)
  }

  predicate Enabled(s: State, e: Event, delay: real) {
    match e
    case Wait(dt) => dt >= 0.0 && Punctual(s, s.now + dt, delay)
    case CliAlarm => !s.cli.gone && !s.off && s.now == s.cli.next
    case SrvAlarm => !s.srv.gone && s.now == s.srv.next
    case SrvUrgent(n) => !s.srv.gone && 0 < n <= |s.up|
    case CliUrgent(n) => !s.cli.gone && 0 < n <= |s.down|
    case Eof => !s.cli.gone && !s.off
  }

  function Ring(d: Side, now: real): Side {
    if GivesUp(d.c) then d.(c := Alarmed(d.c), gone := true)
    else d.(c := Alarmed(d.c), next := now + d.c.nsec as real)
  }

  function Apply(s: State, e: Event, delay: real): State
    requires Enabled(s, e, delay)
  {
    match e
    case Wait(dt) => s.(now := s.now + dt)
    case CliAlarm => s.(cli := Ring(s.cli, s.now), up := if GivesUp(s.cli.c) then s.up else s.up + [s.now])
    case SrvAlarm => s.(srv := Ring(s.srv, s.now))
    case SrvUrgent(n) =>
      s.(srv := s.srv.(c := Heard(s.srv.c), heard := s.now), up := s.up[n..], down := s.down + [s.now],
         due := s.now + s.cli.c.nsec as real + delay)
    case CliUrgent(n) => s.(cli := s.cli.(c := Heard(s.cli.c), heard := s.now), down := s.down[n..])
    case Eof => s.(off := true)
  }

  /** At time 0 both have started, with periods and limits as Started leaves them, and no probe has been sent yet; the server
      may have counted some alarms by then. */
  predicate IsStart(s: State, delay: real) {
    && s.now == 0.0 && s.up == [] && s.down == [] && !s.off && s.due == s.cli.next + delay
    && !s.cli.gone && s.cli.c.nprobes == 0 && s.cli.heard == 0.0 && 0.0 <= s.cli.next && ClockOk(s.cli, 0.0)
    && !s.srv.gone && 0.0 <= s.srv.next && ClockOk(s.srv, 0.0)
    && s.cli.c.max >= s.cli.c.nsec && s.srv.c.max >= s.srv.c.nsec
  }

  ghost predicate StepAt(ss: seq<State>, es: seq<Event>, delay: real, k: int)
    requires 0 <= k < |es| && |ss| == |es| + 1
  {
    Enabled(ss[k], es[k], delay) && ss[k + 1] == Apply(ss[k], es[k], delay)
  }

  ghost predicate IsRun(ss: seq<State>, es: seq<Event>, delay: real) {
    && |ss| == |es| + 1 && delay >= 0.0
    && IsStart(ss[0], delay)
    && forall k :: 0 <= k < |es| ==> StepAt(ss, es, delay, k)
  }

  // ----- leaving in time

  /** The alarm clock of one side: the next alarm is nprobes + 1 periods after it last heard the other, at the latest. */
  predicate ClockOk(d: Side, now: real) {
    && d.c.nsec >= 1 && 0 <= d.c.nprobes && (!d.gone ==> d.c.nprobes <= d.c.max)
    && d.heard <= now
    && (!d.gone ==> d.next <= now + d.c.nsec as real && d.next <= d.heard + Periods(d.c, d.c.nprobes + 1))
  }

  function Periods(c: Counter, k: int): real {
    (k * c.nsec) as real
  }

  predicate Sorted(q: seq<real>, now: real) {
    (forall i, j :: 0 <= i < j < |q| ==> q[i] <= q[j]) && forall i :: 0 <= i < |q| ==> q[i] <= now
  }

  ghost predicate TimeOk(s: State, delay: real) {
    && ClockOk(s.cli, s.now) && ClockOk(s.srv, s.now)
    && Sorted(s.up, s.now) && Sorted(s.down, s.now)
    && Punctual(s, s.now, delay)
  }

  lemma NextPeriod(c: Counter, k: int)
    ensures Periods(c, k + 1) == Periods(c, k) + c.nsec as real
  {
  }

  /** An alarm or an urgent byte keeps the clock of a side. */
  lemma ClockStep(d: Side, now: real)
    requires ClockOk(d, now) && !d.gone
    ensures now == d.next ==> ClockOk(Ring(d, now), now)
    ensures now <= d.next ==> ClockOk(d.(c := Heard(d.c), heard := now), now)
  {
    NextPeriod(d.c, d.c.nprobes + 1);
    NextPeriod(d.c, 0);
  }

  lemma AlarmKeepsTime(s: State, e: Event, delay: real)
    requires TimeOk(s, delay) && Enabled(s, e, delay) && delay >= 0.0 && (e.CliAlarm? || e.SrvAlarm?)
    ensures TimeOk(Apply(s, e, delay), delay)
  {
    ClockStep(if e.CliAlarm? then s.cli else s.srv, s.now);
  }

  lemma UrgentKeepsTime(s: State, e: Event, delay: real)
    requires TimeOk(s, delay) && Enabled(s, e, delay) && delay >= 0.0 && (e.CliUrgent? || e.SrvUrgent?)
    ensures TimeOk(Apply(s, e, delay), delay)
  {
    ClockStep(if e.CliUrgent? then s.cli else s.srv, s.now);
  }

  lemma TimeStep(s: State, e: Event, delay: real)
    requires TimeOk(s, delay) && Enabled(s, e, delay) && delay >= 0.0
    ensures TimeOk(Apply(s, e, delay), delay)
  {
    match e
    case Wait(_) =>
    case CliAlarm => AlarmKeepsTime(s, e, delay);
    case SrvAlarm => AlarmKeepsTime(s, e, delay);
    case SrvUrgent(_) => UrgentKeepsTime(s, e, delay);
    case CliUrgent(_) => UrgentKeepsTime(s, e, delay);
    case Eof =>
  }

  // ----- nobody leaves while the other is there

  /** The first of the alarms that went unanswered so far. */
  function FirstUnanswered(d: Side): real {
    d.next - Periods(d.c, d.c.nprobes)
  }

  /** The probe of the first unanswered alarm, or its echo, is still in flight. */
  ghost predicate EchoComing(s: State, delay: real) {
    s.cli.c.nprobes > 0 ==>
      var t := FirstUnanswered(s.cli);
      (s.up != [] && s.up[0] <= t) || (s.down != [] && s.down[0] <= t + delay)
  }

  /** The next probe reaches the server by `due`, before the server would give up. */
  ghost predicate ProbeComing(s: State, delay: real) {
    && (if s.up != [] then s.up[0] + delay else s.cli.next + delay) <= s.due
    && s.due < s.srv.next + Periods(s.srv.c, s.srv.c.max - s.srv.c.nprobes)
  }

  /** Settings under which neither side may leave. */
  ghost predicate Patient(s: State, delay: real) {
    && 2.0 * delay < Periods(s.cli.c, s.cli.c.max)
    && s.cli.c.nsec as real + delay < Periods(s.srv.c, s.srv.c.max)
  }

  ghost predicate Together(s: State, delay: real) {
    && !s.cli.gone && !s.srv.gone && !s.off
    && Patient(s, delay) && EchoComing(s, delay) && ProbeComing(s, delay)
  }

  lemma CliAlarmStep(s: State, delay: real)
    requires TimeOk(s, delay) && Together(s, delay) && Enabled(s, CliAlarm, delay) && delay >= 0.0
    ensures Together(Apply(s, CliAlarm, delay), delay)
  {
    var m := s.cli.c.nprobes;
    NextPeriod(s.cli.c, m);
    NextPeriod(s.cli.c, 0);
    assert m > 0 ==> s.now <= FirstUnanswered(s.cli) + 2.0 * delay;
  }

  lemma SrvAlarmStep(s: State, delay: real)
    requires TimeOk(s, delay) && Together(s, delay) && Enabled(s, SrvAlarm, delay) && delay >= 0.0
    ensures Together(Apply(s, SrvAlarm, delay), delay)
  {
    NextPeriod(s.srv.c, s.srv.c.max - s.srv.c.nprobes - 1);
    assert Periods(s.srv.c, 0) == 0.0;
  }

  lemma UrgentStep(s: State, e: Event, delay: real)
    requires TimeOk(s, delay) && Together(s, delay) && Enabled(s, e, delay) && delay >= 0.0
    requires e.SrvUrgent? || e.CliUrgent?
    ensures Together(Apply(s, e, delay), delay)
  {
  }

  lemma TogetherStep(s: State, e: Event, delay: real)
    requires TimeOk(s, delay) && Together(s, delay) && Enabled(s, e, delay) && delay >= 0.0 && !e.Eof?
    ensures Together(Apply(s, e, delay), delay)
  {
    match e
    case Wait(_) =>
    case CliAlarm => CliAlarmStep(s, delay);
    case SrvAlarm => SrvAlarmStep(s, delay);
    case SrvUrgent(_) => UrgentStep(s, e, delay);
    case CliUrgent(_) => UrgentStep(s, e, delay);
  }

  lemma {:induction false} TimeAlong(ss: seq<State>, es: seq<Event>, delay: real, k: nat)
    requires IsRun(ss, es, delay) && k < |ss|
    ensures TimeOk(ss[k], delay)
  {
    if k == 0 {
    } else {
      TimeAlong(ss, es, delay, k - 1);
      assert StepAt(ss, es, delay, k - 1);
      TimeStep(ss[k - 1], es[k - 1], delay);
    }
  }

  // ----- main results

  /** In every run, as long as stdin has not ended: if an echo takes less than maxnprobes periods of the client, the server
      waits longer than one period and one delay, and the first probe finds it there, then nobody ever leaves. */
  lemma {:induction false} NobodyLeaves(ss: seq<State>, es: seq<Event>, delay: real, k: nat)
    requires IsRun(ss, es, delay) && k < |ss|
    requires forall i :: 0 <= i < k ==> !es[i].Eof?
    requires Patient(ss[0], delay)
    requires ss[0].cli.next + delay < ss[0].srv.next + Periods(ss[0].srv.c, ss[0].srv.c.max - ss[0].srv.c.nprobes)
    ensures Together(ss[k], delay)
  {
    if k == 0 {
    } else {
      NobodyLeaves(ss, es, delay, k - 1);
      TimeAlong(ss, es, delay, k - 1);
      assert StepAt(ss, es, delay, k - 1);
      TogetherStep(ss[k - 1], es[k - 1], delay);
    }
  }

  /** Without any assumption on the connection or the other side: each side is gone no later than max + 1 periods after it
      last heard the other, unless the client has turned its alarm off. */
  lemma SilenceIsNoticed(ss: seq<State>, es: seq<Event>, delay: real, k: nat)
    requires IsRun(ss, es, delay) && k < |ss|
    ensures var s := ss[k];
            && (!s.cli.gone && !s.off ==> s.now <= s.cli.heard + ((s.cli.c.max + 1) * s.cli.c.nsec) as real)
            && (!s.srv.gone ==> s.now <= s.srv.heard + ((s.srv.c.max + 1) * s.srv.c.nsec) as real)
  {
    TimeAlong(ss, es, delay, k);
    PeriodsGrow(ss[k].cli.c, ss[k].cli.c.nprobes + 1, ss[k].cli.c.max + 1);
    PeriodsGrow(ss[k].srv.c, ss[k].srv.c.nprobes + 1, ss[k].srv.c.max + 1);
  }

  /** Once stdin has ended (step j) the client's alarm is off: it sends no more probes, and never leaves for silence. */
  lemma {:induction false} ClientStaysAfterEof(ss: seq<State>, es: seq<Event>, delay: real, j: nat, k: nat)
    requires IsRun(ss, es, delay) && j < k < |ss| && es[j].Eof?
    ensures ss[k].off && !ss[k].cli.gone && (k < |es| ==> !es[k].CliAlarm?)
    ensures |ss[k].up| <= |ss[j].up|
  {
    assert StepAt(ss, es, delay, k - 1);
    if j == k - 1 {
    } else {
      ClientStaysAfterEof(ss, es, delay, j, k - 1);
    }
    if k < |es| {
      assert StepAt(ss, es, delay, k);
    }
  }

  lemma PeriodsGrow(c: Counter, j: int, k: int)
    requires c.nsec >= 1
    ensures j <= k ==> Periods(c, j) <= Periods(c, k)
  {
    if j <= k {
      assert (k - j) * c.nsec >= 0;
    }
  }

  // ----- the bound on the delay is exact

  /** With a patient server, no client with this period and limit ever leaves before the end of stdin. */
  ghost predicate Safe(nsec: int, max: int, delay: real) {
    forall ss: seq<State>, es: seq<Event>, k: nat ::
      IsRun(ss, es, delay) && k < |ss| && ss[0].cli.c == Counter(nsec, max, 0) && PatientServer(ss[0], delay)
      && (forall i :: 0 <= i < k ==> !es[i].Eof?)
      ==> !ss[k].cli.gone
  }

  ghost predicate PatientServer(s: State, delay: real) {
    && s.cli.c.nsec as real + delay < Periods(s.srv.c, s.srv.c.max)
    && s.cli.next + delay < s.srv.next + Periods(s.srv.c, s.srv.c.max - s.srv.c.nprobes)
  }

  lemma SafeExactlyWhenEchoesAreFast(nsec: int, max: int, delay: real)
    requires 1 <= nsec <= max && delay >= 0.0
    ensures Safe(nsec, max, delay) <==> 2.0 * delay < (max * nsec) as real
  {
    if 2.0 * delay < Periods(Counter(nsec, max, 0), max) {
      forall ss: seq<State>, es: seq<Event>, k: nat |
        IsRun(ss, es, delay) && k < |ss| && ss[0].cli.c == Counter(nsec, max, 0) && PatientServer(ss[0], delay)
        && (forall i :: 0 <= i < k ==> !es[i].Eof?)
        ensures !ss[k].cli.gone
      {
        NobodyLeaves(ss, es, delay, k);
      }
    } else {
      var far := (((max + 1) * nsec) as real + delay).Floor + 1;
      PeriodsGrow(Counter(nsec, max, 0), 1, max + 1);
      PeriodsGrow(Counter(far, far, 0), 1, far);
      assert Periods(Counter(far, far, 0), 1) == far as real;
      var ss, es := SlowEchoes(Settings(nsec, max, far, far), far as real, delay);
      assert ss[|es|].cli.gone;
    }
  }

  ghost predicate NoEof(es: seq<Event>) {
    forall i :: 0 <= i < |es| ==> !es[i].Eof?
  }

  lemma Extend(ss: seq<State>, es: seq<Event>, delay: real, e: Event) returns (ss': seq<State>, es': seq<Event>)
    requires IsRun(ss, es, delay) && NoEof(es) && Enabled(ss[|es|], e, delay) && !e.Eof?
    ensures IsRun(ss', es', delay) && NoEof(es') && |es'| == |es| + 1
    ensures ss <= ss' && es' == es + [e] && ss'[|es'|] == Apply(ss[|es|], e, delay)
  {
    ss', es' := ss + [Apply(ss[|es|], e, delay)], es + [e];
    forall k | 0 <= k < |es'| ensures StepAt(ss', es', delay, k) {
      if k < |es| {
        assert StepAt(ss, es, delay, k);
      }
    }
  }

  /** Periods and limits of client and server. */
  datatype Settings = Settings(cnsec: int, cmax: int, snsec: int, smax: int) {
    predicate Valid() {
      1 <= cnsec <= cmax && 1 <= snsec <= smax
    }

    function Client(): Counter {
      Counter(cnsec, cmax, 0)
    }

    function Server(): Counter {
      Counter(snsec, smax, 0)
    }
  }

  predicate Has(s: State, v: Settings) {
    s.cli.c.nsec == v.cnsec && s.cli.c.max == v.cmax && s.srv.c.nsec == v.snsec && s.srv.c.max == v.smax
  }

  predicate SomebodyGone(s: State) {
    s.cli.gone || s.srv.gone
  }

  // ----- runs in which nothing is delivered

  /** Both are there, and no urgent byte has to be delivered before limit. */
  ghost predicate Quiet(s: State, delay: real, limit: real) {
    && !SomebodyGone(s) && !s.off && s.now <= limit
    && limit <= (if s.up != [] then s.up[0] else s.cli.next) + delay
    && (s.down != [] ==> limit <= s.down[0] + delay)
  }

  /** From s to t only time has passed, and alarms have gone off. */
  ghost predicate OnlyAlarms(s: State, t: State) {
    && FirstUnanswered(t.cli) == FirstUnanswered(s.cli) && FirstUnanswered(t.srv) == FirstUnanswered(s.srv)
    && (forall v :: Has(s, v) ==> Has(t, v))
    && s.srv.next <= t.srv.next && t.down == s.down && |t.up| - |s.up| == t.cli.c.nprobes - s.cli.c.nprobes
  }

  /** The alarm that comes first, of the client if both come together. */
  function NextAlarm(s: State): Event {
    if s.cli.next <= s.srv.next then CliAlarm else SrvAlarm
  }

  function UntilAlarm(s: State): real {
    (if s.cli.next <= s.srv.next then s.cli.next else s.srv.next) - s.now
  }

  function AlarmsLeft(s: State): int {
    s.cli.c.max - s.cli.c.nprobes + s.srv.c.max - s.srv.c.nprobes + 2
  }

  lemma AlarmInSilence(s: State, delay: real, limit: real)
    requires TimeOk(s, delay) && Quiet(s, delay, limit) && UntilAlarm(s) <= limit - s.now
    ensures Enabled(s, Wait(UntilAlarm(s)), delay)
    ensures var w := Apply(s, Wait(UntilAlarm(s)), delay);
            && Enabled(w, NextAlarm(s), delay)
            && var t := Apply(w, NextAlarm(s), delay);
               && (t.srv.gone ==> s.srv.next <= limit)
               && (SomebodyGone(t) || (OnlyAlarms(s, t) && Quiet(t, delay, limit)))
               && AlarmsLeft(t) < AlarmsLeft(s)
  {
    NextPeriod(s.cli.c, s.cli.c.nprobes);
    NextPeriod(s.srv.c, s.srv.c.nprobes);
  }

  lemma {:induction false} Silence(ss: seq<State>, es: seq<Event>, delay: real, limit: real)
    returns (ss': seq<State>, es': seq<Event>)
    requires IsRun(ss, es, delay) && NoEof(es) && Quiet(ss[|es|], delay, limit)
    ensures IsRun(ss', es', delay) && NoEof(es') && ss <= ss' && es <= es'
    ensures var s, t := ss[|es|], ss'[|es'|];
            && (t.srv.gone ==> s.srv.next <= limit)
            && (SomebodyGone(t) ||
                (OnlyAlarms(s, t) && Quiet(t, delay, limit) && t.now == limit < t.cli.next && limit < t.srv.next))
    decreases AlarmsLeft(ss[|es|])
  {
    hide Punctual, Quiet, OnlyAlarms;
    TimeAlong(ss, es, delay, |es|);
    var s := ss[|es|];
    if UntilAlarm(s) > limit - s.now {
      NoAlarmInSilence(s, delay, limit);
      ss', es' := Extend(ss, es, delay, Wait(limit - s.now));
    } else {
      AlarmInSilence(s, delay, limit);
      ss', es' := Extend(ss, es, delay, Wait(UntilAlarm(s)));
      ss', es' := Extend(ss', es', delay, NextAlarm(s));
      var t := ss'[|es'|];
      if !SomebodyGone(t) {
        TimeAlong(ss', es', delay, |es'|);
        ss', es' := Silence(ss', es', delay, limit);
        OnlyAlarmsTwice(s, t, ss'[|es'|]);
      }
    }
  }

  lemma NoAlarmInSilence(s: State, delay: real, limit: real)
    requires TimeOk(s, delay) && Quiet(s, delay, limit) && UntilAlarm(s) > limit - s.now
    ensures Enabled(s, Wait(limit - s.now), delay)
    ensures var t := Apply(s, Wait(limit - s.now), delay);
            && OnlyAlarms(s, t) && Quiet(t, delay, limit) && !SomebodyGone(t)
            && t.now == limit < t.cli.next && limit < t.srv.next
  {
  }

  lemma OnlyAlarmsTwice(s: State, t: State, u: State)
    requires OnlyAlarms(s, t)
    ensures s.srv.next <= t.srv.next && (OnlyAlarms(t, u) ==> OnlyAlarms(s, u))
  {
  }

  /** A side that is still there after limit has not come to the end of its periods. */
  lemma StillThere(d: Side, now: real, limit: real)
    requires ClockOk(d, now) && !d.gone && limit < d.next
    ensures limit < FirstUnanswered(d) + Periods(d.c, d.c.max)
  {
    PeriodsGrow(d.c, d.c.nprobes, d.c.max);
  }

  /** The client's first probe is sent, answered and heard at once; `next` is when the server's alarm goes off. */
  function Beginning(v: Settings, next: real, delay: real): State {
    State(0.0, Side(v.Client(), 0.0, 0.0, false), Side(v.Server(), next, 0.0, false), [], [], false, delay)
  }

  function Acquainted(v: Settings, next: real, delay: real): State {
    State(0.0, Side(v.Client(), v.cnsec as real, 0.0, false), Side(v.Server(), next, 0.0, false), [], [], false,
          v.cnsec as real + delay)
  }

  lemma FirstExchange(v: Settings, next: real, delay: real) returns (ss: seq<State>, es: seq<Event>)
    requires v.Valid() && 0.0 <= next <= v.snsec as real && delay >= 0.0
    ensures IsRun(ss, es, delay) && NoEof(es) && |es| == 3 && es[1] == SrvUrgent(1)
    ensures ss[0] == Beginning(v, next, delay) && !SomebodyGone(ss[1]) && ss[3] == Acquainted(v, next, delay)
  {
    ss, es := [Beginning(v, next, delay)], [];
    ss, es := Extend(ss, es, delay, CliAlarm);
    assert ss[1].up == [0.0];
    ss, es := Extend(ss, es, delay, SrvUrgent(1));
    assert ss[2].down == [0.0];
    ss, es := Extend(ss, es, delay, CliUrgent(1));
  }

  /** The probe after the first one takes all of the delay, and the server's limit runs out in the meantime. */
  lemma LateProbe(v: Settings, delay: real) returns (ss: seq<State>, es: seq<Event>)
    requires v.Valid() && delay >= 0.0 && v.cnsec as real + delay >= Periods(v.Server(), v.smax)
    ensures IsRun(ss, es, delay) && NoEof(es) && |es| > 1 && es[1] == SrvUrgent(1)
    ensures ss[0] == Beginning(v, 0.0, delay) && !SomebodyGone(ss[1]) && SomebodyGone(ss[|es|])
  {
    ss, es := FirstExchange(v, 0.0, delay);
    var end := Periods(v.Server(), v.smax);
    PeriodsGrow(v.Server(), 0, v.smax);
    ss, es := Silence(ss, es, delay, end);
    TimeAlong(ss, es, delay, |es|);
    if !SomebodyGone(ss[|es|]) {
      assert Has(ss[|es|], v);
      StillThere(ss[|es|].srv, ss[|es|].now, end);
      assert false;
    }
  }

  /** The second probe and its echo take all of the delay, and the client's limit runs out in the meantime. */
  lemma SlowEchoes(v: Settings, next: real, delay: real) returns (ss: seq<State>, es: seq<Event>)
    requires v.Valid() && 0.0 <= next <= v.snsec as real && delay >= 0.0
    requires 2.0 * delay >= Periods(v.Client(), v.cmax)
    ensures IsRun(ss, es, delay) && NoEof(es) && |es| > 1 && es[1] == SrvUrgent(1)
    ensures ss[0] == Beginning(v, next, delay) && !SomebodyGone(ss[1]) && SomebodyGone(ss[|es|])
    ensures next > Periods(v.Client(), v.cmax + 1) ==> ss[|es|].cli.gone
  {
    ss, es := FirstExchange(v, next, delay);
    var n := v.cnsec as real;
    var end := n + Periods(v.Client(), v.cmax);
    NextPeriod(v.Client(), v.cmax);
    PeriodsGrow(v.Client(), 0, v.cmax);
    if n + delay < end {
      ss, es := Silence(ss, es, delay, n + delay);
      if SomebodyGone(ss[|es|]) {
        return;
      }
      assert Has(ss[|es|], v);
      ss, es := EchoLate(ss, es, delay, end);
    }
    ss, es := Silence(ss, es, delay, end);
    TimeAlong(ss, es, delay, |es|);
    if !SomebodyGone(ss[|es|]) {
      assert Has(ss[|es|], v);
      StillThere(ss[|es|].cli, ss[|es|].now, end);
      assert false;
    }
  }

  /** The server answers all probes at the last moment for the first of them. */
  lemma EchoLate(ss: seq<State>, es: seq<Event>, delay: real, end: real) returns (ss': seq<State>, es': seq<Event>)
    requires IsRun(ss, es, delay) && NoEof(es)
    requires var s := ss[|es|];
             && !SomebodyGone(s) && !s.off && |s.up| == s.cli.c.nprobes && s.down == []
             && FirstUnanswered(s.cli) + delay == s.now < s.cli.next
             && s.now < end <= s.now + delay
    ensures IsRun(ss', es', delay) && NoEof(es') && ss <= ss' && es <= es'
    ensures var s, t := ss[|es|], ss'[|es'|];
            && Quiet(t, delay, end) && t.cli == s.cli && t.srv.next == s.srv.next && forall v :: Has(s, v) ==> Has(t, v)
  {
    assert Periods(ss[|es|].cli.c, 0) == 0.0;
    ss', es' := Extend(ss, es, delay, SrvUrgent(|ss[|es|].up|));
  }

  // ----- both bounds are exact

  /** With these settings, once the server has heard the client while both are there, nobody leaves before the end of
      stdin. */
  ghost predicate StayTogether(v: Settings, delay: real) {
    forall ss: seq<State>, es: seq<Event>, j: nat, k: nat ::
      IsRun(ss, es, delay) && Has(ss[0], v) && j < k < |ss| && es[j].SrvUrgent? && !SomebodyGone(ss[j])
      && (forall i :: 0 <= i < k ==> !es[i].Eof?)
      ==> !SomebodyGone(ss[k])
  }

  ghost predicate EchoKept(s: State, v: Settings, delay: real) {
    Has(s, v) && !s.off && (!s.cli.gone ==> EchoComing(s, delay))
  }

  lemma EchoStep(s: State, e: Event, v: Settings, delay: real)
    requires TimeOk(s, delay) && EchoKept(s, v, delay) && Enabled(s, e, delay) && delay >= 0.0 && !e.Eof?
    ensures EchoKept(Apply(s, e, delay), v, delay)
  {
    NextPeriod(s.cli.c, s.cli.c.nprobes);
    NextPeriod(s.cli.c, 0);
    assert Periods(s.cli.c, 0) == 0.0;
  }

  lemma {:induction false} EchoAlong(ss: seq<State>, es: seq<Event>, v: Settings, delay: real, k: nat)
    requires IsRun(ss, es, delay) && Has(ss[0], v) && k < |ss|
    requires forall i :: 0 <= i < k ==> !es[i].Eof?
    ensures EchoKept(ss[k], v, delay)
  {
    if k == 0 {
    } else {
      EchoAlong(ss, es, v, delay, k - 1);
      TimeAlong(ss, es, delay, k - 1);
      assert StepAt(ss, es, delay, k - 1);
      EchoStep(ss[k - 1], es[k - 1], v, delay);
    }
  }

  /** Once the server has heard the client, both are together for good. */
  lemma {:induction false} TogetherSince(ss: seq<State>, es: seq<Event>, v: Settings, delay: real, j: nat, k: nat)
    requires IsRun(ss, es, delay) && Has(ss[0], v) && j < k < |ss| && es[j].SrvUrgent? && !SomebodyGone(ss[j])
    requires forall i :: 0 <= i < k ==> !es[i].Eof?
    requires 2.0 * delay < Periods(v.Client(), v.cmax) && v.cnsec as real + delay < Periods(v.Server(), v.smax)
    ensures Together(ss[k], delay)
  {
    EchoAlong(ss, es, v, delay, k);
    EchoAlong(ss, es, v, delay, k - 1);
    TimeAlong(ss, es, delay, k - 1);
    TimeAlong(ss, es, delay, k);
    assert StepAt(ss, es, delay, k - 1);
    if j == k - 1 {
    } else {
      TogetherSince(ss, es, v, delay, j, k - 1);
      TogetherStep(ss[k - 1], es[k - 1], delay);
    }
  }

  /** Neither bound can be relaxed: the two stay together in all runs if and only if an echo takes less than the client's
      limit and a period with one delay is less than the server's. */
  lemma StayTogetherExactly(v: Settings, delay: real)
    requires v.Valid() && delay >= 0.0
    ensures StayTogether(v, delay) <==>
            2.0 * delay < (v.cmax * v.cnsec) as real && v.cnsec as real + delay < (v.smax * v.snsec) as real
  {
    if 2.0 * delay >= Periods(v.Client(), v.cmax) {
      var ss, es := SlowEchoes(v, 0.0, delay);
      assert Has(ss[0], v) && SomebodyGone(ss[|es|]);
    } else if v.cnsec as real + delay >= Periods(v.Server(), v.smax) {
      var ss, es := LateProbe(v, delay);
      assert Has(ss[0], v) && SomebodyGone(ss[|es|]);
    } else {
      forall ss: seq<State>, es: seq<Event>, j: nat, k: nat |
        IsRun(ss, es, delay) && Has(ss[0], v) && j < k < |ss| && es[j].SrvUrgent? && !SomebodyGone(ss[j])
        && (forall i :: 0 <= i < k ==> !es[i].Eof?)
        ensures !SomebodyGone(ss[k])
      {
        TogetherSince(ss, es, v, delay, j, k);
      }
    }
  }
}
