/** rtt.cpp: the round-trip estimator and the retransmission timer. Floating point is modelled by exact reals. */
module Rtt {
  import opened Bytes

  const RXTMIN := 2.0
  const RXTMAX := 60.0
  const MAXNREXMT := 3

  /** A reading of the wall clock. */
  datatype Timeval = Timeval(sec: nat, usec: nat)

  function Millis(tv: Timeval): nat {
    tv.sec * 1000 + tv.usec / 1000
  }

  /** struct rtt_info */
  datatype Info = Info(rtt: real, srtt: real, rttvar: real, rto: real, nrexmt: int, base: uint32)

  function Abs(x: real): real {
    if x < 0.0 then -x else x
  }

  /** The point of [RXTMIN, RXTMAX] nearest to x. */
  function Clamp(x: real): (r: real)
    ensures RXTMIN <= r <= RXTMAX
    ensures RXTMIN <= x <= RXTMAX ==> r == x
    ensures x < RXTMIN ==> r == RXTMIN
    ensures x > RXTMAX ==> r == RXTMAX
  {
    if x < RXTMIN then RXTMIN else if x > RXTMAX then RXTMAX else x
  }

  function InitInfo(now: Timeval): Info {
    Info(0.0, 0.0, 0.75, 3.0, 0, now.sec % W32)
  }

  /** Milliseconds since the second `base`, as a 32-bit counter. */
  function Stamp(base: uint32, now: Timeval): uint32 {
    ((now.sec - base) * 1000 + now.usec / 1000) % W32
  }

  function Round(rto: real): int {
    (rto + 0.5).Floor
  }

  /** The update rules of section 2.3 of RFC 6298 for one measurement of r seconds (the new rttvar uses the old srtt). */
  function Update(i: Info, r: real): Info {
    var srtt := 0.875 * i.srtt + 0.125 * r;
    var rttvar := 0.75 * i.rttvar + 0.25 * Abs(i.srtt - r);
    i.(rtt := r, srtt := srtt, rttvar := rttvar, rto := Clamp(srtt + 4.0 * rttvar))
  }

  function Stopped(i: Info, ms: uint32): Info {
    Update(i, ms as real / 1000.0)
  }

  function TimedOut(i: Info): Info {
    i.(rto := 2.0 * i.rto, nrexmt := i.nrexmt + 1)
  }

  /** The global the original keeps one of: its fields are updated in place. */
  class RttInfo {
    var rtt: real
    var srtt: real
    var rttvar: real
    var rto: real
    var nrexmt: int
    var base: uint32

    function Value(): Info
      reads this
    {
      Info(rtt, srtt, rttvar, rto, nrexmt, base)
    }

    /** A static struct starts out as all zeros. */
    constructor ()
      ensures Value() == Info(0.0, 0.0, 0.0, 0.0, 0, 0)
    {
      rtt, srtt, rttvar, rto, nrexmt, base := 0.0, 0.0, 0.0, 0.0, 0, 0;
    }

    static method MinMax(x: real) returns (r: real)
      ensures r == Clamp(x)
    {
      r := x;
      if r < RXTMIN {
        r := RXTMIN;
      } else if r > RXTMAX {
        r := RXTMAX;
      }
    }

    method Init(now: Timeval)
      modifies this
      ensures Value() == InitInfo(now).(nrexmt := old(nrexmt))
    {
      base := now.sec % W32;
      rtt := 0.0;
      srtt := 0.0;
      rttvar := 0.75;
      rto := MinMax(srtt + 4.0 * rttvar);
    }

    method Ts(now: Timeval) returns (ts: uint32)
      ensures ts == Stamp(base, now)
    {
      ts := ((now.sec - base) * 1000 + now.usec / 1000) % W32;
    }

    method NewPack()
      modifies this
      ensures Value() == old(Value()).(nrexmt := 0)
    {
      nrexmt := 0;
    }

    method Start() returns (seconds: int)
      ensures seconds == Round(rto)
    {
      seconds := (rto + 0.5).Floor;
    }

    method Stop(ms: uint32)
      modifies this
      ensures Value() == Stopped(old(Value()), ms)
    {
      rtt := ms as real / 1000.0;
      var delta := rtt - srtt;
      srtt := srtt + delta / 8.0;
      if delta < 0.0 {
        delta := -delta;
      }
      rttvar := rttvar + (delta - rttvar) / 4.0;
      rto := MinMax(srtt + 4.0 * rttvar);
    }

    method Timeout() returns (rc: int)
      modifies this
      ensures Value() == TimedOut(old(Value()))
      ensures rc == if old(nrexmt) >= MAXNREXMT then -1 else 0
    {
      rto := rto * 2.0;
      nrexmt := nrexmt + 1;
      rc := if nrexmt > MAXNREXMT then -1 else 0;
    }
  }

  // ----- timestamps

  /** Subtracting two stamps of one base gives the elapsed milliseconds modulo 2^32, wherever the counter wrapped. */
  lemma StampDifference(base: uint32, t0: Timeval, t1: Timeval)
    ensures (Stamp(base, t1) - Stamp(base, t0)) % W32 == (Millis(t1) - Millis(t0)) % W32
  {
    var a, b := Millis(t1) - base * 1000, Millis(t0) - base * 1000;
    assert (a % W32 - b % W32) % W32 == (a - b) % W32 by {
      var qa, qb := a / W32, b / W32;
      assert a % W32 - b % W32 == a - b - W32 * (qa - qb);
      ModShift(a - b, -(qa - qb));
    }
  }

  lemma ModShift(a: int, k: int)
    ensures (a + W32 * k) % W32 == a % W32
  {
    var q := a / W32;
    assert a + W32 * k == W32 * (q + k) + a % W32;
  }

  // ----- the estimator under a sequence of measurements

  function Pow(x: real, n: nat): real {
    if n == 0 then 1.0 else x * Pow(x, n - 1)
  }

  /** The estimator after the measurements rs, oldest first. */
  function Measure(i: Info, rs: seq<real>): Info {
    if rs == [] then i else Update(Measure(i, rs[..|rs| - 1]), rs[|rs| - 1])
  }

  /** Whatever is measured in [0, m], the smoothed time stays in [0, m] and the deviation in [0, max(0.75, m)]. */
  lemma {:induction false} EstimatesStayInRange(now: Timeval, rs: seq<real>, m: real)
    requires 0.0 <= m && forall k :: 0 <= k < |rs| ==> 0.0 <= rs[k] <= m
    ensures var e := Measure(InitInfo(now), rs);
            && 0.0 <= e.srtt <= m
            && 0.0 <= e.rttvar <= (if m < 0.75 then 0.75 else m)
            && RXTMIN <= e.rto <= RXTMAX
  {
    if rs == [] {
    } else {
      EstimatesStayInRange(now, rs[..|rs| - 1], m);
      assert 0.0 <= rs[|rs| - 1] <= m;
    }
  }

  function Repeat(r: real, n: nat): (rs: seq<real>)
    ensures |rs| == n
  {
    seq(n, _ => r)
  }

  /** After n equal measurements, with p = (7/8)^n and q = (3/4)^n, the errors of both estimators are exactly these. */
  ghost predicate ExactErrors(p: real, q: real, e: Info, i: Info, r: real) {
    var d := Abs(i.srtt - r);
    && e.srtt - r == p * (i.srtt - r)
    && Abs(e.srtt - r) == p * d
    && e.rttvar == q * i.rttvar + 2.0 * d * (p - q)
  }

  lemma {:induction false} ConstantMeasurement(i: Info, r: real, n: nat)
    ensures ExactErrors(Pow(0.875, n), Pow(0.75, n), Measure(i, Repeat(r, n)), i, r)
  {
    if n == 0 {
    } else {
      assert Repeat(r, n)[..n - 1] == Repeat(r, n - 1);
      ConstantMeasurement(i, r, n - 1);
      PowPositive(0.875, n - 1);
      OneMoreEqual(Pow(0.875, n - 1), Pow(0.75, n - 1), Measure(i, Repeat(r, n - 1)), i, r);
    }
  }

  lemma AbsScales(p: real, x: real)
    requires p > 0.0
    ensures Abs(p * x) == p * Abs(x)
  {
  }

  lemma OneMoreEqual(p: real, q: real, e: Info, i: Info, r: real)
    requires p > 0.0 && ExactErrors(p, q, e, i, r)
    ensures ExactErrors(0.875 * p, 0.75 * q, Update(e, r), i, r)
  {
    var d, s, e' := Abs(i.srtt - r), i.srtt - r, Update(e, r);
    AbsScales(0.875 * p, s);
    var pd, qd, qv := p * d, q * d, q * i.rttvar;
    assert (0.875 * p) * s == 0.875 * (p * s);
    assert 2.0 * d * (p - q) == 2.0 * pd - 2.0 * qd;
    assert 2.0 * d * (0.875 * p - 0.75 * q) == 1.75 * pd - 1.5 * qd;
    assert (0.75 * q) * i.rttvar == 0.75 * qv;
  }

  lemma {:induction false} PowPositive(x: real, n: nat)
    requires x > 0.0
    ensures Pow(x, n) > 0.0
  {
    if n == 0 {
    } else {
      PowPositive(x, n - 1);
    }
  }

  /** (7/8)^n <= 7/(7 + n), and (3/4)^n <= (7/8)^n. */
  lemma {:induction false} PowDecay(n: nat)
    ensures 0.0 < Pow(0.75, n) <= Pow(0.875, n)
    ensures Pow(0.875, n) * (7.0 + n as real) <= 7.0
  {
    if n == 0 {
    } else {
      PowDecay(n - 1);
      var p, k := Pow(0.875, n - 1), (n - 1) as real;
      assert Pow(0.875, n) * (7.0 + n as real) == 0.875 * (p * (7.0 + k)) + 0.875 * p;
      assert p * (7.0 + k) >= 7.0 * p;
      assert 0.875 * (p * (7.0 + k)) + 0.125 * (p * (7.0 + k)) == p * (7.0 + k);
    }
  }

  lemma ClampIsShort(x: real, y: real)
    ensures Abs(Clamp(x) - Clamp(y)) <= Abs(x - y)
  {
  }

  /** How many equal measurements bring the timeout within eps of its limit. */
  function Settling(i: Info, r: real, eps: real): (n: nat)
    requires eps > 0.0 && i.rttvar >= 0.0
    ensures n as real * eps >= 7.0 * Weight(i, r)
  {
    var x := 7.0 * Weight(i, r) / eps;
    assert x * eps == 7.0 * Weight(i, r);
    assert x < (x.Floor + 1) as real;
    assert ((x.Floor + 1) as real - x) * eps >= 0.0;
    x.Floor + 1
  }

  function Weight(i: Info, r: real): (k: real)
    requires i.rttvar >= 0.0
    ensures k >= 0.0
  {
    9.0 * Abs(i.srtt - r) + 4.0 * i.rttvar
  }

  /** Under equal measurements the retransmission timeout converges to the measured time, clamped to [2, 60]. */
  lemma TimeoutConverges(i: Info, r: real, eps: real, n: nat)
    requires eps > 0.0 && i.rttvar >= 0.0
    requires n >= Settling(i, r, eps)
    ensures Abs(Measure(i, Repeat(r, n)).rto - Clamp(r)) <= eps
  {
    var e := Measure(i, Repeat(r, n));
    assert Abs(e.srtt + 4.0 * e.rttvar - r) <= eps by {
      ErrorBelow(i, r, eps, n);
    }
    LateEnough(i, r, eps, n);
    ClampIsShort(e.srtt + 4.0 * e.rttvar, r);
  }

  lemma ErrorBelow(i: Info, r: real, eps: real, n: nat)
    requires eps > 0.0 && i.rttvar >= 0.0
    requires n >= Settling(i, r, eps)
    ensures var e := Measure(i, Repeat(r, n)); Abs(e.srtt + 4.0 * e.rttvar - r) <= eps
  {
    LateEnough(i, r, eps, n);
    ErrorAt(i, r, n);
    DecayAt(n, Weight(i, r), eps);
  }

  function Scaled(p: real, k: real): real {
    p * k
  }

  lemma ErrorAt(i: Info, r: real, n: nat)
    requires i.rttvar >= 0.0
    ensures var e := Measure(i, Repeat(r, n));
            Abs(e.srtt + 4.0 * e.rttvar - r) <= Scaled(Pow(0.875, n), Weight(i, r))
  {
    ConstantMeasurement(i, r, n);
    PowDecay(n);
    UnclampedError(Pow(0.875, n), Pow(0.75, n), Measure(i, Repeat(r, n)), i, r);
  }

  lemma DecayAt(n: nat, k: real, eps: real)
    requires eps > 0.0 && k >= 0.0 && n as real * eps >= 7.0 * k
    ensures Scaled(Pow(0.875, n), k) <= eps
  {
    PowDecay(n);
    DecayBelow(Pow(0.875, n), k, eps, n as real);
  }

  lemma LateEnough(i: Info, r: real, eps: real, n: nat)
    requires eps > 0.0 && i.rttvar >= 0.0
    requires n >= Settling(i, r, eps)
    ensures n > 0 && n as real * eps >= 7.0 * Weight(i, r)
    ensures var e := Measure(i, Repeat(r, n)); e.rto == Clamp(e.srtt + 4.0 * e.rttvar)
  {
    var s := Settling(i, r, eps);
    assert n as real * eps >= s as real * eps by {
      assert (n - s) as real * eps >= 0.0;
    }
  }

  lemma UnclampedError(p: real, q: real, e: Info, i: Info, r: real)
    requires 0.0 < q <= p && i.rttvar >= 0.0 && ExactErrors(p, q, e, i, r)
    ensures Abs(e.srtt + 4.0 * e.rttvar - r) <= Scaled(p, Weight(i, r))
  {
    var d, v := Abs(i.srtt - r), i.rttvar;
    MulOrder(q, p, d);
    MulOrder(q, p, v);
    assert 2.0 * d * (p - q) == 2.0 * (p * d) - 2.0 * (q * d);
    assert Scaled(p, Weight(i, r)) == 9.0 * (p * d) + 4.0 * (p * v);
    SumOfErrors(e.srtt - r, e.rttvar, p * d, q * d, p * v, q * v);
  }

  lemma MulOrder(q: real, p: real, x: real)
    requires 0.0 < q <= p && x >= 0.0
    ensures 0.0 <= q * x <= p * x
  {
  }

  lemma SumOfErrors(a: real, v: real, pd: real, qd: real, pv: real, qv: real)
    requires 0.0 <= qd <= pd && 0.0 <= qv <= pv
    requires Abs(a) == pd && v == qv + (2.0 * pd - 2.0 * qd)
    ensures Abs(a + 4.0 * v) <= 9.0 * pd + 4.0 * pv
  {
  }

  lemma DecayBelow(p: real, k: real, eps: real, m: real)
    requires eps > 0.0 && k >= 0.0 && m >= 0.0 && p * (7.0 + m) <= 7.0
    requires m * eps >= 7.0 * k
    ensures Scaled(p, k) <= eps
  {
    calc {
      (7.0 + m) * (p * k);
      (p * (7.0 + m)) * k;
    <=
      7.0 * k;
    <=
      (7.0 + m) * eps;
    }
  }
}
