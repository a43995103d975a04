/** server/serv08/main.cpp: an acceptor hands connected descriptors to worker threads through a ring under one mutex and
    one condition variable. Each critical section is one step. */
module WorkQueue {
  import opened Sums

  const MAXNCLI := 32

  // ----- the ring

  /** clifd, iget and iput */
  datatype Ring = Ring(slots: seq<int>, iget: nat, iput: nat) {
    predicate Valid() {
      |slots| == MAXNCLI && iget < MAXNCLI && iput < MAXNCLI
    }

    /** Descriptors put and not yet taken, oldest first. */
    function Pending(): seq<int>
      requires Valid()
    {
      if iget <= iput then slots[iget..iput] else slots[iget..] + slots[..iput]
    }
  }

  function Next(i: nat): nat {
    if i + 1 == MAXNCLI then 0 else i + 1
  }

  function Put(r: Ring, fd: int): (t: Ring)
    requires r.Valid()
    ensures t.Valid()
  {
    Ring(r.slots[r.iput := fd], r.iget, Next(r.iput))
  }

  function Get(r: Ring): (t: Ring)
    requires r.Valid()
    ensures t.Valid()
  {
    r.(iget := Next(r.iget))
  }

  lemma RingSize(r: Ring)
    requires r.Valid()
    ensures |r.Pending()| < MAXNCLI
    ensures r.iget == r.iput <==> r.Pending() == []
    ensures Next(r.iput) == r.iget <==> |r.Pending()| == MAXNCLI - 1
  {
  }

  /** A put that leaves iput != iget appends to the queue: no slot still pending is overwritten. */
  lemma PutAppends(r: Ring, fd: int)
    requires r.Valid() && |r.Pending()| < MAXNCLI - 1
    ensures Put(r, fd).Pending() == r.Pending() + [fd]
  {
    var t := Put(r, fd);
    if r.iget <= r.iput && t.iput == 0 {
      assert t.slots[r.iget..] == r.slots[r.iget..r.iput] + [fd];
    } else if r.iput < r.iget {
      assert t.slots[r.iget..] == r.slots[r.iget..] && t.slots[..t.iput] == r.slots[..r.iput] + [fd];
    }
  }

  lemma GetRemovesOldest(r: Ring)
    requires r.Valid() && r.Pending() != []
    ensures r.Pending() == [r.slots[r.iget]] + Get(r).Pending()
  {
  }

  /** The data both sides of the lock work on. */
  class Shared {
    const clifd: array<int>
    var iget: nat
    var iput: nat

    function Value(): Ring
      reads this, clifd
    {
      Ring(clifd[..], iget, iput)
    }

    constructor ()
      ensures Value().Valid() && Value().Pending() == [] && fresh(clifd)
    {
      clifd := new int[MAXNCLI];
      iget, iput := 0, 0;
    }

    /** The acceptor's critical section, up to notify_one; `quit` is the call of err_quit. */
    method Enqueue(connfd: int) returns (quit: bool)
      requires Value().Valid()
      modifies this, clifd
      ensures Value() == Put(old(Value()), connfd)
      ensures quit <==> |old(Value().Pending())| == MAXNCLI - 1
      ensures !quit ==> Value().Pending() == old(Value().Pending()) + [connfd]
    {
      RingSize(Value());
      if |Value().Pending()| < MAXNCLI - 1 {
        PutAppends(Value(), connfd);
      }
      clifd[iput] := connfd;
      iput := iput + 1;
      if iput == MAXNCLI {
        iput := 0;
      }
      quit := iput == iget;
    }

    /** A worker's critical section: `wait` is the call of cv.wait. */
    method Dequeue() returns (wait: bool, connfd: int)
      requires Value().Valid()
      modifies this
      ensures wait <==> old(Value().Pending()) == []
      ensures wait ==> Value() == old(Value())
      ensures !wait ==> Value() == Get(old(Value())) && old(Value().Pending()) == [connfd] + Value().Pending()
    {
      RingSize(Value());
      wait := iget == iput;
      connfd := -1;
      if !wait {
        GetRemovesOldest(Value());
        connfd := clifd[iget];
        iget := iget + 1;
        if iget == MAXNCLI {
          iget := 0;
        }
      }
    }
  }

  // ----- the threads

  /** Where a worker stands: about to lock, in cv.wait, woken but not yet holding the lock, or serving the descriptor it
      took as number `turn` (history). */
  datatype Worker = Ready | Waiting | Woken | Serving(fd: int, turn: nat)

  /** `accepted` and `taken` are histories. */
  datatype State = State(ring: Ring, workers: seq<Worker>, quit: bool, accepted: seq<int>, taken: seq<int>)

  const NOBODY := -1

  /** Accept(fd, w): the whole critical section of the acceptor, whose notify_one reaches worker w. */
  datatype Event = Accept(fd: int, notified: int) | Lock(w: nat) | Done(w: nat) | Spurious(w: nat)

  ghost predicate IsStart(s: State) {
    && s.ring.Valid() && s.ring.Pending() == []
    && !s.quit && s.accepted == [] && s.taken == []
    && forall w :: 0 <= w < |s.workers| ==> s.workers[w] == Ready
  }

  /** notify_one wakes one of the waiting threads, whichever, if there are any. */
  ghost predicate MayNotify(workers: seq<Worker>, w: int) {
    if w == NOBODY then Waiting !in workers else 0 <= w < |workers| && workers[w] == Waiting
  }

  ghost predicate Enabled(s: State, e: Event) {
    && s.ring.Valid() && !s.quit
    && match e
       case Accept(_, w) => MayNotify(s.workers, w)
       case Lock(w) => w < |s.workers| && (s.workers[w] == Ready || s.workers[w] == Woken)
       case Done(w) => w < |s.workers| && s.workers[w].Serving?
       case Spurious(w) => w < |s.workers| && s.workers[w] == Waiting
  }

  ghost function Apply(s: State, e: Event): State
    requires Enabled(s, e)
  {
    match e
    case Accept(fd, w) =>
      var t := s.(ring := Put(s.ring, fd), accepted := s.accepted + [fd]);
      if t.ring.iput == t.ring.iget then t.(quit := true)
      else if w == NOBODY then t
      else t.(workers := s.workers[w := Woken])
    case Lock(w) =>
      if s.ring.iget == s.ring.iput then
        s.(workers := s.workers[w := Waiting])
      else
        var fd := s.ring.slots[s.ring.iget];
        s.(ring := Get(s.ring), workers := s.workers[w := Serving(fd, |s.taken|)], taken := s.taken + [fd])
    case Done(w) => s.(workers := s.workers[w := Ready])
    case Spurious(w) => s.(workers := s.workers[w := Woken])
  }

  ghost predicate StepAt(ss: seq<State>, es: seq<Event>, k: int)
    requires 0 <= k < |es| && |ss| == |es| + 1
  {
    Enabled(ss[k], es[k]) && ss[k + 1] == Apply(ss[k], es[k])
  }

  ghost predicate IsRun(ss: seq<State>, es: seq<Event>) {
    && |ss| == |es| + 1
    && IsStart(ss[0])
    && forall k :: 0 <= k < |es| ==> StepAt(ss, es, k)
  }

  // ----- counting workers

  function IsWoken(w: Worker): nat {
    if w == Woken then 1 else 0
  }

  function Wakes(ws: seq<Worker>): nat {
    Sum(IsWoken, ws)
  }

  lemma SomeWoken(ws: seq<Worker>)
    ensures Wakes(ws) > 0 <==> Woken in ws
  {
    SumZero(IsWoken, ws);
  }

  // ----- the invariant

  ghost predicate QueueOk(s: State) {
    && s.ring.Valid()
    && (!s.quit ==> s.taken + s.ring.Pending() == s.accepted)
  }

  ghost predicate TurnsOk(s: State) {
    && (forall w :: 0 <= w < |s.workers| && s.workers[w].Serving? ==>
          s.workers[w].turn < |s.taken| && s.workers[w].fd == s.taken[s.workers[w].turn])
    && (forall v, w :: 0 <= v < w < |s.workers| && s.workers[v].Serving? && s.workers[w].Serving? ==>
          s.workers[v].turn != s.workers[w].turn)
  }

  /** If some worker sleeps, every pending descriptor has a woken worker of its own. */
  ghost predicate NoLostWakeup(s: State)
    requires s.ring.Valid()
  {
    !s.quit && Waiting in s.workers ==> |s.ring.Pending()| <= Wakes(s.workers)
  }

  ghost predicate Inv(s: State) {
    QueueOk(s) && TurnsOk(s) && NoLostWakeup(s)
  }

  lemma AcceptKeepsQueue(s: State, e: Event)
    requires QueueOk(s) && e.Accept? && Enabled(s, e)
    ensures QueueOk(Apply(s, e))
  {
    hide Ring.Pending;
    RingSize(s.ring);
    RingSize(Put(s.ring, e.fd));
    if |s.ring.Pending()| < MAXNCLI - 1 {
      PutAppends(s.ring, e.fd);
    }
  }

  lemma LockKeepsQueue(s: State, e: Event)
    requires QueueOk(s) && e.Lock? && Enabled(s, e)
    ensures QueueOk(Apply(s, e))
  {
    hide Ring.Pending;
    RingSize(s.ring);
    if s.ring.Pending() != [] {
      GetRemovesOldest(s.ring);
    }
  }

  lemma QueueStep(s: State, e: Event)
    requires QueueOk(s) && Enabled(s, e)
    ensures QueueOk(Apply(s, e))
  {
    match e
    case Accept(_, _) => AcceptKeepsQueue(s, e);
    case Lock(_) => LockKeepsQueue(s, e);
    case Done(_) =>
    case Spurious(_) =>
  }

  lemma TurnsStep(s: State, e: Event)
    requires TurnsOk(s) && Enabled(s, e)
    ensures TurnsOk(Apply(s, e))
  {
  }

  lemma NoLostWakeupStep(s: State, e: Event)
    requires QueueOk(s) && NoLostWakeup(s) && Enabled(s, e)
    ensures Apply(s, e).ring.Valid() && NoLostWakeup(Apply(s, e))
  {
    RingSize(s.ring);
    var t := Apply(s, e);
    match e
    case Accept(fd, w) =>
      if |s.ring.Pending()| < MAXNCLI - 1 {
        PutAppends(s.ring, fd);
      }
      if w != NOBODY {
        SumUpdate(IsWoken, s.workers, w, Woken);
      }
    case Lock(w) =>
      SumUpdate(IsWoken, s.workers, w, t.workers[w]);
      if s.ring.Pending() != [] {
        GetRemovesOldest(s.ring);
        assert Waiting in t.workers ==> Waiting in s.workers;
      }
    case Done(w) =>
      SumUpdate(IsWoken, s.workers, w, Ready);
      assert Waiting in t.workers ==> Waiting in s.workers;
    case Spurious(w) =>
      SumUpdate(IsWoken, s.workers, w, Woken);
      assert Waiting in t.workers ==> Waiting in s.workers;
  }

  lemma {:induction false} InvAlong(ss: seq<State>, es: seq<Event>, k: nat)
    requires IsRun(ss, es) && k < |ss|
    ensures Inv(ss[k])
  {
    if k == 0 {
    } else {
      InvAlong(ss, es, k - 1);
      assert StepAt(ss, es, k - 1);
      QueueStep(ss[k - 1], es[k - 1]);
      TurnsStep(ss[k - 1], es[k - 1]);
      NoLostWakeupStep(ss[k - 1], es[k - 1]);
    }
  }

  // ----- main results

  /** First in, first out, each descriptor handed over once: what was taken, then what is pending, is what was accepted;
      and threads that serve at the same time hold different turns of that sequence. */
  lemma HandOffIsFifoAndExactlyOnce(ss: seq<State>, es: seq<Event>, k: nat)
    requires IsRun(ss, es) && k < |ss|
    ensures var s := ss[k];
            && s.ring.Valid() && |s.ring.Pending()| <= 31
            && (!s.quit ==> s.taken + s.ring.Pending() == s.accepted)
            && (forall w :: 0 <= w < |s.workers| && s.workers[w].Serving? ==>
                  s.workers[w].turn < |s.taken| && s.workers[w].fd == s.taken[s.workers[w].turn])
            && (forall v, w :: 0 <= v < w < |s.workers| && s.workers[v].Serving? && s.workers[w].Serving? ==>
                  s.workers[v].turn != s.workers[w].turn)
  {
    InvAlong(ss, es, k);
    RingSize(ss[k].ring);
  }

  /** The server quits exactly when a descriptor arrives while 31 are pending. */
  lemma QuitsExactlyOnOverflow(ss: seq<State>, es: seq<Event>, k: nat)
    requires IsRun(ss, es) && k < |es|
    ensures ss[k].ring.Valid()
    ensures ss[k + 1].quit <==> es[k].Accept? && |ss[k].ring.Pending()| == 31
  {
    InvAlong(ss, es, k);
    RingSize(ss[k].ring);
    assert StepAt(ss, es, k);
  }

  /** In every interleaving, with spurious wake-ups and items taken by late arrivals: while a worker still sleeps, every
      pending descriptor is matched by a woken worker. So pending work always finds a worker able to run, unless all serve. */
  lemma PendingWorkHasAWorker(ss: seq<State>, es: seq<Event>, k: nat)
    requires IsRun(ss, es) && k < |ss| && !ss[k].quit
    ensures var s := ss[k];
            && s.ring.Valid()
            && (Waiting in s.workers ==> |s.ring.Pending()| <= Wakes(s.workers))
            && (s.ring.Pending() != [] ==>
                  Ready in s.workers || Woken in s.workers || forall w :: w in s.workers ==> w.Serving?)
  {
    InvAlong(ss, es, k);
    SomeWoken(ss[k].workers);
  }

  // ----- once arrivals stop, the queue drains

  function Weight(w: Worker): nat {
    match w
    case Ready => 2
    case Waiting => 0
    case Woken => 2
    case Serving(_, _) => 3
  }

  function Weights(ws: seq<Worker>): nat {
    Sum(Weight, ws)
  }

  ghost function WorkLeft(s: State): nat
    requires s.ring.Valid()
  {
    2 * |s.ring.Pending()| + Weights(s.workers)
  }

  /** Every step a worker takes by itself uses up work. */
  lemma WorkerStepsUseUpWork(s: State, e: Event)
    requires s.ring.Valid() && Enabled(s, e) && (e.Lock? || e.Done?)
    ensures Apply(s, e).ring.Valid() && WorkLeft(Apply(s, e)) < WorkLeft(s)
  {
    RingSize(s.ring);
    SumUpdate(Weight, s.workers, e.w, Apply(s, e).workers[e.w]);
    if e.Lock? && s.ring.Pending() != [] {
      GetRemovesOldest(s.ring);
    }
  }

  function SpuriousSteps(es: seq<Event>, j: nat, k: nat): nat
    requires j <= k <= |es|
    decreases k - j
  {
    if j == k then 0 else SpuriousSteps(es, j, k - 1) + (if es[k - 1].Spurious? then 1 else 0)
  }

  /** From state j of a run on, if no connection comes in, at most WorkLeft steps follow, and three more for every spurious
      wake-up. */
  lemma {:induction false} WorkersComeToRest(ss: seq<State>, es: seq<Event>, j: nat, k: nat)
    requires IsRun(ss, es) && j <= k < |ss|
    requires forall i :: j <= i < k ==> !es[i].Accept?
    ensures ss[j].ring.Valid() && ss[k].ring.Valid()
    ensures WorkLeft(ss[k]) + (k - j) <= WorkLeft(ss[j]) + 3 * SpuriousSteps(es, j, k)
  {
    InvAlong(ss, es, j);
    if j == k {
    } else {
      WorkersComeToRest(ss, es, j, k - 1);
      InvAlong(ss, es, k);
      assert StepAt(ss, es, k - 1);
      assert !es[k - 1].Accept?;
      if es[k - 1].Spurious? {
        SumUpdate(Weight, ss[k - 1].workers, es[k - 1].w, Woken);
      } else {
        WorkerStepsUseUpWork(ss[k - 1], es[k - 1]);
      }
    }
  }

  lemma {:induction false} SameWorkers(ss: seq<State>, es: seq<Event>, k: nat)
    requires IsRun(ss, es) && k < |ss|
    ensures |ss[k].workers| == |ss[0].workers| && (|ss[0].workers| == 0 ==> ss[k].taken == [])
  {
    if k == 0 {
    } else {
      SameWorkers(ss, es, k - 1);
      assert StepAt(ss, es, k - 1);
    }
  }

  /** And when no worker can move any more, all of them wait, and every accepted descriptor has been taken and served; unless
      the server was started with no worker at all: then none ever is. */
  lemma AtRestNothingIsPending(ss: seq<State>, es: seq<Event>, k: nat)
    requires IsRun(ss, es) && k < |ss| && !ss[k].quit
    requires forall w: nat :: !Enabled(ss[k], Lock(w)) && !Enabled(ss[k], Done(w))
    ensures forall w :: w in ss[k].workers ==> w == Waiting
    ensures ss[k].taken == if |ss[0].workers| > 0 then ss[k].accepted else []
  {
    InvAlong(ss, es, k);
    SameWorkers(ss, es, k);
    var s := ss[k];
    SomeWoken(s.workers);
    forall w: nat | w < |s.workers| ensures s.workers[w] == Waiting {
      assert !Enabled(s, Lock(w)) && !Enabled(s, Done(w));
    }
    if |s.workers| > 0 {
      assert s.workers[0] == Waiting;
      assert s.ring.Pending() == [];
    }
  }
}
