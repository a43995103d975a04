/** server/serv05/main.cpp with server/child05.cpp: a parent accepts connections and passes each descriptor to a free child
    over a stream pipe; the child serves it and writes one byte back. Parent and children interleave freely. */
module ChildPool {
  import opened Sums

  datatype Option<+T> = None | Some(value: T)

  // ----- the parent's table

  /** child_status of every child; a child is free when it is 0 */
  type Table = seq<int>

  predicate IsFree(status: int) {
    status == 0
  }

  /** Index of the first free child, or |t|. */
  function FirstFree(t: Table): (i: nat)
    ensures i <= |t| && (forall j :: 0 <= j < i ==> t[j] != 0) && (i < |t| ==> t[i] == 0)
  {
    FirstWhere(IsFree, t)
  }

  /** t after the children of `ready` with index in [lo, hi) have reported back */
  function Freed(t: Table, ready: set<nat>, lo: nat, hi: nat): (u: Table)
    requires lo <= hi <= |t|
    ensures |u| == |t|
    ensures forall i :: 0 <= i < |t| ==> u[i] == if lo <= i < hi && i in ready then 0 else t[i]
  {
    seq(|t|, i requires 0 <= i < |t| => if lo <= i < hi && i in ready then 0 else t[i])
  }

  /** The children of `ready` not yet looked at when the scan stands at i. */
  function Rest(ready: set<nat>, i: nat): set<nat> {
    set j | j in ready && j >= i
  }

  lemma RestStep(ready: set<nat>, i: nat)
    ensures |Rest(ready, i)| == |Rest(ready, i + 1)| + (if i in ready then 1 else 0)
  {
    if i in ready {
      assert Rest(ready, i) == Rest(ready, i + 1) + {i};
    } else {
      assert Rest(ready, i) == Rest(ready, i + 1);
    }
  }

  lemma RestEmpty(ready: set<nat>, i: nat)
    ensures |Rest(ready, i)| == 0 <==> forall j :: j in ready ==> j < i
  {
    if |Rest(ready, i)| == 0 {
      forall j | j in ready ensures j < i {
        assert j !in Rest(ready, i);
      }
    } else {
      var j :| j in Rest(ready, i);
    }
  }

  class Parent {
    const status: array<int>
    const count: array<int>
    var navail: int

    constructor (nchildren: nat)
      ensures status.Length == count.Length == nchildren == navail && status != count && fresh(status) && fresh(count)
      ensures forall i :: 0 <= i < nchildren ==> status[i] == 0 && count[i] == 0
    {
      status := new int[nchildren](_ => 0);
      count := new int[nchildren](_ => 0);
      navail := nchildren;
    }

    /** What follows accept: choose a free child and mark it busy; `quit` is the call of err_quit. */
    method Assign() returns (i: nat, quit: bool)
      requires status.Length == count.Length && status != count
      modifies this, status, count
      ensures i == FirstFree(old(status[..])) && (quit <==> i == status.Length)
      ensures quit ==> status[..] == old(status[..]) && count[..] == old(count[..]) && navail == old(navail)
      ensures !quit ==>
                && status[..] == old(status[..])[i := 1]
                && count[..] == old(count[..])[i := old(count[i]) + 1]
                && navail == old(navail) - 1
    {
      i := 0;
      while i < status.Length && status[i] != 0
        invariant 0 <= i <= status.Length
        invariant forall j :: 0 <= j < i ==> status[j] != 0
      {
        i := i + 1;
      }
      quit := i == status.Length;
      if !quit {
        status[i] := 1;
        count[i] := count[i] + 1;
        navail := navail - 1;
      }
    }

    /** The second half of a pass: read a byte from every child whose pipe select found readable, with an early exit. */
    method Collect(ready: set<nat>, nsel: nat)
      requires forall i :: i in ready ==> i < status.Length
      requires nsel == |ready| > 0 && status != count
      modifies this, status
      ensures status[..] == Freed(old(status[..]), ready, 0, status.Length)
      ensures navail == old(navail) + |ready|
    {
      var left := nsel;
      var i := 0;
      assert Rest(ready, 0) == ready;
      RestEmpty(ready, 0);
      while i < status.Length
        invariant i < status.Length && left == |Rest(ready, i)| > 0
        invariant navail == old(navail) + nsel - left
        invariant forall j :: 0 <= j < status.Length ==>
                    status[j] == if j < i && j in ready then 0 else old(status[j])
      {
        RestStep(ready, i);
        RestEmpty(ready, i + 1);
        if i in ready {
          status[i] := 0;
          navail := navail + 1;
          left := left - 1;
          if left == 0 {
            return;
          }
        }
        i := i + 1;
      }
      assert false;
    }
  }

  // ----- parent and children as one system

  /** One child and its two pipes: descriptors on their way down, the one being served, bytes on their way up. */
  datatype Child = Child(down: seq<int>, serving: Option<int>, up: nat)

  /** Where the parent stands: in select, after it with the listening socket ready, scanning the children, or gone. */
  datatype Pc =
    | Selecting
    | Accepting(ready: set<nat>, nsel: int)
    | Scanning(i: nat, ready: set<nat>, nsel: int)
    | Quit

  /** accepted, served: histories; `reports`: bytes read back so far */
  datatype State = State(status: Table, navail: int, pc: Pc, children: seq<Child>,
                         accepted: seq<int>, served: seq<int>, reports: nat)

  datatype Event =
    | Select(listen: bool, ready: set<nat>)
    | Accept(fd: int)
    | Scan
    | Receive(i: nat)
    | Finish(i: nat)

  ghost predicate IsStart(s: State) {
    && |s.status| == |s.children| == s.navail
    && (forall i :: 0 <= i < |s.status| ==> s.status[i] == 0 && s.children[i] == Child([], None, 0))
    && s.pc == Selecting && s.accepted == [] && s.served == [] && s.reports == 0
  }

  /** select returns some of the readable descriptors, at least one; the listening socket is not asked about when no child
      is free. A scan step that reads needs a byte in the pipe. */
  predicate Enabled(s: State, e: Event) {
    && |s.status| == |s.children|
    && match e
       case Select(listen, ready) =>
         && s.pc.Selecting?
         && (listen ==> s.navail > 0)
         && (forall i :: i in ready ==> i < |s.children| && s.children[i].up > 0)
         && (listen || ready != {})
       case Accept(_) => s.pc.Accepting?
       case Scan => s.pc.Scanning? && (s.pc.i < |s.children| && s.pc.i in s.pc.ready ==> s.children[s.pc.i].up > 0)
       case Receive(i) => i < |s.children| && s.children[i].serving.None? && s.children[i].down != []
       case Finish(i) => i < |s.children| && s.children[i].serving.Some?
  }

  function Apply(s: State, e: Event): State
    requires Enabled(s, e)
  {
    match e
    case Select(listen, ready) =>
      s.(pc := if listen then Accepting(ready, |ready| + 1) else Scanning(0, ready, |ready|))
    case Accept(fd) =>
      var i := FirstFree(s.status);
      if i == |s.status| then s.(pc := Quit, accepted := s.accepted + [fd])
      else
        var c := s.children[i];
        s.(status := s.status[i := 1], navail := s.navail - 1, accepted := s.accepted + [fd],
           children := s.children[i := c.(down := c.down + [fd])],
           pc := if s.pc.nsel - 1 == 0 then Selecting else Scanning(0, s.pc.ready, s.pc.nsel - 1))
    case Scan =>
      var i := s.pc.i;
      if i >= |s.status| then s.(pc := Selecting)
      else if i !in s.pc.ready then s.(pc := s.pc.(i := i + 1))
      else
        var c := s.children[i];
        s.(status := s.status[i := 0], navail := s.navail + 1, reports := s.reports + 1,
           children := s.children[i := c.(up := c.up - 1)],
           pc := if s.pc.nsel - 1 == 0 then Selecting else s.pc.(i := i + 1, nsel := s.pc.nsel - 1))
    case Receive(i) =>
      var c := s.children[i];
      s.(children := s.children[i := c.(down := c.down[1..], serving := Some(c.down[0]))])
    case Finish(i) =>
      var c := s.children[i];
      s.(children := s.children[i := c.(serving := None, up := c.up + 1)], served := s.served + [c.serving.value])
  }

  ghost predicate StepAt(ss: seq<State>, es: seq<Event>, k: int)
    requires 0 <= k < |es| && |ss| == |es| + 1
  {
    Enabled(ss[k], es[k]) && ss[k + 1] == Apply(ss[k], es[k])
  }

  ghost predicate IsRun(ss: seq<State>, es: seq<Event>) {
    && |ss| == |es| + 1
    && IsStart(ss[0])
    && forall k :: 0 <= k < |es| ==> StepAt(ss, es, k)
  }

  // ----- sums over the children

  function IsBusy(status: int): nat {
    if status != 0 then 1 else 0
  }

  function Busy(t: Table): nat {
    Sum(IsBusy, t)
  }

  lemma {:induction false} AllBusy(t: Table)
    ensures Busy(t) <= |t| && (Busy(t) == |t| <==> FirstFree(t) == |t|)
  {
    if t == [] {
    } else {
      AllBusy(t[1..]);
      assert forall i :: 0 < i < |t| ==> t[i] == t[1..][i - 1];
    }
  }

  function Occurs(fd: int, fds: seq<int>): nat {
    multiset(fds)[fd]
  }

  /** How often fd is on its way to the child or in service there. */
  function Held(fd: int): Child -> nat {
    (c: Child) => Occurs(fd, c.down) + (if c.serving == Some(fd) then 1 else 0)
  }

  function InFlight(fd: int, cs: seq<Child>): nat {
    Sum(Held(fd), cs)
  }

  // ----- the invariant

  /** Tokens of one child: descriptors down, the one in service, bytes up. */
  function Tokens(c: Child): nat {
    |c.down| + (if c.serving.Some? then 1 else 0) + c.up
  }

  ghost predicate TokensOk(s: State) {
    && |s.status| == |s.children|
    && forall i :: 0 <= i < |s.status| ==>
         s.status[i] in {0, 1} && Tokens(s.children[i]) == s.status[i]
  }

  ghost predicate CountsOk(s: State) {
    && s.navail == |s.status| - Busy(s.status)
    && |s.accepted| == s.reports + Busy(s.status)
  }

  ghost predicate FlowOk(s: State) {
    forall fd :: Occurs(fd, s.accepted) == Occurs(fd, s.served) + InFlight(fd, s.children)
  }

  ghost predicate ReadyOk(s: State, ready: set<nat>) {
    forall i :: i in ready ==> i < |s.children| && s.children[i].up > 0
  }

  ghost predicate PassOk(s: State) {
    match s.pc
    case Selecting => true
    case Accepting(ready, nsel) => ReadyOk(s, ready) && s.navail > 0 && nsel == |ready| + 1
    case Scanning(i, ready, nsel) =>
      i < |s.children| && ReadyOk(s, Rest(ready, i)) && nsel == |Rest(ready, i)| > 0
    case Quit => false
  }

  ghost predicate Inv(s: State) {
    TokensOk(s) && CountsOk(s) && FlowOk(s) && PassOk(s)
  }

  lemma AcceptStep(s: State, e: Event)
    requires Inv(s) && e.Accept? && Enabled(s, e)
    ensures TokensOk(Apply(s, e)) && CountsOk(Apply(s, e)) && PassOk(Apply(s, e))
    ensures FirstFree(s.status) < |s.status|
  {
    AllBusy(s.status);
    SumUpdate(IsBusy, s.status, FirstFree(s.status), 1);
    assert Rest(s.pc.ready, 0) == s.pc.ready;
  }

  lemma ScanStep(s: State)
    requires Inv(s) && Enabled(s, Scan)
    ensures TokensOk(Apply(s, Scan)) && CountsOk(Apply(s, Scan)) && PassOk(Apply(s, Scan))
  {
    var i, ready := s.pc.i, s.pc.ready;
    RestStep(ready, i);
    if i in ready {
      SumUpdate(IsBusy, s.status, i, 0);
    }
    RestShrinks(s, ready, i);
  }

  lemma RestShrinks(s: State, ready: set<nat>, i: nat)
    requires ReadyOk(s, Rest(ready, i))
    ensures Rest(ready, i + 1) <= Rest(ready, i) && ReadyOk(s, Rest(ready, i + 1)) && i !in Rest(ready, i + 1)
    ensures |Rest(ready, i + 1)| > 0 ==> i + 1 < |s.children|
  {
    assert Rest(ready, i + 1) <= Rest(ready, i);
    if |Rest(ready, i + 1)| > 0 {
      var j :| j in Rest(ready, i + 1);
      assert j in Rest(ready, i);
    }
  }

  lemma ChildStep(s: State, e: Event)
    requires Inv(s) && (e.Receive? || e.Finish?) && Enabled(s, e)
    ensures TokensOk(Apply(s, e)) && CountsOk(Apply(s, e)) && PassOk(Apply(s, e))
  {
  }

  /** No step loses or duplicates a descriptor. */
  lemma FlowStep(s: State, e: Event)
    requires FlowOk(s) && Enabled(s, e) && (e.Accept? ==> FirstFree(s.status) < |s.status|)
    ensures FlowOk(Apply(s, e))
  {
    var t := Apply(s, e);
    forall fd ensures Occurs(fd, t.accepted) == Occurs(fd, t.served) + InFlight(fd, t.children) {
      assert Occurs(fd, s.accepted) == Occurs(fd, s.served) + InFlight(fd, s.children);
      FlowOfOne(fd, s, e);
    }
  }

  /** What is owed on fd: accepted, but neither served nor in flight. */
  function Owed(fd: int, s: State): int {
    Occurs(fd, s.accepted) - Occurs(fd, s.served) - InFlight(fd, s.children)
  }

  lemma FlowOfAccept(fd: int, s: State, e: Event)
    requires e.Accept? && Enabled(s, e) && FirstFree(s.status) < |s.status|
    ensures Owed(fd, Apply(s, e)) == Owed(fd, s)
  {
    var i := FirstFree(s.status);
    SumUpdate(Held(fd), s.children, i, Apply(s, e).children[i]);
  }

  lemma FlowOfScan(fd: int, s: State)
    requires Enabled(s, Scan)
    ensures Owed(fd, Apply(s, Scan)) == Owed(fd, s)
  {
    var i := s.pc.i;
    if i < |s.status| && i in s.pc.ready {
      SumUpdate(Held(fd), s.children, i, Apply(s, Scan).children[i]);
    }
  }

  lemma FlowOfChild(fd: int, s: State, e: Event)
    requires (e.Receive? || e.Finish?) && Enabled(s, e)
    ensures Owed(fd, Apply(s, e)) == Owed(fd, s)
  {
    SumUpdate(Held(fd), s.children, e.i, Apply(s, e).children[e.i]);
    if e.Receive? {
      var d := s.children[e.i].down;
      assert d == [d[0]] + d[1..];
    }
  }

  lemma FlowOfOne(fd: int, s: State, e: Event)
    requires Enabled(s, e) && (e.Accept? ==> FirstFree(s.status) < |s.status|)
    ensures Owed(fd, Apply(s, e)) == Owed(fd, s)
  {
    match e
    case Select(_, _) =>
    case Accept(_) => FlowOfAccept(fd, s, e);
    case Scan => FlowOfScan(fd, s);
    case Receive(_) => FlowOfChild(fd, s, e);
    case Finish(_) => FlowOfChild(fd, s, e);
  }

  lemma SelectStep(s: State, e: Event)
    requires Inv(s) && e.Select? && Enabled(s, e)
    ensures TokensOk(Apply(s, e)) && CountsOk(Apply(s, e)) && PassOk(Apply(s, e))
  {
    assert Rest(e.ready, 0) == e.ready;
    if e.ready != {} {
      var j :| j in e.ready;
    }
  }

  lemma InvStep(s: State, e: Event)
    requires Inv(s) && Enabled(s, e)
    ensures Inv(Apply(s, e))
  {
    match e {
    case Select(_, _) => SelectStep(s, e);
    case Accept(_) => AcceptStep(s, e);
    case Scan => ScanStep(s);
    case Receive(_) => ChildStep(s, e);
    case Finish(_) => ChildStep(s, e);
    }
    FlowStep(s, e);
  }

  lemma {:induction false} StartInv(s: State)
    requires IsStart(s)
    ensures Inv(s)
  {
    NothingInFlight(s.status, s.children);
  }

  lemma NothingInFlight(t: Table, cs: seq<Child>)
    requires |t| == |cs| && forall i :: 0 <= i < |t| ==> t[i] == 0 && cs[i] == Child([], None, 0)
    ensures Busy(t) == 0 && forall fd :: InFlight(fd, cs) == 0
  {
    SumZero(IsBusy, t);
    forall fd ensures InFlight(fd, cs) == 0 {
      SumZero(Held(fd), cs);
    }
  }

  lemma {:induction false} InvAlong(ss: seq<State>, es: seq<Event>, k: nat)
    requires IsRun(ss, es) && k < |ss|
    ensures Inv(ss[k])
  {
    if k == 0 {
      StartInv(ss[0]);
    } else {
      InvAlong(ss, es, k - 1);
      assert StepAt(ss, es, k - 1);
      InvStep(ss[k - 1], es[k - 1]);
    }
  }

  // ----- main results

  /** A child is marked busy exactly while one token of it exists: its descriptor in the pipe, in service, or its byte
      coming back. A free child has none. */
  lemma BusyMeansExactlyOneToken(ss: seq<State>, es: seq<Event>, k: nat, i: nat)
    requires IsRun(ss, es) && k < |ss| && i < |ss[k].status|
    ensures |ss[k].children| == |ss[k].status|
    ensures ss[k].status[i] == 1 <==> Tokens(ss[k].children[i]) == 1
    ensures ss[k].status[i] == 0 <==> Tokens(ss[k].children[i]) == 0
  {
    InvAlong(ss, es, k);
    assert ss[k].status[i] in {0, 1};
  }

  /** navail counts the free children; every accepted connection is either reported done or held by exactly one busy child,
      and no descriptor is lost or served twice. The "no available children" exit is never taken. */
  lemma PoolBookkeeping(ss: seq<State>, es: seq<Event>, k: nat)
    requires IsRun(ss, es) && k < |ss|
    ensures var s := ss[k];
            && s.navail == |s.status| - Busy(s.status)
            && |s.accepted| == s.reports + Busy(s.status)
            && (forall fd :: Occurs(fd, s.accepted) == Occurs(fd, s.served) + InFlight(fd, s.children))
            && s.pc != Quit
  {
    InvAlong(ss, es, k);
  }

  /** The parent never blocks inside a pass: whatever the children did since select returned, the byte it is about to read
      is there, and a free child is there for the connection it is about to accept. */
  lemma PassNeverBlocks(ss: seq<State>, es: seq<Event>, k: nat)
    requires IsRun(ss, es) && k < |ss|
    ensures ss[k].pc.Scanning? ==> Enabled(ss[k], Scan)
    ensures ss[k].pc.Accepting? ==> FirstFree(ss[k].status) < |ss[k].status|
  {
    InvAlong(ss, es, k);
    var s := ss[k];
    if s.pc.Scanning? && s.pc.i in s.pc.ready {
      assert s.pc.i in Rest(s.pc.ready, s.pc.i);
    }
    AllBusy(s.status);
  }

  ghost predicate CanMove(s: State) {
    exists e :: Enabled(s, e)
  }

  /** Not asking about new connections while all are busy never stops the pool, if it has any children: in every state the
      parent is asking about them, or parent or some child has a step to take. Without children the parent asks about
      nothing, and no step is ever taken. */
  lemma SomebodyCanMove(ss: seq<State>, es: seq<Event>, k: nat)
    requires IsRun(ss, es) && k < |ss|
    ensures |ss[0].status| > 0 <==> (ss[k].pc.Selecting? && ss[k].navail > 0) || CanMove(ss[k])
  {
    InvAlong(ss, es, k);
    SameChildren(ss, es, k);
    if |ss[0].status| > 0 {
      var e := NextMove(ss, es, k);
      assert Enabled(ss[k], e) ==> CanMove(ss[k]);
    } else {
      forall e ensures !Enabled(ss[k], e) {
        NothingToDo(ss[k], e);
      }
    }
  }

  lemma NothingToDo(s: State, e: Event)
    requires Inv(s) && |s.status| == 0
    ensures !Enabled(s, e)
  {
    if e.Select? && e.ready != {} {
      var i :| i in e.ready;
    }
  }

  lemma NextMove(ss: seq<State>, es: seq<Event>, k: nat) returns (e: Event)
    requires IsRun(ss, es) && k < |ss| && |ss[0].status| > 0
    ensures (ss[k].pc.Selecting? && ss[k].navail > 0) || Enabled(ss[k], e)
  {
    InvAlong(ss, es, k);
    PassNeverBlocks(ss, es, k);
    SameChildren(ss, es, k);
    var s := ss[k];
    match s.pc
    case Accepting(_, _) => e := Accept(0);
    case Scanning(_, _, _) => e := Scan;
    case Quit => e := Scan;
    case Selecting =>
      AllBusy(s.status);
      var c := s.children[0];
      assert s.navail <= 0 ==> s.status[0] == 1 && Tokens(c) == 1;
      e := if c.serving.Some? then Finish(0) else if c.down != [] then Receive(0) else Select(false, {0});
  }

  lemma {:induction false} SameChildren(ss: seq<State>, es: seq<Event>, k: nat)
    requires IsRun(ss, es) && k < |ss|
    ensures |ss[k].status| == |ss[k].children| == |ss[0].status|
  {
    if k == 0 {
    } else {
      SameChildren(ss, es, k - 1);
      assert StepAt(ss, es, k - 1);
    }
  }

  /** Each child found readable is heard exactly once in the pass, early exit or not: however the children interleave, the
      scan from state j to state k does to the table what Parent.Collect does. */
  lemma {:induction false} ScanIsCollect(ss: seq<State>, es: seq<Event>, j: nat, k: nat)
    requires IsRun(ss, es) && j <= k < |ss|
    requires forall m :: j <= m < k ==> ss[m].pc.Scanning?
    requires ss[j].pc.Scanning? && (ss[k].pc.Scanning? || ss[k].pc.Selecting?)
    ensures var hi := if ss[k].pc.Scanning? then ss[k].pc.i else |ss[j].status|;
            var pc := ss[j].pc;
            && |ss[k].status| == |ss[j].status| >= hi >= pc.i
            && ss[k].status == Freed(ss[j].status, pc.ready, pc.i, hi)
            && ss[k].navail == ss[j].navail + |Rest(pc.ready, pc.i)| - |Rest(pc.ready, hi)|
            && (ss[k].pc.Scanning? ==> ss[k].pc.ready == pc.ready)
  {
    hide Inv, Freed, Rest;
    InvAlong(ss, es, j);
    ScanBegins(ss[j]);
    if j == k {
    } else {
      ScanIsCollect(ss, es, j, k - 1);
      InvAlong(ss, es, k - 1);
      assert StepAt(ss, es, k - 1);
      if es[k - 1].Scan? {
        ScanMoves(ss[k - 1], ss[j].status, ss[j].pc.i);
      }
    }
  }

  lemma ScanBegins(s: State)
    requires Inv(s) && s.pc.Scanning?
    ensures s.pc.i <= |s.status| && Freed(s.status, s.pc.ready, s.pc.i, s.pc.i) == s.status
  {
  }

  lemma ScanMoves(s: State, t: Table, lo: nat)
    requires Inv(s) && s.pc.Scanning? && Enabled(s, Scan) && |t| == |s.status| && lo <= s.pc.i
    requires s.status == Freed(t, s.pc.ready, lo, s.pc.i)
    ensures var u, i := Apply(s, Scan), s.pc.i;
            var hi := if u.pc.Scanning? then u.pc.i else |t|;
            && i <= hi <= |t|
            && u.status == Freed(t, s.pc.ready, lo, hi)
            && u.navail == s.navail + |Rest(s.pc.ready, i)| - |Rest(s.pc.ready, hi)|
            && (u.pc.Scanning? ==> u.pc.ready == s.pc.ready)
  {
    var i, ready := s.pc.i, s.pc.ready;
    RestStep(ready, i);
    RestEmpty(ready, i + 1);
    RestEmpty(ready, |t|);
    var u := Apply(s, Scan);
    var hi := if u.pc.Scanning? then u.pc.i else |t|;
    assert forall j :: i < j < hi ==> j !in ready;
    FreedFurther(t, ready, lo, i, hi);
  }

  lemma FreedFurther(t: Table, ready: set<nat>, lo: nat, i: nat, hi: nat)
    requires lo <= i < hi <= |t| && forall j :: i < j < hi ==> j !in ready
    ensures var u := Freed(t, ready, lo, i);
            Freed(t, ready, lo, hi) == if i in ready then u[i := 0] else u
  {
  }

  // ----- a whole pass

  /** The child that gets a connection accepted in state s. */
  ghost predicate GetsNext(s: State, c: nat)
    requires c < |s.status|
  {
    s.status[c] == 0 && forall b :: 0 <= b < c ==> s.status[b] != 0
  }

  /** s is s0 after a pass that select began with `listen` and `ready`, and in which the children below hi have been heard:
      they are free, the first free child has got the connection if there was one, and nothing else is changed. */
  ghost predicate PassedUpTo(s0: State, listen: bool, ready: set<nat>, hi: nat, s: State) {
    && |s.status| == |s0.status| >= hi
    && (forall c :: 0 <= c < |s.status| ==>
          s.status[c] == if c in ready && c < hi then 0 else if listen && GetsNext(s0, c) then 1 else s0.status[c])
    && s.reports == s0.reports + |ready| - |Rest(ready, hi)|
    && |s.accepted| == |s0.accepted| + (if listen then 1 else 0)
  }

  ghost predicate InPass(s0: State, listen: bool, ready: set<nat>, s: State) {
    match s.pc
    case Accepting(r, _) =>
      && listen && r == ready && s.status == s0.status && s.reports == s0.reports && |s.accepted| == |s0.accepted|
    case Scanning(i, r, _) => r == ready && PassedUpTo(s0, listen, ready, i, s)
    case Selecting => PassedUpTo(s0, listen, ready, |s.status|, s) && Rest(ready, |s.status|) == {}
    case Quit => false
  }

  lemma SelectInPass(s: State, e: Event)
    requires Inv(s) && e.Select? && Enabled(s, e)
    ensures InPass(s, e.listen, e.ready, Apply(s, e))
  {
    assert Rest(e.ready, 0) == e.ready;
  }

  lemma AcceptInPass(s0: State, listen: bool, ready: set<nat>, s: State, e: Event)
    requires Inv(s) && e.Accept? && Enabled(s, e) && InPass(s0, listen, ready, s)
    ensures InPass(s0, listen, ready, Apply(s, e))
  {
    AllBusy(s.status);
    assert Rest(ready, 0) == ready;
    assert GetsNext(s0, FirstFree(s.status));
    if ready == {} {
      assert Rest(ready, |s.status|) == {};
    }
  }

  lemma ScanInPass(s0: State, listen: bool, ready: set<nat>, s: State)
    requires Inv(s) && Enabled(s, Scan) && InPass(s0, listen, ready, s)
    ensures InPass(s0, listen, ready, Apply(s, Scan))
  {
    var i := s.pc.i;
    RestStep(ready, i);
    RestEmpty(ready, i + 1);
    RestEmpty(ready, |s.status|);
  }

  lemma ChildInPass(s0: State, listen: bool, ready: set<nat>, s: State, e: Event)
    requires (e.Receive? || e.Finish?) && Enabled(s, e) && InPass(s0, listen, ready, s)
    ensures InPass(s0, listen, ready, Apply(s, e))
  {
  }

  lemma {:induction false} PassAlong(ss: seq<State>, es: seq<Event>, j: nat, k: nat)
    requires IsRun(ss, es) && j < k < |ss| && es[j].Select?
    requires forall m :: j < m < k ==> !ss[m].pc.Selecting?
    ensures InPass(ss[j], es[j].listen, es[j].ready, ss[k])
  {
    hide Inv, InPass, Apply;
    InvAlong(ss, es, k - 1);
    assert StepAt(ss, es, k - 1);
    if j == k - 1 {
      SelectInPass(ss[j], es[j]);
    } else {
      PassAlong(ss, es, j, k - 1);
      match es[k - 1]
      case Accept(_) => AcceptInPass(ss[j], es[j].listen, es[j].ready, ss[k - 1], es[k - 1]);
      case Scan => ScanInPass(ss[j], es[j].listen, es[j].ready, ss[k - 1]);
      case Receive(_) => ChildInPass(ss[j], es[j].listen, es[j].ready, ss[k - 1], es[k - 1]);
      case Finish(_) => ChildInPass(ss[j], es[j].listen, es[j].ready, ss[k - 1], es[k - 1]);
    }
  }

  /** A whole pass of the parent, from select (state j) until it is in select again (state k), whatever the children do
      meanwhile: every child that select found readable is free, and reported once, also if a connection was accepted
      first; that went to the first child free at select; and no other child's status has changed. */
  lemma WholePass(ss: seq<State>, es: seq<Event>, j: nat, k: nat)
    requires IsRun(ss, es) && j < k < |ss| && es[j].Select? && ss[k].pc.Selecting?
    requires forall m :: j < m < k ==> !ss[m].pc.Selecting?
    ensures var s, t, listen, ready := ss[j], ss[k], es[j].listen, es[j].ready;
            && |t.status| == |s.status|
            && (forall c :: 0 <= c < |s.status| ==>
                  t.status[c] == if c in ready then 0 else if listen && GetsNext(s, c) then 1 else s.status[c])
            && t.reports == s.reports + |ready| && |t.accepted| == |s.accepted| + (if listen then 1 else 0)
            && t.navail == s.navail + |ready| - (if listen then 1 else 0)
  {
    PassAlong(ss, es, j, k);
    InvAlong(ss, es, j);
    InvAlong(ss, es, k);
  }

  // ----- without new connections, the pool drains

  /** What n children make of one of theirs: a descriptor in the pipe has further to go than one in service, and a byte
      on its way back may cost the parent a whole pass. */
  function Load(n: nat): Child -> nat {
    (c: Child) => (n + 4) * |c.down| + (if c.serving.Some? then n + 3 else 0) + (n + 2) * c.up
  }

  function StepsInPass(n: nat, pc: Pc): nat {
    match pc
    case Selecting => n + 2
    case Accepting(_, _) => 2 * n + 7
    case Scanning(i, _, _) => if i <= n then n + 1 - i else 0
    case Quit => 0
  }

  function WorkLeft(s: State): nat {
    Sum(Load(|s.children|), s.children) + StepsInPass(|s.children|, s.pc)
  }

  predicate AsksForMore(e: Event) {
    e.Select? && e.listen
  }

  /** One token more or less. */
  lemma Distribute(n: nat, k: nat)
    ensures n * (k + 1) == n * k + n
  {
  }

  lemma ChildGetsOn(n: nat, c: Child)
    ensures c.serving.None? && c.down != [] ==>
              Load(n)(c.(down := c.down[1..], serving := Some(c.down[0]))) == Load(n)(c) - 1
    ensures c.serving.Some? ==> Load(n)(c.(serving := None, up := c.up + 1)) == Load(n)(c) - 1
  {
    Distribute(n + 2, c.up);
    if c.down != [] {
      Distribute(n + 4, |c.down| - 1);
    }
  }

  lemma ChildUsesUpWork(s: State, e: Event)
    requires (e.Receive? || e.Finish?) && Enabled(s, e)
    ensures WorkLeft(Apply(s, e)) < WorkLeft(s)
  {
    hide Load;
    var n := |s.children|;
    SumUpdate(Load(n), s.children, e.i, Apply(s, e).children[e.i]);
    ChildGetsOn(n, s.children[e.i]);
  }

  lemma AcceptUsesUpWork(s: State, e: Event)
    requires Inv(s) && e.Accept? && Enabled(s, e)
    ensures WorkLeft(Apply(s, e)) < WorkLeft(s)
  {
    AllBusy(s.status);
    var n, i := |s.children|, FirstFree(s.status);
    SumUpdate(Load(n), s.children, i, Apply(s, e).children[i]);
    Distribute(n + 4, |s.children[i].down|);
  }

  lemma ScanUsesUpWork(s: State)
    requires Inv(s) && Enabled(s, Scan)
    ensures WorkLeft(Apply(s, Scan)) < WorkLeft(s)
  {
    var n, i := |s.children|, s.pc.i;
    if i in s.pc.ready {
      SumUpdate(Load(n), s.children, i, Apply(s, Scan).children[i]);
      Distribute(n + 2, s.children[i].up - 1);
    }
  }

  /** Every step of parent or child uses up work, unless it finds a new connection. */
  lemma StepUsesUpWork(s: State, e: Event)
    requires Inv(s) && Enabled(s, e) && !AsksForMore(e)
    ensures WorkLeft(Apply(s, e)) < WorkLeft(s)
  {
    match e
    case Select(_, _) =>
    case Accept(_) => AcceptUsesUpWork(s, e);
    case Scan => ScanUsesUpWork(s);
    case Receive(_) => ChildUsesUpWork(s, e);
    case Finish(_) => ChildUsesUpWork(s, e);
  }

  /** From state j of a run on, if no new connection is found, at most WorkLeft steps follow. */
  lemma {:induction false} PoolComesToRest(ss: seq<State>, es: seq<Event>, j: nat, k: nat)
    requires IsRun(ss, es) && j <= k < |ss|
    requires forall i :: j <= i < k ==> !AsksForMore(es[i])
    ensures WorkLeft(ss[k]) + (k - j) <= WorkLeft(ss[j])
  {
    if j == k {
    } else {
      PoolComesToRest(ss, es, j, k - 1);
      InvAlong(ss, es, k - 1);
      assert StepAt(ss, es, k - 1);
      StepUsesUpWork(ss[k - 1], es[k - 1]);
    }
  }

  /** And when no such step is left, all children are free and every accepted descriptor has been served, as often as it
      was accepted, and reported back. */
  lemma AtRestAllIsServed(ss: seq<State>, es: seq<Event>, k: nat)
    requires IsRun(ss, es) && k < |ss|
    requires forall e :: Enabled(ss[k], e) ==> AsksForMore(e)
    ensures var s := ss[k];
            && s.pc.Selecting? && s.navail == |s.status|
            && (forall i :: 0 <= i < |s.status| ==> s.status[i] == 0)
            && multiset(s.served) == multiset(s.accepted) && s.reports == |s.accepted|
  {
    InvAlong(ss, es, k);
    PassNeverBlocks(ss, es, k);
    var s := ss[k];
    assert !Enabled(s, Scan) && !Enabled(s, Accept(0));
    forall i | 0 <= i < |s.status| ensures s.status[i] == 0 && s.children[i] == Child([], None, 0) {
      assert !Enabled(s, Receive(i)) && !Enabled(s, Finish(i)) && !Enabled(s, Select(false, {i}));
      assert s.children[i].down == [];
    }
    NothingInFlight(s.status, s.children);
    forall fd ensures multiset(s.served)[fd] == multiset(s.accepted)[fd] {
      assert Occurs(fd, s.accepted) == Occurs(fd, s.served) + InFlight(fd, s.children);
    }
  }
}
