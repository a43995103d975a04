/** StringEcho4_shutdown/Server/main.cpp: an echo server around select, with a table of client descriptors. */
module SelectServer {
  import opened Bytes
  import opened Sums

  const FD_SETSIZE := 1024
  const FREE := -1

  /** client[], allset, maxi and maxfd; the listening socket never changes. */
  datatype Server = Server(listenfd: int, table: seq<int>, allset: set<int>, maxi: int, maxfd: int)

  function Entries(t: seq<int>): set<int> {
    set j | 0 <= j < |t| && t[j] >= 0 :: t[j]
  }

  predicate Distinct(t: seq<int>) {
    forall i, j :: 0 <= i < j < |t| && t[i] >= 0 ==> t[i] != t[j]
  }

  ghost predicate Inv(s: Server) {
    && |s.table| == FD_SETSIZE && -1 <= s.maxi < FD_SETSIZE
    && (forall j :: 0 <= j < |s.table| ==> s.table[j] >= FREE)
    && Distinct(s.table)
    && (forall j :: s.maxi < j < |s.table| ==> s.table[j] == FREE)
    && s.listenfd >= 0 && s.listenfd !in Entries(s.table)
    && s.allset == {s.listenfd} + Entries(s.table)
    && (forall fd :: fd in s.allset ==> fd <= s.maxfd)
  }

  // ----- what one pass should do, without counters and early exits

  predicate IsFree(fd: int) {
    fd < 0
  }

  function FirstFree(t: seq<int>): (i: nat)
    ensures i <= |t| && (forall j :: 0 <= j < i ==> t[j] >= 0) && (i < |t| ==> t[i] < 0)
  {
    FirstWhere(IsFree, t)
  }

  /** A new connection goes to the first free slot. */
  function Joined(s: Server, fd: int): Server
    requires FirstFree(s.table) < |s.table|
  {
    var i := FirstFree(s.table);
    s.(table := s.table[i := fd], allset := s.allset + {fd},
       maxi := if i > s.maxi then i else s.maxi, maxfd := if fd > s.maxfd then fd else s.maxfd)
  }

  /** data[fd]: what a read of fd returns in this pass; nothing means the client has closed. */
  predicate Closes(fd: int, ready: set<int>, data: map<int, seq<byte>>) {
    fd in ready && fd in data && data[fd] == []
  }

  /** Every table entry that is ready is read once; closed ones leave the table and the set. */
  function Swept(s: Server, ready: set<int>, data: map<int, seq<byte>>): Server {
    s.(table := SweptTable(s.table, ready, data, |s.table|),
       allset := set fd | fd in s.allset && !(fd in Entries(s.table) && Closes(fd, ready, data)))
  }

  /** The table after its first n entries have been looked at. */
  function SweptTable(t: seq<int>, ready: set<int>, data: map<int, seq<byte>>, n: nat): (u: seq<int>)
    requires n <= |t|
    ensures |u| == |t|
    ensures forall j :: 0 <= j < |t| ==> u[j] == if j < n && Closes(t[j], ready, data) then FREE else t[j]
  {
    seq(|t|, j requires 0 <= j < |t| => if j < n && Closes(t[j], ready, data) then FREE else t[j])
  }

  /** The ready entries of a table, in table order. */
  function Handled(t: seq<int>, ready: set<int>): seq<int> {
    if t == [] then [] else (if t[0] >= 0 && t[0] in ready then [t[0]] else []) + Handled(t[1..], ready)
  }

  /** What is written back: the data just read, to the client it came from. */
  datatype Reply = Reply(fd: int, bytes: seq<byte>)

  function ReplyTo(fd: int, data: map<int, seq<byte>>): seq<Reply> {
    if fd in data && data[fd] != [] then [Reply(fd, data[fd])] else []
  }

  function Replies(handled: seq<int>, data: map<int, seq<byte>>): seq<Reply> {
    if handled == [] then [] else ReplyTo(handled[0], data) + Replies(handled[1..], data)
  }

  function Nothing(data: map<int, seq<byte>>): (sent: seq<Reply>)
    ensures sent == [] == Replies([], data)
  {
    []
  }

  lemma {:induction false} RepliesSnoc(handled: seq<int>, fd: int, data: map<int, seq<byte>>)
    ensures Replies(handled + [fd], data) == Replies(handled, data) + ReplyTo(fd, data)
  {
    if handled == [] {
      assert [] + [fd] == [fd];
    } else {
      RepliesSnoc(handled[1..], fd, data);
      assert (handled + [fd])[1..] == handled[1..] + [fd];
    }
  }

  // ----- the table stays sound

  lemma JoinedKeepsInv(s: Server, fd: int)
    requires Inv(s) && FirstFree(s.table) < |s.table| && fd >= 0 && fd !in s.allset
    ensures Inv(Joined(s, fd))
  {
    var i, t := FirstFree(s.table), Joined(s, fd);
    assert Entries(t.table) == Entries(s.table) + {fd} by {
      assert t.table[i] == fd;
      forall x | x in Entries(s.table) ensures x in Entries(t.table) {
        var j :| 0 <= j < |s.table| && s.table[j] >= 0 && s.table[j] == x;
        assert t.table[j] == x;
      }
    }
  }

  lemma SweptKeepsInv(s: Server, ready: set<int>, data: map<int, seq<byte>>)
    requires Inv(s)
    ensures Inv(Swept(s, ready, data))
  {
    var t := Swept(s, ready, data);
    forall fd | fd in Entries(s.table) && !Closes(fd, ready, data) ensures fd in Entries(t.table) {
      var j :| 0 <= j < |s.table| && s.table[j] >= 0 && s.table[j] == fd;
      assert t.table[j] == fd;
    }
    forall fd | fd in Entries(t.table) ensures fd in Entries(s.table) && !Closes(fd, ready, data) {
      var j :| 0 <= j < |t.table| && t.table[j] >= 0 && t.table[j] == fd;
      assert s.table[j] == fd;
    }
  }

  // ----- each ready descriptor once

  lemma EntriesCons(t: seq<int>)
    requires t != [] && Distinct(t)
    ensures Distinct(t[1..])
    ensures Entries(t) == Entries(t[1..]) + (if t[0] >= 0 then {t[0]} else {})
    ensures t[0] >= 0 ==> t[0] !in Entries(t[1..])
  {
    var u := t[1..];
    assert forall j :: 0 <= j < |u| ==> u[j] == t[j + 1];
    assert forall j :: 0 < j < |t| ==> t[j] == u[j - 1];
  }

  lemma {:induction false} HandledOnce(t: seq<int>, ready: set<int>)
    requires Distinct(t)
    ensures forall fd :: fd in Handled(t, ready) <==> fd in ready && fd in Entries(t)
    ensures forall i, j :: 0 <= i < j < |Handled(t, ready)| ==> Handled(t, ready)[i] != Handled(t, ready)[j]
  {
    if t == [] {
    } else {
      EntriesCons(t);
      HandledOnce(t[1..], ready);
      var h := Handled(t[1..], ready);
      assert t[0] >= 0 ==> t[0] !in h;
    }
  }

  /** Clients are read in the order of their slots. */
  lemma {:induction false} ReadInTableOrder(t: seq<int>, ready: set<int>, i: nat, j: nat, a: nat, b: nat)
    requires Distinct(t) && i < j < |Handled(t, ready)| && a < |t| && b < |t|
    requires t[a] == Handled(t, ready)[i] && t[b] == Handled(t, ready)[j]
    ensures a < b
  {
    HandledOnce(t, ready);
    EntriesCons(t);
    var u, h := t[1..], Handled(t[1..], ready);
    HandledOnce(u, ready);
    if t[0] >= 0 && t[0] in ready {
      if i > 0 {
        assert t[0] == Handled(t, ready)[0];
        ReadInTableOrder(u, ready, i - 1, j - 1, a - 1, b - 1);
      } else {
        assert a == 0 && b != 0;
      }
    } else {
      assert t[0] !in Handled(t, ready);
      ReadInTableOrder(u, ready, i, j, a - 1, b - 1);
    }
  }

  lemma {:induction false} DistinctCount(h: seq<int>, s: set<int>)
    requires forall i, j :: 0 <= i < j < |h| ==> h[i] != h[j]
    requires forall x :: x in h <==> x in s
    ensures |h| == |s|
  {
    if h == [] {
      assert forall x :: x in s ==> x in h;
    } else {
      var r := s - {h[0]};
      forall x ensures x in h[1..] <==> x in r {
        if x in r {
          assert x in h;
        }
      }
      DistinctCount(h[1..], r);
      assert s == r + {h[0]};
    }
  }

  /** A pass over a sound table reads exactly the ready clients, each once. */
  lemma PassReadsEachReadyClientOnce(s: Server, ready: set<int>)
    requires Inv(s) && ready <= s.allset
    ensures var h := Handled(s.table, ready);
            && (forall fd :: fd in h <==> fd in ready - {s.listenfd})
            && (forall i, j :: 0 <= i < j < |h| ==> h[i] != h[j])
            && |h| == |ready - {s.listenfd}|
  {
    HandledOnce(s.table, ready);
    DistinctCount(Handled(s.table, ready), ready - {s.listenfd});
  }

  lemma {:induction false} HandledNone(t: seq<int>, ready: set<int>)
    requires Handled(t, ready) == []
    ensures forall j :: 0 <= j < |t| ==> !(t[j] >= 0 && t[j] in ready)
  {
    if t == [] {
    } else {
      HandledNone(t[1..], ready);
      assert forall j :: 0 < j < |t| ==> t[j] == t[1..][j - 1];
    }
  }

  lemma {:induction false} FreeSlotsHandleNothing(t: seq<int>, ready: set<int>)
    requires forall j :: 0 <= j < |t| ==> t[j] == FREE
    ensures Handled(t, ready) == []
  {
    if t == [] {
    } else {
      FreeSlotsHandleNothing(t[1..], ready);
    }
  }

  // ----- the program

  class EchoServer {
    const listenfd: int
    const client: array<int>
    var allset: set<int>
    var maxi: int
    var maxfd: int

    ghost function Value(): Server
      reads this, client
    {
      Server(listenfd, client[..], allset, maxi, maxfd)
    }

    constructor (listenfd: int)
      requires listenfd >= 0
      ensures Inv(Value()) && Value().table == seq(FD_SETSIZE, _ => FREE) && fresh(client)
    {
      this.listenfd := listenfd;
      client := new int[FD_SETSIZE](_ => FREE);
      allset, maxi, maxfd := {listenfd}, -1, listenfd;
      new;
      assert client[..] == seq(FD_SETSIZE, _ => FREE);
      assert Entries(client[..]) == {};
    }

    /** The branch for a new connection; the kernel hands out a descriptor that is not in use. `quit` is err_quit. */
    method Join(connfd: int) returns (quit: bool)
      requires Inv(Value()) && connfd >= 0 && connfd !in allset
      modifies this, client
      ensures quit <==> FirstFree(old(Value()).table) == |old(Value()).table|
      ensures quit <==> forall j :: 0 <= j < 1024 ==> old(client[j]) >= 0
      ensures quit ==> Value() == old(Value())
      ensures !quit ==> Value() == Joined(old(Value()), connfd) && Inv(Value())
    {
      var i := 0;
      while i < client.Length && client[i] >= 0
        invariant 0 <= i <= client.Length
        invariant forall j :: 0 <= j < i ==> client[j] >= 0
      {
        i := i + 1;
      }
      quit := i == FD_SETSIZE;
      if !quit {
        JoinedKeepsInv(Value(), connfd);
        client[i] := connfd;
        allset := allset + {connfd};
        if connfd > maxfd {
          maxfd := connfd;
        }
        if i > maxi {
          maxi := i;
        }
      }
    }

    /** One turn of the scan; `hit` tells that slot j was ready. */
    method Visit(j: nat, ready: set<int>, data: map<int, seq<byte>>, ghost s: Server)
      returns (hit: bool, sockfd: int, sent: seq<Reply>)
      requires Inv(s) && j < |s.table| && client.Length == |s.table| && ready <= data.Keys + {s.listenfd}
      requires client[..] == SweptTable(s.table, ready, data, j) && allset == SweptSet(s, ready, data, j)
      modifies this`allset, client
      ensures sockfd == s.table[j] && sent == if hit then ReplyTo(sockfd, data) else []
      ensures hit <==> s.table[j] >= 0 && s.table[j] in ready
      ensures client[..] == SweptTable(s.table, ready, data, j + 1) && allset == SweptSet(s, ready, data, j + 1)
    {
      SweptSetStep(s, ready, data, j);
      sockfd := client[j];
      assert sockfd == s.table[j];
      assert sockfd >= 0 ==> sockfd in Entries(s.table);
      hit := sockfd >= 0 && sockfd in ready;
      sent := [];
      if hit {
        if data[sockfd] == [] {
          allset := allset - {sockfd};
          client[j] := FREE;
        } else {
          sent := [Reply(sockfd, data[sockfd])];
        }
      }
    }

    /** The scan up to maxi, left early when nready descriptors have been found: it does what a full sweep does. */
    method Sweep(ready: set<int>, nready: int, data: map<int, seq<byte>>)
      returns (handled: seq<int>, sent: seq<Reply>)
      requires Inv(Value()) && ready <= data.Keys + {listenfd}
      requires nready == |Handled(client[..], ready)| > 0
      modifies this`allset, client
      ensures handled == Handled(old(client[..]), ready) && sent == Replies(handled, data)
      ensures Value() == Swept(old(Value()), ready, data) && Inv(Value())
    {
      hide Inv, SweptTable, SweptSet, Swept, Handled, Replies, ReplyTo;
      ghost var s, t := Value(), client[..];
      SweptKeepsInv(s, ready, data);
      SweepStart(s, ready, data);
      handled, sent := [], Nothing(data);
      var left := nready;
      var j := 0;
      while j <= maxi
        invariant 0 <= j <= maxi + 1 <= |t| == client.Length
        invariant left == |Handled(t[j..], ready)| > 0
        invariant handled + Handled(t[j..], ready) == Handled(t, ready) && sent == Replies(handled, data)
        invariant client[..] == SweptTable(t, ready, data, j) && allset == SweptSet(s, ready, data, j)
      {
        HandledStep(t, ready, j);
        var hit, sockfd, reply := Visit(j, ready, data, s);
        if hit {
          RepliesSnoc(handled, sockfd, data);
          handled, sent := handled + [sockfd], sent + reply;
          left := left - 1;
          if left <= 0 {
            NothingLeft(s, ready, data, j + 1);
            return;
          }
        }
        j := j + 1;
      }
      assert false;
    }
  }

  // ----- whole passes

  /** What select and the kernel bring to one pass: the ready descriptors, the descriptor accept would return, the data. */
  datatype Input = Input(ready: set<int>, connfd: int, data: map<int, seq<byte>>)

  ghost predicate Legal(s: Server, p: Input) {
    && {} != p.ready <= s.allset && p.ready <= p.data.Keys + {s.listenfd}
    && p.connfd >= 0 && p.connfd !in s.allset
  }

  predicate Overflows(s: Server, p: Input) {
    s.listenfd in p.ready && FirstFree(s.table) == |s.table|
  }

  function Admitted(s: Server, p: Input): Server
    requires !Overflows(s, p)
  {
    if s.listenfd in p.ready then Joined(s, p.connfd) else s
  }

  function Passed(s: Server, p: Input): Server
    requires !Overflows(s, p)
  {
    Swept(Admitted(s, p), p.ready, p.data)
  }

  lemma PassKeepsInv(s: Server, p: Input)
    requires Inv(s) && Legal(s, p) && !Overflows(s, p)
    ensures Inv(Admitted(s, p)) && p.ready <= Admitted(s, p).allset && Inv(Passed(s, p))
    ensures |Handled(Admitted(s, p).table, p.ready)| == |p.ready - {s.listenfd}|
  {
    if s.listenfd in p.ready {
      JoinedKeepsInv(s, p.connfd);
    }
    PassReadsEachReadyClientOnce(Admitted(s, p), p.ready);
    SweptKeepsInv(Admitted(s, p), p.ready, p.data);
  }

  /** One turn of the loop, counters and early exits included, is a full sweep: every ready client is read exactly once. */
  method Pass(server: EchoServer, p: Input) returns (quit: bool, handled: seq<int>, sent: seq<Reply>)
    requires Inv(server.Value()) && Legal(server.Value(), p)
    modifies server, server.client
    ensures quit == Overflows(old(server.Value()), p)
    ensures quit ==> server.Value() == old(server.Value())
    ensures !quit ==>
              && server.Value() == Passed(old(server.Value()), p) && Inv(server.Value())
              && handled == Handled(Admitted(old(server.Value()), p).table, p.ready)
              && |handled| == |p.ready - {server.listenfd}| && sent == Replies(handled, p.data)
              && (forall fd, b :: Reply(fd, b) in sent <==>
                    fd in p.ready && fd != server.listenfd && b == p.data[fd] && b != [])
              && OncePerClient(sent)
  {
    hide Inv, Joined, Swept, Handled, FirstFree;
    ghost var s := server.Value();
    var nready := |p.ready|;
    quit, handled, sent := false, [], [];
    if !Overflows(s, p) {
      PassKeepsInv(s, p);
      PassEchoes(s, p);
    }
    if server.listenfd in p.ready {
      assert |p.ready - {server.listenfd}| == |p.ready| - 1;
      quit := server.Join(p.connfd);
      if quit {
        return;
      }
      nready := nready - 1;
      if nready <= 0 {
        ghost var t := Admitted(s, p);
        assert Handled(t.table, p.ready) == [];
        SweepStart(t, p.ready, p.data);
        NothingLeft(t, p.ready, p.data, 0);
        return;
      }
    } else {
      assert p.ready - {server.listenfd} == p.ready;
    }
    handled, sent := server.Sweep(p.ready, nready, p.data);
  }

  // ----- what a pass means for each descriptor and each slot

  /** A client stays in the set unless its read in this pass returned nothing, and a new connection enters it. */
  lemma PassAndTheSet(s: Server, p: Input)
    requires Inv(s) && Legal(s, p) && !Overflows(s, p)
    ensures var t := Passed(s, p);
            && s.listenfd in t.allset
            && (forall fd :: fd in s.allset && fd != s.listenfd ==>
                  (fd in t.allset <==> fd !in p.ready || p.data[fd] != []))
            && (forall fd :: fd !in s.allset ==> (fd in t.allset <==> s.listenfd in p.ready && fd == p.connfd))
  {
    hide FirstFree, Inv;
    PassKeepsInv(s, p);
    SetAfterSweep(Admitted(s, p), p.ready, p.data);
    ListenerStays(s);
  }

  lemma ListenerStays(s: Server)
    requires Inv(s)
    ensures s.listenfd in s.allset
  {
  }

  lemma SetAfterSweep(s: Server, ready: set<int>, data: map<int, seq<byte>>)
    requires Inv(s)
    ensures forall fd :: fd in Swept(s, ready, data).allset <==>
              fd in s.allset && (fd == s.listenfd || !(fd in ready && fd in data && data[fd] == []))
  {
  }

  /** An entry is cleared when the client's read returned nothing; a new connection takes the first slot that was free; no
      other slot changes. */
  lemma PassAndTheTable(s: Server, p: Input)
    requires Inv(s) && Legal(s, p) && !Overflows(s, p)
    ensures var t := Passed(s, p);
            && |t.table| == |s.table|
            && (forall j :: 0 <= j < |s.table| && s.table[j] >= 0 ==>
                  t.table[j] == if s.table[j] in p.ready && p.data[s.table[j]] == [] then -1 else s.table[j])
            && (forall j :: 0 <= j < |s.table| && s.table[j] < 0 ==>
                  t.table[j] ==
                  if s.listenfd in p.ready && (forall i :: 0 <= i < j ==> s.table[i] >= 0) then p.connfd else -1)
  {
    forall j | 0 <= j < |s.table| && s.table[j] >= 0 ensures s.table[j] in s.allset && s.table[j] != s.listenfd {
      assert s.table[j] in Entries(s.table);
    }
  }

  /** maxi and maxfd only grow, and only to the slot and the descriptor of the new connection. */
  lemma PassAndTheBounds(s: Server, p: Input)
    requires Inv(s) && Legal(s, p) && !Overflows(s, p)
    ensures var t := Passed(s, p);
            && (t.maxi == s.maxi || (s.listenfd in p.ready && s.maxi < t.maxi && t.table[t.maxi] == p.connfd))
            && (t.maxfd == s.maxfd || (s.listenfd in p.ready && s.maxfd < t.maxfd == p.connfd))
  {
  }

  ghost predicate OncePerClient(sent: seq<Reply>) {
    forall i, j :: 0 <= i < j < |sent| ==> sent[i].fd != sent[j].fd
  }

  lemma OncePerClientCons(r: Reply, rest: seq<Reply>)
    requires OncePerClient(rest) && forall b :: Reply(r.fd, b) !in rest
    ensures OncePerClient([r] + rest)
  {
    forall i | 0 <= i < |rest| ensures rest[i].fd != r.fd {
      assert Reply(rest[i].fd, rest[i].bytes) in rest;
    }
  }

  lemma {:induction false} RepliesAre(h: seq<int>, data: map<int, seq<byte>>)
    requires forall i, j :: 0 <= i < j < |h| ==> h[i] != h[j]
    ensures forall fd, b :: Reply(fd, b) in Replies(h, data) <==> fd in h && fd in data && b == data[fd] && b != []
    ensures OncePerClient(Replies(h, data))
  {
    if h == [] {
    } else {
      RepliesAre(h[1..], data);
      var rest := Replies(h[1..], data);
      assert forall fd :: fd in h <==> fd == h[0] || fd in h[1..];
      assert h[0] !in h[1..];
      if h[0] in data && data[h[0]] != [] {
        OncePerClientCons(Reply(h[0], data[h[0]]), rest);
      } else {
        assert Replies(h, data) == rest;
      }
    }
  }

  /** What a pass writes back: to every client whose read returned bytes, exactly these, once; and nothing else. */
  lemma PassEchoes(s: Server, p: Input)
    requires Inv(s) && Legal(s, p) && !Overflows(s, p)
    ensures var sent := Replies(Handled(Admitted(s, p).table, p.ready), p.data);
            && (forall fd, b :: Reply(fd, b) in sent <==>
                  fd in p.ready && fd != s.listenfd && b == p.data[fd] && b != [])
            && OncePerClient(sent)
  {
    PassKeepsInv(s, p);
    PassReadsEachReadyClientOnce(Admitted(s, p), p.ready);
    RepliesAre(Handled(Admitted(s, p).table, p.ready), p.data);
  }

  ghost predicate StepAt(ss: seq<Server>, ps: seq<Input>, k: int)
    requires 0 <= k < |ps| && |ss| == |ps| + 1
  {
    Legal(ss[k], ps[k]) && !Overflows(ss[k], ps[k]) && ss[k + 1] == Passed(ss[k], ps[k])
  }

  /** Any number of passes from the initial table. */
  ghost predicate IsRun(listenfd: int, ss: seq<Server>, ps: seq<Input>) {
    && |ss| == |ps| + 1 && listenfd >= 0
    && ss[0] == Server(listenfd, seq(FD_SETSIZE, _ => FREE), {listenfd}, -1, listenfd)
    && forall k :: 0 <= k < |ps| ==> StepAt(ss, ps, k)
  }

  /** In every run: allset is the listening socket and the table's entries, which are distinct; slots above maxi are free;
      maxfd bounds them all. */
  lemma {:induction false} TableAlwaysSound(listenfd: int, ss: seq<Server>, ps: seq<Input>, k: nat)
    requires IsRun(listenfd, ss, ps) && k < |ss|
    ensures Inv(ss[k])
  {
    if k == 0 {
      assert Entries(ss[0].table) == {};
    } else {
      TableAlwaysSound(listenfd, ss, ps, k - 1);
      assert StepAt(ss, ps, k - 1);
      PassKeepsInv(ss[k - 1], ps[k - 1]);
    }
  }

  /** In every run a client stays, in the set and in its slot, from its accept (pass j) until the first pass in which its read
      returns nothing, and no longer. */
  lemma {:induction false} ClientStaysUntilItCloses(listenfd: int, ss: seq<Server>, ps: seq<Input>, j: nat, k: nat)
    returns (slot: nat)
    requires IsRun(listenfd, ss, ps) && j < k < |ss| && listenfd in ps[j].ready
    requires var fd := ps[j].connfd;
             forall i :: j < i < k && fd in ps[i].ready && fd in ps[i].data ==> ps[i].data[fd] != []
    ensures var fd := ps[j].connfd;
            && fd in ss[k].allset && slot < |ss[k].table| && ss[k].table[slot] == fd
            && (j + 1 < k ==> slot < |ss[k - 1].table| && ss[k - 1].table[slot] == fd)
            && (k < |ps| && fd in ps[k].ready && fd in ps[k].data && ps[k].data[fd] == [] ==>
                  fd !in ss[k + 1].allset && fd !in ss[k + 1].table)
  {
    hide Passed, Overflows, Inv;
    var fd := ps[j].connfd;
    NewDescriptor(listenfd, ss, ps, j);
    TableAlwaysSound(listenfd, ss, ps, k - 1);
    TableAlwaysSound(listenfd, ss, ps, k);
    SameListener(listenfd, ss, ps, k - 1);
    SameListener(listenfd, ss, ps, k);
    assert StepAt(ss, ps, k - 1);
    PassAndTheSet(ss[k - 1], ps[k - 1]);
    PassAndTheTable(ss[k - 1], ps[k - 1]);
    if j == k - 1 {
      slot := NewSlot(ss[j], ps[j]);
    } else {
      slot := ClientStaysUntilItCloses(listenfd, ss, ps, j, k - 1);
    }
    if k < |ps| && fd in ps[k].ready && fd in ps[k].data && ps[k].data[fd] == [] {
      assert StepAt(ss, ps, k);
      TableAlwaysSound(listenfd, ss, ps, k + 1);
      PassAndTheSet(ss[k], ps[k]);
      NotInTable(ss[k + 1], fd);
    }
  }

  lemma NewDescriptor(listenfd: int, ss: seq<Server>, ps: seq<Input>, j: nat)
    requires IsRun(listenfd, ss, ps) && j < |ps|
    ensures ps[j].connfd >= 0 && ps[j].connfd != listenfd
  {
    TableAlwaysSound(listenfd, ss, ps, j);
    SameListener(listenfd, ss, ps, j);
    assert StepAt(ss, ps, j);
  }

  lemma NotInTable(s: Server, fd: int)
    requires Inv(s) && fd !in s.allset && fd >= 0
    ensures fd !in s.table
  {
    assert fd !in Entries(s.table);
  }

  lemma NewSlot(s: Server, p: Input) returns (slot: nat)
    requires Inv(s) && Legal(s, p) && !Overflows(s, p) && s.listenfd in p.ready
    ensures slot < |s.table| && Passed(s, p).table[slot] == p.connfd
  {
    slot := FirstFree(s.table);
    PassAndTheTable(s, p);
  }

  lemma {:induction false} SameListener(listenfd: int, ss: seq<Server>, ps: seq<Input>, k: nat)
    requires IsRun(listenfd, ss, ps) && k < |ss|
    ensures ss[k].listenfd == listenfd
  {
    if k == 0 {
    } else {
      SameListener(listenfd, ss, ps, k - 1);
      assert StepAt(ss, ps, k - 1);
    }
  }

  // ----- descriptors an fd_set can hold

  ghost predicate FitsSet(s: Server) {
    forall fd :: fd in s.allset ==> fd < FD_SETSIZE
  }

  lemma EntriesOfFullTable(t: seq<int>)
    requires Distinct(t) && forall j :: 0 <= j < |t| ==> t[j] >= 0
    ensures |Entries(t)| == |t|
  {
    DistinctCount(t, Entries(t));
  }

  /** While all descriptors fit an fd_set the table is never full: there are as many slots as descriptors, and the listening
      socket takes one of those. */
  lemma TableNeverFull(s: Server)
    requires Inv(s) && FitsSet(s)
    ensures FirstFree(s.table) < |s.table|
  {
    if FirstFree(s.table) == |s.table| {
      EntriesOfFullTable(s.table);
      BoundedSet(s.allset, FD_SETSIZE);
    }
  }

  lemma {:induction false} BoundedSet(a: set<int>, n: nat)
    requires forall x :: x in a ==> 0 <= x < n
    ensures |a| <= n
  {
    if n == 0 {
      assert forall x :: x in a ==> 0 <= x < 0;
    } else {
      BoundedSet(a - {n - 1}, n - 1);
      assert |a| <= |a - {n - 1}| + 1;
    }
  }

  /** So in no run can "too many clients" come before a descriptor that FD_SET would store outside its set: a pass that
      overflows has been handed such a one, or is preceded by one. */
  lemma OverflowOnlyOutsideTheSet(listenfd: int, ss: seq<Server>, ps: seq<Input>, k: nat, p: Input)
    requires IsRun(listenfd, ss, ps) && k < |ss| && listenfd < FD_SETSIZE && Legal(ss[k], p)
    requires forall i :: 0 <= i < k && listenfd in ps[i].ready ==> ps[i].connfd < FD_SETSIZE
    ensures !Overflows(ss[k], p)
  {
    TableAlwaysSound(listenfd, ss, ps, k);
    FitsAlong(listenfd, ss, ps, k);
    TableNeverFull(ss[k]);
  }

  lemma {:induction false} FitsAlong(listenfd: int, ss: seq<Server>, ps: seq<Input>, k: nat)
    requires IsRun(listenfd, ss, ps) && k < |ss| && listenfd < FD_SETSIZE
    requires forall i :: 0 <= i < k && listenfd in ps[i].ready ==> ps[i].connfd < FD_SETSIZE
    ensures FitsSet(ss[k]) && ss[k].listenfd == listenfd
  {
    if k == 0 {
    } else {
      FitsAlong(listenfd, ss, ps, k - 1);
      assert StepAt(ss, ps, k - 1);
    }
  }

  // ----- lemmas for Sweep

  lemma SweepStart(s: Server, ready: set<int>, data: map<int, seq<byte>>)
    requires Inv(s)
    ensures s.table[0..] == s.table
    ensures SweptTable(s.table, ready, data, 0) == s.table && SweptSet(s, ready, data, 0) == s.allset
    ensures -1 <= s.maxi < |s.table| && Handled(s.table[s.maxi + 1..], ready) == []
  {
    FreeSlotsHandleNothing(s.table[s.maxi + 1..], ready);
  }

  lemma HandledStep(t: seq<int>, ready: set<int>, j: nat)
    requires j < |t|
    ensures Handled(t[j..], ready) == (if t[j] >= 0 && t[j] in ready then [t[j]] else []) + Handled(t[j + 1..], ready)
  {
    assert t[j..][1..] == t[j + 1..];
  }

  /** allset after the first n entries have been looked at. */
  ghost function SweptSet(s: Server, ready: set<int>, data: map<int, seq<byte>>, n: nat): set<int>
    requires n <= |s.table|
  {
    set fd | fd in s.allset && !(fd in Entries(s.table[..n]) && Closes(fd, ready, data))
  }

  lemma SweptSetStep(s: Server, ready: set<int>, data: map<int, seq<byte>>, n: nat)
    requires Inv(s) && n < |s.table|
    ensures SweptSet(s, ready, data, n + 1) ==
            if s.table[n] >= 0 && Closes(s.table[n], ready, data) then SweptSet(s, ready, data, n) - {s.table[n]}
            else SweptSet(s, ready, data, n)
  {
    var a, b := s.table[..n], s.table[..n + 1];
    assert b == a + [s.table[n]];
    assert Entries(b) == Entries(a) + (if s.table[n] >= 0 then {s.table[n]} else {}) by {
      forall x | x in Entries(a) ensures x in Entries(b) {
        var j :| 0 <= j < |a| && a[j] >= 0 && a[j] == x;
        assert b[j] == x;
      }
      assert b[n] == s.table[n];
    }
  }

  lemma NothingLeft(s: Server, ready: set<int>, data: map<int, seq<byte>>, n: nat)
    requires Inv(s) && n <= |s.table| && Handled(s.table[n..], ready) == []
    requires ready <= data.Keys + {s.listenfd}
    ensures s.(table := SweptTable(s.table, ready, data, n), allset := SweptSet(s, ready, data, n)) == Swept(s, ready, data)
  {
    HandledNone(s.table[n..], ready);
    forall j | n <= j < |s.table| ensures !(s.table[j] >= 0 && s.table[j] in ready) {
      assert s.table[j] == s.table[n..][j - n];
    }
    assert SweptTable(s.table, ready, data, n) == SweptTable(s.table, ready, data, |s.table|);
    forall fd | fd in Entries(s.table) && fd in ready ensures fd in Entries(s.table[..n]) {
      var j :| 0 <= j < |s.table| && s.table[j] >= 0 && s.table[j] == fd;
      assert s.table[..n][j] == fd;
    }
    forall fd | fd in Entries(s.table[..n]) ensures fd in Entries(s.table) {
      var j :| 0 <= j < n && s.table[..n][j] >= 0 && s.table[..n][j] == fd;
      assert s.table[j] == fd;
    }
  }
}
