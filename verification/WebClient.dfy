/** nonblock/webclient/web.cpp: fetch up to twenty files over at most maxnconn simultaneous non-blocking connections. */
module WebClient {
  import opened Sums

  const MAXFILES := 20
  const MAXLINE := 4096

  /** f_flags: 0, F_CONNECTING, F_READING and F_DONE, of which at most one is ever set. */
  datatype Flag = New | Connecting | Reading | Done

  /** `gets` counts the GET commands written for the file; `left` is what the server will still send of the response. */
  datatype File = File(fd: int, flag: Flag, gets: nat, left: nat) {
    predicate Open() {
      flag.Connecting? || flag.Reading?
    }
  }

  /** The globals of the program. */
  datatype Web = Web(files: seq<File>, nconn: int, nlefttoconn: int, nlefttoread: int, maxfd: int,
                     rset: set<int>, wset: set<int>)

  // ----- transitions of one file

  function Set(w: Web, i: nat, f: File): Web
    requires i < |w.files|
  {
    w.(files := w.files[i := f])
  }

  function Max(a: int, b: int): int {
    if a < b then b else a
  }

  /** write_get_cmd */
  function GetWritten(w: Web, i: nat): Web
    requires i < |w.files|
  {
    var f := w.files[i];
    Set(w, i, f.(flag := Reading, gets := f.gets + 1)).(rset := w.rset + {f.fd}, maxfd := Max(w.maxfd, f.fd))
  }

  /** start_connect with its two counters: the connection may be there at once. */
  function Started(w: Web, i: nat, fd: int, atOnce: bool): Web
    requires i < |w.files|
  {
    var v := Set(w, i, w.files[i].(fd := fd)).(nconn := w.nconn + 1, nlefttoconn := w.nlefttoconn - 1);
    if atOnce then GetWritten(v, i)
    else
      Set(v, i, v.files[i].(flag := Connecting)).(rset := w.rset + {fd}, wset := w.wset + {fd}, maxfd := Max(w.maxfd, fd))
  }

  function Established(w: Web, i: nat): Web
    requires i < |w.files|
  {
    GetWritten(w.(wset := w.wset - {w.files[i].fd}), i)
  }

  /** One read of n bytes; 0 is the end of the response. */
  function ReadOnce(w: Web, i: nat, n: nat): Web
    requires i < |w.files| && n <= w.files[i].left
  {
    var f := w.files[i];
    if n > 0 then Set(w, i, f.(left := f.left - n))
    else
      Set(w, i, f.(flag := Done)).(rset := w.rset - {f.fd}, nconn := w.nconn - 1, nlefttoread := w.nlefttoread - 1)
  }

  // ----- the invariant

  function Is(flag: Flag): File -> nat {
    (f: File) => if f.flag == flag then 1 else 0
  }

  function Count(fs: seq<File>, flag: Flag): nat {
    Sum(Is(flag), fs)
  }

  function OpenFds(fs: seq<File>): set<int> {
    set i | 0 <= i < |fs| && fs[i].Open() :: fs[i].fd
  }

  function ConnectingFds(fs: seq<File>): set<int> {
    set i | 0 <= i < |fs| && fs[i].flag.Connecting? :: fs[i].fd
  }

  ghost predicate DistinctFds(fs: seq<File>) {
    forall i, j :: 0 <= i < j < |fs| && fs[i].Open() && fs[j].Open() ==> fs[i].fd != fs[j].fd
  }

  ghost predicate CountersOk(w: Web, maxnconn: int) {
    && w.nlefttoconn == Count(w.files, New)
    && w.nconn == Count(w.files, Connecting) + Count(w.files, Reading) <= Max(maxnconn, 0)
    && w.nlefttoread == w.nlefttoconn + w.nconn
  }

  ghost predicate SetsOk(w: Web) {
    && DistinctFds(w.files)
    && w.rset == OpenFds(w.files) && w.wset == ConnectingFds(w.files)
    && forall fd :: fd in w.rset ==> 0 <= fd <= w.maxfd
  }

  /** One GET per file that got past connecting; a finished file has been read to its end. */
  ghost predicate FilesOk(w: Web) {
    forall i :: 0 <= i < |w.files| ==>
      var f := w.files[i];
      && f.gets == (if f.flag.Reading? || f.flag.Done? then 1 else 0)
      && (f.flag.Done? ==> f.left == 0)
  }

  ghost predicate Inv(w: Web, maxnconn: int) {
    CountersOk(w, maxnconn) && SetsOk(w) && FilesOk(w)
  }

  lemma CountsUpdate(fs: seq<File>, i: nat, f: File)
    requires i < |fs|
    ensures forall flag :: Count(fs[i := f], flag) == Count(fs, flag) - Is(flag)(fs[i]) + Is(flag)(f)
  {
    forall flag ensures Count(fs[i := f], flag) == Count(fs, flag) - Is(flag)(fs[i]) + Is(flag)(f) {
      SumUpdate(Is(flag), fs, i, f);
    }
  }

  /** Changing file i changes the descriptor sets by its own descriptor only. */
  lemma FdsUpdate(fs: seq<File>, i: nat, f: File)
    requires i < |fs| && DistinctFds(fs)
    requires f.Open() ==> forall j :: 0 <= j < |fs| && j != i && fs[j].Open() ==> fs[j].fd != f.fd
    ensures DistinctFds(fs[i := f])
    ensures OpenFds(fs[i := f]) == OpenFds(fs) - (if fs[i].Open() then {fs[i].fd} else {}) + (if f.Open() then {f.fd} else {})
    ensures ConnectingFds(fs[i := f])
            == ConnectingFds(fs) - (if fs[i].Open() then {fs[i].fd} else {}) + (if f.flag.Connecting? then {f.fd} else {})
  {
    var gs := fs[i := f];
    assert gs[i] == f;
    forall j | 0 <= j < |fs| && j != i ensures gs[j] == fs[j] {
    }
  }

  lemma StartedKeepsInv(w: Web, maxnconn: int, i: nat, fd: int, atOnce: bool)
    requires Inv(w, maxnconn) && i < |w.files| && w.files[i].flag.New? && w.nconn < maxnconn
    requires fd >= 0 && fd !in w.rset
    ensures Inv(Started(w, i, fd, atOnce), maxnconn)
  {
    var v := Started(w, i, fd, atOnce);
    assert v.files == w.files[i := v.files[i]];
    CountsUpdate(w.files, i, v.files[i]);
    assert forall j :: 0 <= j < |w.files| && w.files[j].Open() ==> w.files[j].fd in OpenFds(w.files);
    FdsUpdate(w.files, i, v.files[i]);
    assert w.wset <= w.rset;
  }

  lemma EstablishedKeepsInv(w: Web, maxnconn: int, i: nat)
    requires Inv(w, maxnconn) && i < |w.files| && w.files[i].flag.Connecting?
    ensures Inv(Established(w, i), maxnconn)
  {
    var v := Established(w, i);
    CountsUpdate(w.files, i, v.files[i]);
    FdsUpdate(w.files, i, v.files[i]);
    assert w.files[i].fd in OpenFds(w.files);
  }

  lemma ReadKeepsInv(w: Web, maxnconn: int, i: nat, n: nat)
    requires Inv(w, maxnconn) && i < |w.files| && w.files[i].flag.Reading?
    requires n <= w.files[i].left && (n == 0 ==> w.files[i].left == 0)
    ensures Inv(ReadOnce(w, i, n), maxnconn)
  {
    var v := ReadOnce(w, i, n);
    CountsUpdate(w.files, i, v.files[i]);
    FdsUpdate(w.files, i, v.files[i]);
    assert w.files[i].fd in OpenFds(w.files) && w.files[i].fd !in ConnectingFds(w.files);
  }

  lemma {:induction false} CountsAddUp(fs: seq<File>)
    ensures Count(fs, New) + Count(fs, Connecting) + Count(fs, Reading) + Count(fs, Done) == |fs|
  {
    if fs == [] {
    } else {
      CountsAddUp(fs[1..]);
    }
  }

  lemma CountZero(fs: seq<File>, flag: Flag)
    ensures Count(fs, flag) == 0 <==> forall i :: 0 <= i < |fs| ==> fs[i].flag != flag
  {
    SumZero(Is(flag), fs);
    assert forall i :: 0 <= i < |fs| ==> (Is(flag)(fs[i]) == 0 <==> fs[i].flag != flag);
  }

  /** While files are left to read and connections allowed, there is something to select on. */
  lemma SomethingOpen(w: Web, maxnconn: int)
    requires Inv(w, maxnconn) && w.nlefttoread > 0 && (w.nconn >= maxnconn || w.nlefttoconn == 0) && maxnconn >= 1
    ensures w.rset != {}
  {
    CountZero(w.files, Connecting);
    CountZero(w.files, Reading);
    var i :| 0 <= i < |w.files| && w.files[i].Open();
    assert w.files[i].fd in OpenFds(w.files);
  }

  lemma OpenFdsCons(fs: seq<File>)
    requires fs != [] && DistinctFds(fs)
    ensures DistinctFds(fs[1..])
    ensures OpenFds(fs) == OpenFds(fs[1..]) + (if fs[0].Open() then {fs[0].fd} else {})
    ensures fs[0].Open() ==> fs[0].fd !in OpenFds(fs[1..])
  {
    var gs := fs[1..];
    assert forall j :: 0 < j < |fs| ==> fs[j] == gs[j - 1];
    assert forall j :: 0 <= j < |gs| ==> gs[j] == fs[j + 1];
  }

  lemma {:induction false} OpenFdsCounted(fs: seq<File>)
    requires DistinctFds(fs)
    ensures |OpenFds(fs)| == Count(fs, Connecting) + Count(fs, Reading)
  {
    if fs == [] {
      assert OpenFds(fs) == {};
    } else {
      OpenFdsCons(fs);
      OpenFdsCounted(fs[1..]);
    }
  }

  /** nconn counts the open sockets, and there are never more than maxnconn of them (none, if that is negative). */
  lemma ParallelismIsBounded(w: Web, maxnconn: int)
    requires Inv(w, maxnconn)
    ensures |w.rset| == w.nconn <= Max(maxnconn, 0)
  {
    OpenFdsCounted(w.files);
  }

  // ----- progress

  function Weight(f: File): nat {
    match f.flag
    case New => f.left + 3
    case Connecting => f.left + 2
    case Reading => f.left + 1
    case Done => 0
  }

  function Work(fs: seq<File>): nat {
    Sum(Weight, fs)
  }

  lemma StartedWork(w: Web, i: nat, fd: int, atOnce: bool)
    requires i < |w.files| && w.files[i].flag.New?
    ensures Work(Started(w, i, fd, atOnce).files) <= Work(w.files)
  {
    var v := Started(w, i, fd, atOnce);
    assert v.files == w.files[i := v.files[i]];
    SumUpdate(Weight, w.files, i, v.files[i]);
  }

  lemma EstablishedWork(w: Web, i: nat)
    requires i < |w.files| && w.files[i].flag.Connecting?
    ensures Work(Established(w, i).files) < Work(w.files)
  {
    SumUpdate(Weight, w.files, i, Established(w, i).files[i]);
  }

  lemma ReadWork(w: Web, i: nat, n: nat)
    requires i < |w.files| && w.files[i].flag.Reading? && n <= w.files[i].left
    ensures Work(ReadOnce(w, i, n).files) < Work(w.files)
  {
    SumUpdate(Weight, w.files, i, ReadOnce(w, i, n).files[i]);
  }

  /** Which file the answer of select is about. */
  ghost predicate IsReady(f: File, rs: set<int>, ws: set<int>) {
    (f.flag.Connecting? && (f.fd in rs || f.fd in ws)) || (f.flag.Reading? && f.fd in rs)
  }

  /** What one pass makes of file f when select has left rs and ws: a connection that is there gets its GET, a response that
      has come is read from once, to its end if there is nothing more; everything else is left alone. */
  ghost predicate Answered(f: File, g: File, rs: set<int>, ws: set<int>) {
    match f.flag
    case New => g == f
    case Done => g == f
    case Connecting => g == if f.fd in rs || f.fd in ws then f.(flag := Reading, gets := f.gets + 1) else f
    case Reading =>
      if f.fd !in rs then g == f
      else if f.left == 0 then g == f.(flag := Done)
      else g == f.(left := g.left) && f.left - MAXLINE <= g.left < f.left
  }

  /** Connections are opened for the first files still new, in order, each on its own descriptor; no other file changes. */
  ghost predicate FirstOpened(fs: seq<File>, gs: seq<File>) {
    && |gs| == |fs|
    && (forall i :: 0 <= i < |fs| && !fs[i].flag.New? ==> gs[i] == fs[i])
    && (forall i :: 0 <= i < |fs| && fs[i].flag.New? ==>
          gs[i] == fs[i] || (gs[i].left == fs[i].left && (gs[i].flag.Connecting? || gs[i].flag.Reading?)))
    && (forall i, j :: 0 <= i < j < |fs| && gs[i].flag.New? && fs[j].flag.New? ==> gs[j].flag.New?)
  }

  lemma SomeFileReady(w: Web, maxnconn: int, rs: set<int>, ws: set<int>) returns (k: nat)
    requires Inv(w, maxnconn) && rs <= w.rset && ws <= w.wset && rs + ws != {}
    ensures k < |w.files| && IsReady(w.files[k], rs, ws)
  {
    var fd :| fd in rs + ws;
    if fd in rs {
      assert fd in OpenFds(w.files);
      k :| k < |w.files| && w.files[k].Open() && w.files[k].fd == fd;
    } else {
      assert fd in ConnectingFds(w.files);
      k :| k < |w.files| && w.files[k].flag.Connecting? && w.files[k].fd == fd;
    }
  }

  // ----- the program

  class Scheduler {
    const file: array<File>
    var nconn: int
    var nlefttoconn: int
    var nlefttoread: int
    var maxfd: int
    var rset: set<int>
    var wset: set<int>

    ghost function Value(): Web
      reads this, file
    {
      Web(file[..], nconn, nlefttoconn, nlefttoread, maxfd, rset, wset)
    }

    /** `responses[i]`: how many bytes the server will send for file i; names after the twentieth are ignored. */
    constructor (responses: seq<nat>, maxnconn: int)
      ensures file.Length == (if |responses| < 20 then |responses| else 20)
      ensures Inv(Value(), maxnconn) && fresh(file)
      ensures forall i :: 0 <= i < file.Length ==> file[i] == File(-1, New, 0, responses[i])
    {
      var nfiles := if |responses| < MAXFILES then |responses| else MAXFILES;
      file := new File[nfiles](i requires 0 <= i < nfiles => File(-1, New, 0, responses[i]));
      nlefttoread, nlefttoconn := nfiles, nfiles;
      nconn, maxfd := 0, -1;
      rset, wset := {}, {};
      new;
      CountZero(file[..], Connecting);
      CountZero(file[..], Reading);
      CountZero(file[..], Done);
      CountsAddUp(file[..]);
      assert OpenFds(file[..]) == {} && ConnectingFds(file[..]) == {};
    }

    // --- the kernel: only the contracts of these four are relied on

    method Socket() returns (fd: int)
      requires SetsOk(Value())
      ensures fd >= 0 && fd !in rset
    {
      fd := Max(maxfd, -1) + 1;
    }

    method Connect() returns (atOnce: bool) {
      atOnce := *;
    }

    method Select() returns (rs: set<int>, ws: set<int>)
      requires rset != {}
      ensures rs <= rset && ws <= wset && rs + ws != {}
    {
      rs, ws := rset, wset;
    }

    method Read(i: nat) returns (n: nat)
      requires i < file.Length
      ensures n <= file[i].left && n <= MAXLINE && (n == 0 <==> file[i].left == 0)
    {
      n := if file[i].left <= MAXLINE then file[i].left else MAXLINE;
    }

    // --- the program

    method WriteGetCmd(i: nat)
      requires i < file.Length
      modifies this, file
      ensures Value() == GetWritten(old(Value()), i)
    {
      var f := file[i];
      file[i] := f.(flag := Reading, gets := f.gets + 1);
      rset := rset + {f.fd};
      if f.fd > maxfd {
        maxfd := f.fd;
      }
    }

    method StartConnect(i: nat) returns (fd: int, atOnce: bool)
      requires i < file.Length && SetsOk(Value())
      modifies this, file
      ensures fd >= 0 && fd !in old(rset)
      ensures file[i].fd == fd && file[i].left == old(file[i].left)
      ensures if atOnce then file[i].flag == Reading && file[i].gets == old(file[i].gets) + 1
              else file[i].flag == Connecting && file[i].gets == old(file[i].gets)
      ensures forall j :: 0 <= j < file.Length && j != i ==> file[j] == old(file[j])
      ensures rset == old(rset) + {fd} && wset == if atOnce then old(wset) else old(wset) + {fd}
      ensures maxfd == if fd > old(maxfd) then fd else old(maxfd)
      ensures Value() == Started(old(Value()), i, fd, atOnce).(nconn := old(nconn), nlefttoconn := old(nlefttoconn))
    {
      fd := Socket();
      ghost var w := Value();
      file[i] := file[i].(fd := fd);
      assert Value() == Set(w, i, w.files[i].(fd := fd));
      atOnce := Connect();
      if !atOnce {
        file[i] := file[i].(flag := Connecting);
        rset := rset + {fd};
        wset := wset + {fd};
        if fd > maxfd {
          maxfd := fd;
        }
      } else {
        WriteGetCmd(i);
      }
    }

    /** The first file not yet asked for. The exit "nothing found" is never taken. */
    method FindNew() returns (i: nat)
      requires Count(file[..], New) > 0
      ensures i < file.Length && file[i].flag.New?
      ensures forall j :: 0 <= j < i ==> !file[j].flag.New?
    {
      CountZero(file[..], New);
      i := 0;
      while i < file.Length && file[i].flag != New
        invariant i <= file.Length
        invariant forall j :: 0 <= j < i ==> file[j].flag != New
      {
        i := i + 1;
      }
      if i == file.Length {
        assert false;
      }
    }

    /** The body of the inner loop of main. */
    method OpenNext(maxnconn: int)
      requires Inv(Value(), maxnconn) && nconn < maxnconn && nlefttoconn > 0
      modifies this, file
      ensures Inv(Value(), maxnconn) && Work(file[..]) <= old(Work(file[..]))
      ensures nlefttoconn == old(nlefttoconn) - 1 && nlefttoread == old(nlefttoread)
      ensures FirstOpened(old(file[..]), file[..])
    {
      ghost var w := Value();
      var i := FindNew();
      var fd, atOnce := StartConnect(i);
      nconn := nconn + 1;
      nlefttoconn := nlefttoconn - 1;
      assert Value() == Started(w, i, fd, atOnce);
      StartedKeepsInv(w, maxnconn, i, fd, atOnce);
      StartedWork(w, i, fd, atOnce);
    }

    /** The inner loop of main: open connections while allowed. */
    method Fill(maxnconn: int)
      requires Inv(Value(), maxnconn)
      modifies this, file
      ensures Inv(Value(), maxnconn) && Work(file[..]) <= old(Work(file[..]))
      ensures nconn >= maxnconn || nlefttoconn == 0
      ensures nlefttoread == old(nlefttoread) && nconn - old(nconn) == old(nlefttoconn) - nlefttoconn
      ensures FirstOpened(old(file[..]), file[..])
    {
      while nconn < maxnconn && nlefttoconn > 0
        invariant Inv(Value(), maxnconn) && Work(file[..]) <= old(Work(file[..]))
        invariant nlefttoread == old(nlefttoread) && nconn - old(nconn) == old(nlefttoconn) - nlefttoconn
        invariant FirstOpened(old(file[..]), file[..])
        decreases nlefttoconn
      {
        OpenNext(maxnconn);
      }
    }

    /** What one pass does for file i. */
    method Serve(i: nat, rs: set<int>, ws: set<int>, ghost maxnconn: int)
      requires i < file.Length && Inv(Value(), maxnconn)
      modifies this, file
      ensures Inv(Value(), maxnconn)
      ensures forall j :: 0 <= j < file.Length && j != i ==> file[j] == old(file[j])
      ensures if IsReady(old(file[i]), rs, ws) then Work(file[..]) < old(Work(file[..])) else Value() == old(Value())
      ensures Answered(old(file[i]), file[i], rs, ws)
    {
      hide Inv, Work;
      ghost var w := Value();
      var flags := file[i].flag;
      if flags == New || flags == Done {
        return;
      }
      var fd := file[i].fd;
      if flags == Connecting && (fd in rs || fd in ws) {
        wset := wset - {fd};
        WriteGetCmd(i);
        assert Value() == Established(w, i);
        EstablishedKeepsInv(w, maxnconn, i);
        EstablishedWork(w, i);
      } else if flags == Reading && fd in rs {
        var n := Read(i);
        if n == 0 {
          file[i] := file[i].(flag := Done);
          rset := rset - {fd};
          nconn := nconn - 1;
          nlefttoread := nlefttoread - 1;
        } else {
          file[i] := file[i].(left := file[i].left - n);
        }
        assert Value() == ReadOnce(w, i, n);
        ReadKeepsInv(w, maxnconn, i, n);
        ReadWork(w, i, n);
      }
    }

    /** The for loop after select. */
    method Scan(rs: set<int>, ws: set<int>, ghost maxnconn: int)
      requires Inv(Value(), maxnconn) && rs <= rset && ws <= wset && rs + ws != {}
      modifies this, file
      ensures Inv(Value(), maxnconn) && Work(file[..]) < old(Work(file[..]))
      ensures forall i :: 0 <= i < file.Length ==> Answered(old(file[i]), file[i], rs, ws)
    {
      ghost var k := SomeFileReady(Value(), maxnconn, rs, ws);
      var i := 0;
      while i < file.Length
        invariant 0 <= i <= file.Length
        invariant Inv(Value(), maxnconn)
        invariant forall j :: i <= j < file.Length ==> file[j] == old(file[j])
        invariant forall j :: 0 <= j < i ==> Answered(old(file[j]), file[j], rs, ws)
        invariant Work(file[..]) <= old(Work(file[..])) && (k < i ==> Work(file[..]) < old(Work(file[..])))
      {
        Serve(i, rs, ws, maxnconn);
        i := i + 1;
      }
    }

    /** The whole of main's loop. Every file is asked for exactly once and read to the end, unless there are files but not
        one connection is allowed: then select is called with empty sets, and never returns. */
    method Fetch(maxnconn: int) returns (hangs: bool)
      requires Inv(Value(), maxnconn)
      modifies this, file
      ensures hangs <==> old(nlefttoread) > 0 && maxnconn < 1
      ensures hangs ==> nlefttoread == old(nlefttoread) && rset == {} && wset == {}
      ensures !hangs ==> forall i :: 0 <= i < file.Length ==> file[i].flag == Done && file[i].gets == 1 && file[i].left == 0
      ensures !hangs ==> nconn == 0 && rset == {} && wset == {}
    {
      while nlefttoread > 0
        invariant Inv(Value(), maxnconn)
        invariant maxnconn < 1 ==> nlefttoread == old(nlefttoread)
        decreases Work(file[..])
      {
        Fill(maxnconn);
        if maxnconn < 1 {
          NothingOpen(Value(), maxnconn);
        } else {
          SomethingOpen(Value(), maxnconn);
        }
        if rset + wset == {} {
          return true;
        }
        var rs, ws := Select();
        Scan(rs, ws, maxnconn);
      }
      AllDone(Value(), maxnconn);
      hangs := false;
    }
  }

  lemma NothingOpen(w: Web, maxnconn: int)
    requires Inv(w, maxnconn) && maxnconn < 1
    ensures w.rset == {} && w.wset == {}
  {
    CountZero(w.files, Connecting);
    CountZero(w.files, Reading);
  }

  lemma AllDone(w: Web, maxnconn: int)
    requires Inv(w, maxnconn) && w.nlefttoread <= 0
    ensures forall i :: 0 <= i < |w.files| ==> w.files[i].flag == Done && w.files[i].gets == 1 && w.files[i].left == 0
    ensures w.nconn == 0 && w.rset == {} && w.wset == {}
  {
    CountZero(w.files, New);
    CountZero(w.files, Connecting);
    CountZero(w.files, Reading);
    forall i | 0 <= i < |w.files| ensures w.files[i].flag == Done {
      assert w.files[i].flag != New && w.files[i].flag != Connecting && w.files[i].flag != Reading;
    }
  }
}
