/** readn.cpp and writen.cpp over a stream socket whose reads and writes are cut short at will. */
module StreamIO {
  import opened Bytes

  datatype Received = Got(s: seq<byte>) | ReadIntr | ReadError

  datatype Sent = Put(n: nat) | WriteIntr | WriteError

  /** One end of a connection: `input` is what is still to arrive before the end of file, `output` what was sent.
      `interrupts` bounds the signals still to come; a broken socket may fail at any call. `failures` counts the reads that
      returned -1 (history). */
  class Sock {
    var input: seq<byte>
    var output: seq<byte>
    var interrupts: nat
    var broken: bool
    var failures: nat

    constructor (input: seq<byte>, interrupts: nat, broken: bool)
      ensures this.input == input && output == [] && this.interrupts == interrupts && this.broken == broken
      ensures failures == 0
    {
      this.input, output, this.interrupts, this.broken, failures := input, [], interrupts, broken, 0;
    }

    /** read(2): any nonempty prefix that fits, and nothing only at the end of file. */
    method Read(max: nat) returns (r: Received)
      requires max > 0
      modifies this`input, this`interrupts, this`failures
      ensures failures == old(failures) + if r.Got? then 0 else 1
      ensures match r
              case Got(s) =>
                && s <= old(input) && |s| <= max && (s == [] <==> old(input) == [])
                && input == old(input)[|s|..] && interrupts == old(interrupts)
              case ReadIntr => input == old(input) && interrupts < old(interrupts)
              case ReadError => input == old(input) && interrupts == old(interrupts) && broken
    {
      var signalled: bool, failed: bool := *, *;
      if signalled && interrupts > 0 {
        interrupts, failures := interrupts - 1, failures + 1;
        return ReadIntr;
      }
      if failed && broken {
        failures := failures + 1;
        return ReadError;
      }
      if input == [] {
        return Got([]);
      }
      assert 1 <= |input|;
      var n: nat :| 0 < n <= |input| && n <= max;
      r := Got(input[..n]);
      input := input[n..];
    }

    /** write(2): any nonempty prefix; a broken socket may also take nothing. */
    method Write(s: seq<byte>) returns (r: Sent)
      requires s != []
      modifies this`output, this`interrupts
      ensures match r
              case Put(n) =>
                n <= |s| && output == old(output) + s[..n] && interrupts == old(interrupts) && (n == 0 ==> broken)
              case WriteIntr => output == old(output) && interrupts < old(interrupts)
              case WriteError => output == old(output) && interrupts == old(interrupts) && broken
    {
      var signalled: bool, failed: bool, n: nat := *, *, *;
      if signalled && interrupts > 0 {
        interrupts := interrupts - 1;
        return WriteIntr;
      }
      if failed && broken {
        return WriteError;
      }
      n := if n > |s| then |s| else if n == 0 && !broken then 1 else n;
      output := output + s[..n];
      r := Put(n);
    }
  }

  /** Reads exactly n bytes, or all there are before the end of file. */
  method Readn(fd: Sock, vptr: array<byte>, n: nat) returns (r: int)
    requires n <= vptr.Length
    modifies fd`input, fd`interrupts, fd`failures, vptr
    ensures r == -1 || r == Min(n, |old(fd.input)|)
    ensures r == -1 ==> fd.broken
    ensures r >= 0 ==> vptr[..r] == old(fd.input)[..r] && fd.input == old(fd.input)[r..]
    ensures vptr[n..] == old(vptr[n..])
    ensures fd.interrupts <= old(fd.interrupts)
  {
    var nleft := n;
    var ptr := 0;
    while nleft > 0
      invariant 0 <= ptr && 0 <= nleft && ptr + nleft == n && ptr <= |old(fd.input)|
      invariant vptr[..ptr] == old(fd.input)[..ptr] && fd.input == old(fd.input)[ptr..]
      invariant vptr[n..] == old(vptr[n..]) && fd.interrupts <= old(fd.interrupts)
      decreases nleft, fd.interrupts
    {
      var nread := fd.Read(nleft);
      match nread
      case ReadIntr =>
      case ReadError =>
        return -1;
      case Got(s) =>
        if s == [] {
          break;
        }
        forall k | 0 <= k < |s| {
          vptr[ptr + k] := s[k];
        }
        assert vptr[..ptr + |s|] == old(fd.input)[..ptr] + s;
        nleft := nleft - |s|;
        ptr := ptr + |s|;
    }
    r := n - nleft;
  }

  /** Writes all of s, or fails after a prefix of it. */
  method Writen(fd: Sock, s: seq<byte>) returns (r: int)
    modifies fd`output, fd`interrupts
    ensures r == |s| || r == -1
    ensures r == |s| ==> fd.output == old(fd.output) + s
    ensures r == -1 ==> fd.broken && exists m :: 0 <= m < |s| && fd.output == old(fd.output) + s[..m]
    ensures fd.interrupts <= old(fd.interrupts)
  {
    var nleft := |s|;
    var ptr := 0;
    while nleft > 0
      invariant 0 <= ptr && 0 <= nleft && ptr + nleft == |s| && fd.output == old(fd.output) + s[..ptr]
      invariant fd.interrupts <= old(fd.interrupts)
      decreases nleft, fd.interrupts
    {
      var nwritten := 0;
      var w := fd.Write(s[ptr..]);
      match w {
        case WriteIntr =>
        case WriteError =>
          return -1;
        case Put(n) =>
          if n == 0 {
            assert s[ptr..][..0] == [];
            return -1;
          }
          nwritten := n;
      }
      assert s[..ptr] + s[ptr..][..nwritten] == s[..ptr + nwritten];
      nleft := nleft - nwritten;
      ptr := ptr + nwritten;
    }
    r := |s|;
  }
}
