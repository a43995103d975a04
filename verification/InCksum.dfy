/** in_cksum.cpp: the Internet checksum (sections 1 and 2 of RFC 1071) over a buffer in memory. */
module InCksum {
  import opened Bytes

  const M16 := 65535

  /** How the host reads two bytes of memory as a 16-bit word. */
  datatype Order = LittleEndian | BigEndian

  type uint16 = x: int | 0 <= x < 0x1_0000

  function Load(o: Order, a: byte, b: byte): (w: uint16) {
    var x: int, y: int := a, b;
    if o == LittleEndian then x + 256 * y else 256 * x + y
  }

  function Store(o: Order, w: uint16): (m: seq<byte>)
    ensures |m| == 2 && Load(o, m[0], m[1]) == w
  {
    if o == LittleEndian then [w % 256, w / 256] else [w / 256, w % 256]
  }

  /** Sum of the 16-bit words of s; a last odd byte is padded with a zero byte. */
  function Total(o: Order, s: seq<byte>): nat {
    if |s| == 0 then 0
    else if |s| == 1 then Load(o, s[0], 0)
    else Load(o, s[0], s[1]) + Total(o, s[2..])
  }

  /** One's complement reduction: the word in 1..65535 congruent to x modulo 65535, or 0 for 0. */
  function Fold(x: nat): (f: uint16)
    ensures (f - x) % M16 == 0
    ensures f == 0 <==> x == 0
  {
    if x == 0 then 0
    else
      assert (x - 1) % M16 + 1 - x == -M16 * ((x - 1) / M16);
      (x - 1) % M16 + 1
  }

  /** What a 32-bit accumulator makes of the words of s. */
  function Cksum(o: Order, s: seq<byte>): uint16 {
    M16 - Fold(Total(o, s) % W32)
  }

  method InCksum(o: Order, addr: array<byte>, start: nat, len: nat) returns (answer: uint16)
    requires start + len <= addr.Length
    ensures answer == Cksum(o, addr[start..start + len])
  {
    hide Fold, Load, SameSum;
    var nleft := len;
    var sum: uint32 := 0;
    var w := start;
    ghost var all := addr[start..start + len];
    SumStart(Total(o, all));
    while nleft > 1
      invariant w + nleft == start + len && start <= w
      invariant SameSum(sum, Total(o, addr[w..w + nleft]), Total(o, all))
    {
      ghost var rest := addr[w..w + nleft];
      assert rest[2..] == addr[w + 2..w + nleft];
      AddWord(sum, Load(o, addr[w], addr[w + 1]), Total(o, rest[2..]), Total(o, all));
      sum := (sum + Load(o, addr[w], addr[w + 1])) % W32;
      w := w + 2;
      nleft := nleft - 2;
    }
    if nleft == 1 {
      AddWord(sum, Load(o, addr[w], 0), 0, Total(o, all));
      sum := (sum + Load(o, addr[w], 0)) % W32;
    }
    SumEnd(sum, Total(o, all));
    answer := Answer(sum);
  }

  /** What is in the accumulator and what is still to be added make up the total, modulo 2^32. */
  ghost predicate SameSum(sum: uint32, rest: nat, total: nat) {
    (sum + rest) % W32 == total % W32
  }

  lemma SumStart(total: nat)
    ensures SameSum(0, total, total)
  {
  }

  lemma SumEnd(sum: uint32, total: nat)
    requires SameSum(sum, 0, total)
    ensures sum == total % W32
  {
  }

  lemma AddWord(sum: uint32, w: uint16, rest: nat, total: nat)
    requires SameSum(sum, w + rest, total)
    ensures SameSum((sum + w) % W32, rest, total)
  {
    AddMod(sum + w, rest);
  }

  /** The last three lines: add the high half to the low half twice, complement, cut to 16 bits. */
  function Answer(sum: uint32): (answer: uint16)
    ensures answer == M16 - Fold(sum)
  {
    TwoFolds(sum);
    var once := sum / 0x1_0000 + sum % 0x1_0000;
    M16 - (once + once / 0x1_0000) % 0x1_0000
  }

  lemma AddMod(a: nat, b: nat)
    ensures (a % W32 + b) % W32 == (a + b) % W32
  {
    var q := a / W32;
    var r := (a % W32 + b) / W32;
    assert a + b == W32 * (q + r) + (a % W32 + b) % W32;
  }

  /** Adding the high half twice loses no carry of any 32-bit sum. */
  lemma TwoFolds(sum: uint32)
    ensures var once := sum / 0x1_0000 + sum % 0x1_0000;
            && once + once / 0x1_0000 < W32
            && (once + once / 0x1_0000) % 0x1_0000 == Fold(sum)
  {
    var hi := sum / 0x1_0000;
    var once := hi + sum % 0x1_0000;
    var f := (once + once / 0x1_0000) % 0x1_0000;
    assert sum == once + M16 * hi;
    if once < 0x1_0000 {
      assert f == once;
      SameFold(f, sum, hi);
    } else {
      assert once / 0x1_0000 == 1 && f == once + 1 - 0x1_0000;
      SameFold(f, sum, hi + 1);
    }
  }

  lemma SameFold(f: nat, x: nat, k: nat)
    requires f <= M16 && x == f + M16 * k && (f == 0 ==> k == 0)
    ensures Fold(x) == f
  {
    if f > 0 {
      assert x - 1 == M16 * k + (f - 1);
      DivModUnique(x - 1, k, f - 1);
    }
  }

  lemma DivModUnique(x: nat, q: nat, r: nat)
    requires x == M16 * q + r && r < M16
    ensures x / M16 == q && x % M16 == r
  {
  }

  // ----- the 32-bit accumulator

  const MAXLEN := 131074

  lemma {:induction false} TotalBound(o: Order, s: seq<byte>)
    ensures Total(o, s) <= 65535 * ((|s| + 1) / 2)
    ensures |s| % 2 == 1 ==> Total(o, s) <= 65535 * (|s| / 2) + (if o == LittleEndian then 255 else 65280)
  {
    if |s| < 2 {
    } else {
      TotalBound(o, s[2..]);
      assert (|s| + 1) / 2 == (|s[2..]| + 1) / 2 + 1 && |s| / 2 == |s[2..]| / 2 + 1;
    }
  }

  /** All bytes set: the largest sum of its length. */
  lemma {:induction false} TotalOfOnes(o: Order, n: nat)
    ensures var s: seq<byte> := seq(n, _ => 255);
            Total(o, s) == 65535 * (n / 2) + (if n % 2 == 0 then 0 else if o == LittleEndian then 255 else 65280)
  {
    if n < 2 {
    } else {
      var s: seq<byte> := seq(n, _ => 255);
      TotalOfOnes(o, n - 2);
      assert s[2..] == seq(n - 2, _ => 255);
    }
  }

  /** The accumulator is wide enough for every buffer of n bytes exactly when n <= 131074. */
  lemma AccumulatorIsWideEnough(o: Order, n: nat)
    ensures (forall s: seq<byte> :: |s| == n ==> Total(o, s) < W32) <==> n <= MAXLEN
  {
    if n <= MAXLEN {
      forall s: seq<byte> | |s| == n ensures Total(o, s) < W32 {
        TotalBound(o, s);
      }
    } else {
      var s: seq<byte> := seq(n, _ => 255);
      TotalOfOnes(o, n);
      assert |s| == n && Total(o, s) >= W32;
    }
  }

  lemma NoOverflow(o: Order, s: seq<byte>)
    requires |s| <= MAXLEN
    ensures Cksum(o, s) == M16 - Fold(Total(o, s))
  {
    TotalBound(o, s);
    assert Total(o, s) % W32 == Total(o, s);
  }

  // ----- byte order independence

  function Seconds(s: seq<byte>): nat {
    if |s| < 2 then 0 else s[1] + Seconds(s[2..])
  }

  lemma {:induction false} SwappedTotal(s: seq<byte>)
    ensures 256 * Total(LittleEndian, s) == Total(BigEndian, s) + M16 * Seconds(s)
  {
    if |s| < 2 {
    } else {
      SwappedTotal(s[2..]);
    }
  }

  lemma Congruent(a: int, b: int, k: int)
    requires a == b + M16 * k
    ensures a % M16 == b % M16
  {
    var q := b / M16;
    assert a == M16 * (q + k) + b % M16;
  }

  lemma FoldUnique(f: uint16, g: uint16)
    requires f % M16 == g % M16 && (f == 0 <==> g == 0)
    ensures f == g
  {
  }

  function Swap(w: uint16): uint16 {
    w / 256 + 256 * (w % 256)
  }

  /** Folding commutes with swapping the bytes of all words. */
  lemma FoldSwaps(tl: nat, tb: nat, k: nat)
    requires 256 * tl == tb + M16 * k && (tl == 0 <==> tb == 0)
    ensures Swap(Fold(tl)) == Fold(tb)
  {
    var fl, fb := Fold(tl), Fold(tb);
    var ql, qb := (tl - fl) / M16, (tb - fb) / M16;
    assert tl == fl + M16 * ql && tb == fb + M16 * qb by {
      FoldQuotient(tl);
      FoldQuotient(tb);
    }
    assert 256 * fl == Swap(fl) + M16 * (fl / 256);
    Congruent(Swap(fl), fb, qb + k - 256 * ql - fl / 256);
    FoldUnique(Swap(fl), fb);
  }

  lemma FoldQuotient(x: nat)
    ensures x == Fold(x) + M16 * ((x - Fold(x)) / M16)
  {
    if x > 0 {
      assert x - Fold(x) == M16 * ((x - 1) / M16);
    }
  }

  /** Summing in either byte order leaves the same two checksum bytes in memory. */
  lemma ByteOrderIndependent(s: seq<byte>)
    requires |s| <= MAXLEN
    ensures Store(LittleEndian, Cksum(LittleEndian, s)) == Store(BigEndian, Cksum(BigEndian, s))
  {
    var tl, tb := Total(LittleEndian, s), Total(BigEndian, s);
    NoOverflow(LittleEndian, s);
    NoOverflow(BigEndian, s);
    SwappedTotal(s);
    ZeroTotals(s);
    FoldSwaps(tl, tb, Seconds(s));
    ComplementSwaps(Fold(tl));
  }

  lemma ComplementSwaps(f: uint16)
    ensures Store(LittleEndian, M16 - f) == Store(BigEndian, M16 - Swap(f))
  {
    var h, l := f / 256, f % 256;
    assert M16 - f == 256 * (255 - h) + (255 - l);
    assert M16 - Swap(f) == 256 * (255 - l) + (255 - h);
  }

  lemma {:induction false} ZeroTotals(s: seq<byte>)
    ensures Total(LittleEndian, s) == 0 <==> Total(BigEndian, s) == 0
  {
    if |s| < 2 {
    } else {
      ZeroTotals(s[2..]);
    }
  }

  // ----- what a zero checksum means

  /** A buffer checks to 0 exactly when its words add up to a positive multiple of 65535. */
  lemma ChecksToZero(o: Order, s: seq<byte>)
    requires |s| <= MAXLEN
    ensures Cksum(o, s) == 0 <==> Total(o, s) > 0 && Total(o, s) % M16 == 0
  {
    NoOverflow(o, s);
    var t := Total(o, s);
    FoldQuotient(t);
    Congruent(t, Fold(t), (t - Fold(t)) / M16);
  }

  lemma {:induction false} ReplaceWord(o: Order, s: seq<byte>, k: nat, a: byte, b: byte)
    requires k % 2 == 0 && k + 1 < |s|
    ensures Total(o, s[k := a][k + 1 := b]) == Total(o, s) - Load(o, s[k], s[k + 1]) + Load(o, a, b)
  {
    var t := s[k := a][k + 1 := b];
    if k == 0 {
      assert t[2..] == s[2..];
    } else {
      assert t[2..] == s[2..][k - 2 := a][k - 1 := b];
      ReplaceWord(o, s[2..], k - 2, a, b);
    }
  }

  /** s with word w stored at offset k */
  function Put(o: Order, s: seq<byte>, k: nat, w: uint16): seq<byte>
    requires k + 1 < |s|
  {
    s[k := Store(o, w)[0]][k + 1 := Store(o, w)[1]]
  }

  /** Storing the checksum in its zeroed field makes a second pass return 0; so does 0xffff in place of a checksum of 0. */
  lemma StoredChecksumVerifies(o: Order, s: seq<byte>, k: nat)
    requires |s| <= MAXLEN && k % 2 == 0 && k + 1 < |s| && s[k] == 0 && s[k + 1] == 0
    ensures Cksum(o, Put(o, s, k, Cksum(o, s))) == 0
    ensures Cksum(o, s) == 0 ==> Cksum(o, Put(o, s, k, M16)) == 0
  {
    NoOverflow(o, s);
    FillVerifies(o, s, k, M16 - Fold(Total(o, s)));
    FillVerifies(o, s, k, M16);
  }

  lemma FillVerifies(o: Order, s: seq<byte>, k: nat, w: uint16)
    requires |s| <= MAXLEN && k % 2 == 0 && k + 1 < |s| && s[k] == 0 && s[k + 1] == 0
    ensures w == M16 - Fold(Total(o, s)) || (w == M16 && Fold(Total(o, s)) == M16) ==> Cksum(o, Put(o, s, k, w)) == 0
  {
    var t, f := Total(o, s), Fold(Total(o, s));
    ReplaceWord(o, s, k, Store(o, w)[0], Store(o, w)[1]);
    ChecksToZero(o, Put(o, s, k, w));
    FoldQuotient(t);
    if w == M16 - f {
      Congruent(t + w, 0, (t - f) / M16 + 1);
    } else if w == M16 && f == M16 {
      Congruent(t + w, 0, (t - f) / M16 + 2);
    }
  }

  /** Changing one word of a buffer that checks to 0 goes unnoticed only if it turns 0x0000 into 0xffff or back. */
  lemma SingleWordErrorsAreDetected(o: Order, s: seq<byte>, k: nat, w: uint16)
    requires |s| <= MAXLEN && k % 2 == 0 && k + 1 < |s|
    requires Cksum(o, s) == 0 && Cksum(o, Put(o, s, k, w)) == 0
    ensures var v := Load(o, s[k], s[k + 1]); w == v || {v, w} == {0, M16}
  {
    var v := Load(o, s[k], s[k + 1]);
    ReplaceWord(o, s, k, Store(o, w)[0], Store(o, w)[1]);
    ChecksToZero(o, s);
    ChecksToZero(o, Put(o, s, k, w));
    var t, u := Total(o, s), Total(o, Put(o, s, k, w));
    assert u == t - v + w;
    assert t == M16 * (t / M16) && u == M16 * (u / M16);
    assert w - v == M16 * (u / M16 - t / M16);
  }

  // ----- the checksum as arithmetic on one large number

  /** The bytes of s read as one number, the first byte the highest. */
  function Number(s: seq<byte>): nat {
    if s == [] then 0
    else
      var last: int := s[|s| - 1];
      0x100 * Number(s[..|s| - 1]) + last
  }

  lemma {:induction false} TotalSnoc(o: Order, s: seq<byte>, a: byte, b: byte)
    requires |s| % 2 == 0
    ensures Total(o, s + [a, b]) == Total(o, s) + Load(o, a, b)
  {
    if s == [] {
      assert [] + [a, b] == [a, b];
    } else {
      assert (s + [a, b])[2..] == s[2..] + [a, b];
      TotalSnoc(o, s[2..], a, b);
    }
  }

  lemma NumberSnoc(s: seq<byte>, a: byte, b: byte)
    ensures Number(s + [a, b]) == 0x1_0000 * Number(s) + Load(BigEndian, a, b)
  {
    assert (s + [a, b])[..|s| + 1] == s + [a];
    assert (s + [a])[..|s|] == s;
  }

  /** 2^16 is 1 modulo 65535, so the words of a number add up to the number. */
  lemma {:induction false} NumberIsTotal(s: seq<byte>)
    requires |s| % 2 == 0
    ensures Number(s) % M16 == Total(BigEndian, s) % M16
    ensures Number(s) == 0 <==> Total(BigEndian, s) == 0
  {
    if s == [] {
    } else {
      var t, a, b := s[..|s| - 2], s[|s| - 2], s[|s| - 1];
      assert s == t + [a, b];
      NumberIsTotal(t);
      TotalSnoc(BigEndian, t, a, b);
      NumberSnoc(t, a, b);
      var x, y, w := Number(t), Total(BigEndian, t), Load(BigEndian, a, b);
      var k := x / M16 - y / M16;
      assert x - y == M16 * k;
      Congruent(0x1_0000 * x + w, y + w, k + x);
    }
  }

  lemma {:induction false} OddByteIsPadded(o: Order, s: seq<byte>)
    requires |s| % 2 == 1
    ensures Total(o, s + [0]) == Total(o, s)
  {
    if |s| == 1 {
    } else {
      assert (s + [0])[2..] == s[2..] + [0];
      OddByteIsPadded(o, s[2..]);
    }
  }

  function Padded(s: seq<byte>): seq<byte> {
    if |s| % 2 == 0 then s else s + [0]
  }

  /** For every buffer: with the odd byte padded by a zero, the checksum is the one's complement negative of the number the
      bytes make, modulo 65535; of the two zeros it is 65535 for a number 0 and 0 for any other. A host of the other byte
      order computes the same with its bytes exchanged. */
  lemma ChecksumNegatesTheNumber(s: seq<byte>)
    requires |s| <= MAXLEN
    ensures (Cksum(BigEndian, s) + Number(Padded(s))) % 65535 == 0
    ensures Cksum(BigEndian, s) == 65535 <==> Number(Padded(s)) == 0
    ensures Cksum(LittleEndian, s) == 0x100 * (Cksum(BigEndian, s) % 0x100) + Cksum(BigEndian, s) / 0x100
  {
    var t, n := Total(BigEndian, s), Number(Padded(s));
    if |s| % 2 == 1 {
      OddByteIsPadded(BigEndian, s);
    }
    NumberIsTotal(Padded(s));
    NoOverflow(BigEndian, s);
    FoldQuotient(t);
    var q, k := (t - Fold(t)) / M16, n / M16 - t / M16;
    assert n - t == M16 * k;
    Congruent(M16 - Fold(t) + n, 0, 1 + k + q);
    ByteOrderIndependent(s);
    SwappedStore(Cksum(LittleEndian, s), Cksum(BigEndian, s));
  }

  lemma SwappedStore(l: uint16, b: uint16)
    requires Store(LittleEndian, l) == Store(BigEndian, b)
    ensures l == 0x100 * (b % 0x100) + b / 0x100
  {
    assert Store(LittleEndian, l)[0] == Store(BigEndian, b)[0] && Store(LittleEndian, l)[1] == Store(BigEndian, b)[1];
  }
}
