/** The Internet checksum (section 2 of RFC 1071) as two programs compute it: one folds the carry
    after every word, the other once at the end; and the packet that is finished with it. */
module Checksum {
  import opened Words
  import opened Buffers

  const MAX16: nat := 0xffff

  // ---------- Reference definitions ----------

  function Word(hi: Byte, lo: Byte): (w: nat)
    ensures w <= MAX16
  {
    (hi as int) * 256 + lo
  }

  /** The sum of the big-endian 16-bit words, an odd last byte padded with a zero byte. */
  function WordSum(d: seq<Byte>): nat {
    if d == [] then 0
    else if |d| == 1 then Word(d[0], 0)
    else Word(d[0], d[1]) + WordSum(d[2..])
  }

  /** The one's-complement value of a sum: carries are added back until none is left. */
  function Fold(x: nat): (r: nat)
    ensures r <= MAX16
  {
    if x <= MAX16 then x else Fold(x % 65536 + x / 65536)
  }

  /** Folding is arithmetic modulo 65535, with 0 kept apart from 65535. */
  lemma {:induction false} FoldValue(x: nat)
    ensures Fold(x) == if x == 0 then 0 else (x - 1) % MAX16 + 1
  {
    if x > MAX16 {
      FoldValue(x % 65536 + x / 65536);
      assert x == 65536 * (x / 65536) + x % 65536;
      var y := x % 65536 + x / 65536;
      assert x - 1 == MAX16 * (x / 65536) + (y - 1);
      ModShift(y - 1, MAX16, x / 65536);
    }
  }

  lemma ModShift(x: int, m: nat, k: int)
    requires m > 0
    ensures (m * k + x) % m == x % m
  {
    assert x == m * (x / m) + x % m;
    assert m * k + x == m * (k + x / m) + x % m;
    DivModUnique(m * k + x, m, k + x / m, x % m);
  }

  /** Folding early never changes the result. */
  lemma FoldAdd(x: nat, y: nat)
    ensures Fold(Fold(x) + y) == Fold(x + y)
  {
    FoldValue(x);
    FoldValue(x + y);
    FoldValue(Fold(x) + y);
    if x > 0 {
      var q := (x - 1) / MAX16;
      assert x - 1 == MAX16 * q + (x - 1) % MAX16;
      assert x + y - 1 == MAX16 * q + (Fold(x) + y - 1);
      ModShift(Fold(x) + y - 1, MAX16, q);
    }
  }

  lemma {:induction false} WordSumAppend(a: seq<Byte>, b: seq<Byte>)
    requires |a| % 2 == 0
    ensures WordSum(a + b) == WordSum(a) + WordSum(b)
  {
    if a == [] {
      assert a + b == b;
    } else {
      assert (a + b)[2..] == a[2..] + b;
      WordSumAppend(a[2..], b);
    }
  }

  lemma {:induction false} WordSumBound(d: seq<Byte>)
    ensures WordSum(d) <= MAX16 * ((|d| + 1) / 2)
  {
    if |d| >= 2 { WordSumBound(d[2..]); }
  }

  lemma WordSumNext(d: seq<Byte>, i: nat)
    requires i + 1 < |d| && i % 2 == 0
    ensures WordSum(d[..i + 2]) == WordSum(d[..i]) + Word(d[i], d[i + 1])
  {
    assert d[..i + 2] == d[..i] + [d[i], d[i + 1]];
    WordSumAppend(d[..i], [d[i], d[i + 1]]);
    assert [d[i], d[i + 1]][2..] == [];
  }

  lemma WordSumLast(d: seq<Byte>)
    requires |d| % 2 == 1
    ensures WordSum(d) == WordSum(d[..|d| - 1]) + Word(d[|d| - 1], 0)
  {
    assert d == d[..|d| - 1] + [d[|d| - 1]];
    WordSumAppend(d[..|d| - 1], [d[|d| - 1]]);
  }

  // ---------- The eager form ----------

  /** The inner loop: carries are added back while there are any. */
  method FoldLoop(x: nat) returns (r: nat)
    ensures r == Fold(x)
  {
    r := x;
    while r / 65536 != 0
      invariant Fold(r) == Fold(x)
      decreases r
    {
      r := r % 65536 + r / 65536;
    }
  }

  /** add_checksum_bytes in 32-bit arithmetic. */
  method AddChecksumBytes(d: seq<Byte>, start: nat) returns (sum: nat)
    requires start + MAX16 < U32
    ensures Fold(sum) == Fold(start + WordSum(d))
    ensures start <= MAX16 || d != [] ==> sum <= MAX16
  {
    hide Fold;
    sum := start;
    var i := 0;
    assert d[..0] == [];
    while i + 1 < |d|
      invariant i % 2 == 0 && i <= |d| && sum + MAX16 < U32
      invariant Fold(sum) == Fold(start + WordSum(d[..i]))
      invariant start <= MAX16 || i > 0 ==> sum <= MAX16
    {
      WordSumNext(d, i);
      var w := Word(d[i], d[i + 1]);
      FoldAddTwo(sum, start + WordSum(d[..i]), w);
      sum := (sum + w) % U32;
      sum := FoldLoop(sum);
      FoldTwice(sum);
      i := i + 2;
    }
    if |d| % 2 != 0 {
      WordSumLast(d);
      FoldAddTwo(sum, start + WordSum(d[..i]), Word(d[|d| - 1], 0));
      sum := (sum + Word(d[|d| - 1], 0)) % U32;
      sum := FoldLoop(sum);
      FoldTwice(sum);
    } else {
      assert d[..i] == d;
    }
  }

  lemma FoldAddTwo(a: nat, b: nat, w: nat)
    requires Fold(a) == Fold(b)
    ensures Fold(a + w) == Fold(b + w)
  {
    hide Fold;
    FoldAdd(a, w);
    FoldAdd(b, w);
  }

  lemma FoldTwice(x: nat)
    requires x <= MAX16
    ensures Fold(x) == x
  {
  }

  /** The checksum of a sum: its one's complement, as a 16-bit number. */
  function Complement(x: nat): (c: nat)
    ensures c <= MAX16
  {
    MAX16 - Fold(x)
  }

  // ---------- The deferred form ----------

  lemma WrapAdd(x: nat, w: nat)
    ensures (x % U32 + w) % U32 == (x + w) % U32
  {
  }

  /** 65535 bytes on top of any 31-bit start stay below 2^32. */
  lemma DeferredFits(start: nat, d: seq<Byte>)
    requires start <= 0x7fff_ffff && |d| <= 65535
    ensures start + WordSum(d) < U32
  {
    WordSumBound(d);
  }

  /** checksum_add: carries pile up in a 32-bit word. */
  method ChecksumAdd(start: nat, d: seq<Byte>) returns (sum: nat)
    requires start < U32
    ensures sum == (start + WordSum(d)) % U32
  {
    assert d[..0] == [];
    assert WordSum(d[..0]) == 0;
    hide Word, WordSum;
    sum := start;
    var i := 0;
    while |d| - i > 1
      invariant i % 2 == 0 && i <= |d|
      invariant sum == (start + WordSum(d[..i])) % U32
    {
      WordSumNext(d, i);
      WrapAdd(start + WordSum(d[..i]), Word(d[i], d[i + 1]));
      var w := Word(d[i], d[i + 1]);
      sum := (sum + w) % U32;
      i := i + 2;
    }
    if |d| - i == 1 {
      WordSumLast(d);
      WrapAdd(start + WordSum(d[..i]), Word(d[i], 0));
      sum := (sum + Word(d[i], 0)) % U32;
    } else {
      assert d[..i] == d;
    }
  }

  /** checksum_finish. */
  method ChecksumFinish(sum: nat) returns (r: nat)
    requires sum < U32
    ensures r == Complement(sum)
  {
    var x := FoldLoop(sum);
    r := MAX16 - x;
  }

  /** Losing the carries out of 32 bits keeps the folded sum exactly when none is lost, or a
      multiple of 65535 of them and not the whole sum. */
  lemma LostCarries(x: nat)
    ensures Fold(x % U32) == Fold(x) <==> x == 0 || (x % U32 > 0 && x / U32 % MAX16 == 0)
  {
    var k, r := x / U32, x % U32;
    assert x == U32 * k + r;
    FoldValue(x);
    FoldValue(r);
    hide Fold;
    if r > 0 {
      assert x - 1 == MAX16 * (65537 * k) + (k + (r - 1));
      ModShift(k + (r - 1), MAX16, 65537 * k);
      SameOffset(k, r - 1);
    }
  }

  lemma SameOffset(k: nat, r: nat)
    ensures (k + r) % MAX16 == r % MAX16 <==> k % MAX16 == 0
  {
  }

  /** The two forms on the same bytes: the same checksum exactly when the 32-bit sum loses no carry
      that matters, so for every packet of up to 65535 bytes. */
  method BothChecksums(d: seq<Byte>) returns (eager: nat, deferred: nat)
    ensures var x := WordSum(d); eager == deferred <==> x == 0 || (x % U32 > 0 && x / U32 % MAX16 == 0)
    ensures |d| <= 65535 ==> eager == deferred
  {
    var sum := AddChecksumBytes(d, 0);
    var x := FoldLoop(sum);
    eager := MAX16 - x;
    sum := ChecksumAdd(0, d);
    deferred := ChecksumFinish(sum);
    LostCarries(WordSum(d));
    if |d| <= 65535 {
      DeferredFits(0, d);
    }
  }

  // ---------- Packets ----------

  // An Ethernet, IPv4 and UDP header in one packed structure: the UDP header has a fixed place.
  const IP: nat := 14
  const UDP: nat := 34
  const IP_CHECK: nat := 24
  const UDP_CHECK: nat := 40

  function HeaderLen(p: seq<Byte>): nat
    requires |p| >= 42
  {
    p[IP] % 16 * 4
  }

  function UdpLen(p: seq<Byte>): nat
    requires |p| >= 42
  {
    Word(p[38], p[39])
  }

  /** The bytes finalize_udp_ipv4_checksums reads are in the buffer. */
  predicate Holds(p: seq<Byte>) {
    |p| >= 42 && IP + HeaderLen(p) <= |p| && UDP + UdpLen(p) <= |p|
  }

  /** A big-endian 16-bit store. */
  function Put16(p: seq<Byte>, at: nat, v: nat): (r: seq<Byte>)
    requires at + 2 <= |p| && v <= MAX16
    ensures |r| == |p|
  {
    p[at := v / 256][at + 1 := v % 256]
  }

  function HeaderSum(p: seq<Byte>): nat
    requires Holds(p)
  {
    WordSum(p[IP..IP + HeaderLen(p)])
  }

  /** Pseudo-header (source, destination, zero, protocol, UDP length) and UDP segment. */
  function UdpSum(p: seq<Byte>): nat
    requires Holds(p)
  {
    WordSum(p[26..34]) + p[23] as int + UdpLen(p) + WordSum(p[UDP..UDP + UdpLen(p)])
  }

  /** 0 is sent as 0xffff (Checksum field of RFC 768). */
  function UdpCheck(sum: nat): (c: nat)
    ensures 0 < c <= MAX16
  {
    if Complement(sum) == 0 then MAX16 else Complement(sum)
  }

  function WithHeaderCheck(p: seq<Byte>): (r: seq<Byte>)
    requires Holds(p)
    ensures |r| == |p|
  {
    var zero := Put16(p, IP_CHECK, 0);
    Put16(p, IP_CHECK, Complement(HeaderSum(zero)))
  }

  function WithUdpCheck(p: seq<Byte>): (r: seq<Byte>)
    requires Holds(p)
    ensures |r| == |p|
  {
    var zero := Put16(p, UDP_CHECK, 0);
    Put16(p, UDP_CHECK, UdpCheck(UdpSum(zero)))
  }

  function Finalized(p: seq<Byte>): (r: seq<Byte>)
    requires Holds(p)
    ensures |r| == |p| && Holds(r)
  {
    WithUdpCheck(WithHeaderCheck(p))
  }

  /** finalize_checksum(add_checksum_bytes(...)) of one range. */
  method ChecksumOf(d: seq<Byte>, start: nat) returns (c: nat)
    requires start <= MAX16
    ensures c == Complement(start + WordSum(d))
  {
    var sum := AddChecksumBytes(d, start);
    var x := FoldLoop(sum);
    c := MAX16 - x;
  }

  lemma TailSum(protocol: Byte, hi: Byte, lo: Byte)
    ensures WordSum([0, protocol, hi, lo]) == protocol as int + Word(hi, lo)
  {
    assert [0, protocol, hi, lo][2..] == [hi, lo];
    assert [hi, lo][2..] == [];
    assert WordSum([hi, lo]) == Word(hi, lo);
  }

  /** The pseudo-header part of the UDP checksum, folded as it goes. */
  method PseudoHeaderSum(p: seq<Byte>) returns (sum: nat)
    requires |p| >= 42
    ensures sum <= MAX16 && Fold(sum) == Fold(WordSum(p[26..34]) + p[23] as int + UdpLen(p))
  {
    hide Fold;
    var udpLen := UdpLen(p);
    var tail: seq<Byte> := [0, p[23], udpLen / 256, udpLen % 256];
    TailSum(p[23], udpLen / 256, udpLen % 256);
    assert p[26..34] == p[26..30] + p[30..34];
    WordSumAppend(p[26..30], p[30..34]);
    hide WordSum;
    sum := AddChecksumBytes(p[26..30], 0);
    FoldAddTwo(sum, WordSum(p[26..30]), WordSum(p[30..34]));
    sum := AddChecksumBytes(p[30..34], sum);
    FoldAddTwo(sum, WordSum(p[26..34]), WordSum(tail));
    sum := AddChecksumBytes(tail, sum);
  }

  method Store16(p: array<Byte>, at: nat, v: nat)
    requires at + 2 <= p.Length && v <= MAX16
    modifies p
    ensures p[..] == Put16(old(p[..]), at, v)
  {
    p[at] := v / 256;
    p[at + 1] := v % 256;
  }

  method StoreHeaderCheck(p: array<Byte>)
    requires Holds(p[..])
    modifies p
    ensures p[..] == WithHeaderCheck(old(p[..]))
  {
    hide WordSum, Fold;
    var headerLen := HeaderLen(p[..]);
    Store16(p, IP_CHECK, 0);
    ghost var zero := p[..];
    var c := ChecksumOf(p[..][IP..IP + headerLen], 0);
    Store16(p, IP_CHECK, c);
  }

  method StoreUdpCheck(p: array<Byte>)
    requires Holds(p[..])
    modifies p
    ensures p[..] == WithUdpCheck(old(p[..]))
  {
    hide WordSum, Fold;
    var udpLen := UdpLen(p[..]);
    Store16(p, UDP_CHECK, 0);
    ghost var zero := p[..];
    var sum := PseudoHeaderSum(p[..]);
    var c := ChecksumOf(p[..][UDP..UDP + udpLen], sum);
    FoldAddTwo(sum, WordSum(zero[26..34]) + zero[23] as int + udpLen, WordSum(zero[UDP..UDP + udpLen]));
    if c == 0 {
      c := MAX16;
    }
    Store16(p, UDP_CHECK, c);
  }

  /** finalize_udp_ipv4_checksums, on the packet in place. */
  method FinalizeUdpIpv4(p: array<Byte>)
    requires Holds(p[..])
    modifies p
    ensures p[..] == Finalized(old(p[..]))
  {
    StoreHeaderCheck(p);
    StoreUdpCheck(p);
  }

  // ---------- What the finished packet satisfies ----------

  /** A sum plus its complement folds to 0xffff, and so it does when 0 is replaced by 0xffff. */
  lemma ComplementCloses(sum: nat)
    ensures Fold(sum + Complement(sum)) == MAX16
    ensures Fold(sum + UdpCheck(sum)) == MAX16
  {
    var c := Complement(sum);
    FoldValue(sum);
    FoldValue(sum + c);
    FoldValue(sum + MAX16);
    hide Fold;
    if sum > 0 {
      var q, r := (sum - 1) / MAX16, (sum - 1) % MAX16;
      assert sum - 1 == MAX16 * q + r;
      ModShift(MAX16 - 1, MAX16, q);
      if c == 0 { ModShift(MAX16 - 1, MAX16, q + 1); }
    }
  }

  /** Storing a word at an even offset of a range adds that word to the range's sum. */
  lemma SumWithWord(p: seq<Byte>, from: nat, to: nat, at: nat, v: nat)
    requires from <= at && at + 2 <= to <= |p| && (at - from) % 2 == 0 && v <= MAX16
    ensures WordSum(Put16(p, at, v)[from..to]) == WordSum(Put16(p, at, 0)[from..to]) + v
  {
    hide WordSum, Put16, Word;
    Around(Put16(p, at, v), from, to, at);
    Around(Put16(p, at, 0), from, to, at);
    Put16Parts(p, from, to, at, v);
    Put16Parts(p, from, to, at, 0);
  }

  /** A stored word reads back, and the bytes on both sides are those of the packet. */
  lemma Put16Parts(p: seq<Byte>, from: nat, to: nat, at: nat, v: nat)
    requires from <= at && at + 2 <= to <= |p| && v <= MAX16
    ensures Word(Put16(p, at, v)[at], Put16(p, at, v)[at + 1]) == v
    ensures Put16(p, at, v)[from..at] == p[from..at] && Put16(p, at, v)[at + 2..to] == p[at + 2..to]
  {
  }

  lemma Around(p: seq<Byte>, from: nat, to: nat, at: nat)
    requires from <= at && at + 2 <= to <= |p| && (at - from) % 2 == 0
    ensures WordSum(p[from..to]) == WordSum(p[from..at]) + Word(p[at], p[at + 1]) + WordSum(p[at + 2..to])
  {
    var rest := p[at..to];
    assert p[from..to] == p[from..at] + rest;
    WordSumAppend(p[from..at], rest);
    assert rest[2..] == p[at + 2..to];
  }

  predicate HeaderGood(p: seq<Byte>)
    requires Holds(p)
  {
    Fold(HeaderSum(p)) == MAX16
  }

  predicate UdpGood(p: seq<Byte>)
    requires Holds(p)
  {
    Fold(UdpSum(p)) == MAX16
  }

  /** The UDP checksum does not depend on the header checksum. */
  lemma UdpSumWithHeaderCheck(p: seq<Byte>)
    requires Holds(p)
    ensures UdpSum(Put16(WithHeaderCheck(p), UDP_CHECK, 0)) == UdpSum(Put16(p, UDP_CHECK, 0))
  {
    hide Fold, WordSum, Complement;
    var a, b := Put16(WithHeaderCheck(p), UDP_CHECK, 0), Put16(p, UDP_CHECK, 0);
    assert a[26..34] == b[26..34] && a[UDP..UDP + UdpLen(p)] == b[UDP..UDP + UdpLen(p)];
  }

  function FinalUdpCheck(p: seq<Byte>): nat
    requires Holds(p)
  {
    UdpCheck(UdpSum(Put16(p, UDP_CHECK, 0)))
  }

  /** The UDP part of the finished packet, from the packet before. */
  lemma FinishedUdp(p: seq<Byte>)
    requires Holds(p)
    ensures Finalized(p) == Put16(WithHeaderCheck(p), UDP_CHECK, FinalUdpCheck(p))
    ensures UdpLen(Finalized(p)) == UdpLen(p) && Finalized(p)[26..34] == p[26..34] && Finalized(p)[23] == p[23]
    ensures Finalized(p)[UDP..UDP + UdpLen(p)] == Put16(p, UDP_CHECK, FinalUdpCheck(p))[UDP..UDP + UdpLen(p)]
  {
    hide Fold, WordSum, Complement;
    UdpSumWithHeaderCheck(p);
  }

  /** With the field inside the segment, the sum is the zeroed packet's sum plus the checksum. */
  lemma UdpSumLong(p: seq<Byte>)
    requires Holds(p) && UdpLen(p) >= 8
    ensures UdpSum(Finalized(p)) == UdpSum(Put16(p, UDP_CHECK, 0)) + FinalUdpCheck(p)
  {
    hide Fold, WordSum, UdpCheck, WithHeaderCheck, Finalized;
    var c := FinalUdpCheck(p);
    FinishedUdp(p);
    SumWithWord(p, UDP, UDP + UdpLen(p), UDP_CHECK, c);
    assert Put16(p, UDP_CHECK, 0)[26..34] == p[26..34];
  }

  /** With a UDP length of 7 only the high byte of the field is inside. */
  lemma UdpSumSeven(p: seq<Byte>)
    requires Holds(p) && UdpLen(p) == 7
    ensures UdpSum(Finalized(p)) == UdpSum(Put16(p, UDP_CHECK, 0)) + FinalUdpCheck(p) / 256 * 256
  {
    hide Fold, UdpCheck, WithHeaderCheck, Finalized;
    var c := FinalUdpCheck(p);
    FinishedUdp(p);
    var x, y := Put16(p, UDP_CHECK, c)[UDP..UDP + 7], Put16(p, UDP_CHECK, 0)[UDP..UDP + 7];
    WordSumLast(x);
    WordSumLast(y);
    assert x[..6] == y[..6];
    hide WordSum;
    assert Put16(p, UDP_CHECK, 0)[26..34] == p[26..34];
  }

  /** Below that, the field is outside its own sum. */
  lemma UdpSumShort(p: seq<Byte>)
    requires Holds(p) && UdpLen(p) < 7
    ensures UdpSum(Finalized(p)) == UdpSum(p)
  {
    hide Fold, WordSum, UdpCheck, WithHeaderCheck, Finalized;
    FinishedUdp(p);
    var c := FinalUdpCheck(p);
    assert Put16(p, UDP_CHECK, c)[UDP..UDP + UdpLen(p)] == p[UDP..UDP + UdpLen(p)];
  }

  /** Whether the UDP part will verify, from the packet as it is before the call. */
  predicate UdpWillVerify(p: seq<Byte>)
    requires Holds(p)
  {
    if UdpLen(p) < 7 then UdpGood(p) else UdpLen(p) >= 8 || FinalUdpCheck(p) % 256 == 0
  }

  /** The UDP sum is 0xffff exactly then: always for a UDP length of at least 8, odd lengths included.
      A length of 7 covers half the checksum field, which works out only if the other half is 0, and
      a shorter one does not reach the field at all. The UDP header is taken at byte 34, as the code
      takes it; a receiver finds it there when the IP header has 20 bytes. */
  lemma UdpVerifiesExactly(p: seq<Byte>)
    requires Holds(p)
    ensures UdpGood(Finalized(p)) <==> UdpWillVerify(p)
    ensures Word(Finalized(p)[UDP_CHECK], Finalized(p)[UDP_CHECK + 1]) > 0
  {
    hide Fold, WordSum, UdpSum, WithHeaderCheck, Finalized;
    FinishedUdp(p);
    var sum, c := UdpSum(Put16(p, UDP_CHECK, 0)), FinalUdpCheck(p);
    ComplementCloses(sum);
    if UdpLen(p) >= 8 {
      UdpSumLong(p);
    } else if UdpLen(p) == 7 {
      UdpSumSeven(p);
      GoodIsMultiple(sum + c);
      GoodIsMultiple(sum + c / 256 * 256);
      HalfWord(sum, c);
    } else {
      UdpSumShort(p);
    }
  }

  lemma HalfWord(sum: nat, c: nat)
    requires 0 < c <= MAX16 && (sum + c) % MAX16 == 0
    ensures sum + c / 256 * 256 > 0 && (sum + c / 256 * 256) % MAX16 == 0 <==> c % 256 == 0
  {
    var low := c % 256;
    assert c / 256 * 256 == c - low;
    if low != 0 {
      assert (sum + c - low) % MAX16 != 0;
    }
  }

  /** Whether the header will verify, from the packet as it is before the call. */
  predicate HeaderWillVerify(p: seq<Byte>)
    requires Holds(p)
  {
    if HeaderLen(p) <= 8 then HeaderGood(p)
    else HeaderLen(p) <= 24 || Word(p[UDP_CHECK], p[UDP_CHECK + 1]) % MAX16 == FinalUdpCheck(p) % MAX16
  }

  /** The header's sum is 0xffff exactly then: always for header lengths of 12 to 24 bytes. A
      shorter header does not reach its checksum field, and a longer one is taken to cover the UDP
      checksum field, which is written after the header has been summed. */
  lemma HeaderVerifiesExactly(p: seq<Byte>)
    requires Holds(p)
    ensures HeaderGood(Finalized(p)) <==> HeaderWillVerify(p)
  {
    hide Fold, WordSum, Complement, UdpCheck, UdpSum;
    var n := HeaderLen(p);
    var q, r := WithHeaderCheck(p), Finalized(p);
    UdpSumWithHeaderCheck(p);
    assert r == Put16(q, UDP_CHECK, FinalUdpCheck(p));
    if n <= 8 {
      assert r[IP..IP + n] == p[IP..IP + n];
    } else {
      HeaderCloses(p);
      if n <= 24 {
        assert r[IP..IP + n] == q[IP..IP + n];
      } else {
        LateWord(q, FinalUdpCheck(p));
      }
    }
  }

  lemma HeaderCloses(p: seq<Byte>)
    requires Holds(p) && HeaderLen(p) > 8
    ensures HeaderGood(WithHeaderCheck(p))
  {
    hide Fold, WordSum, Complement;
    var zero := Put16(p, IP_CHECK, 0);
    SumWithWord(p, IP, IP + HeaderLen(p), IP_CHECK, Complement(HeaderSum(zero)));
    ComplementCloses(HeaderSum(zero));
  }

  /** Writing the UDP checksum under a finished header keeps it good only if the word stays the
      same modulo 65535. */
  lemma LateWord(q: seq<Byte>, c: nat)
    requires Holds(q) && HeaderLen(q) > 24 && HeaderGood(q) && 0 < c <= MAX16
    ensures HeaderGood(Put16(q, UDP_CHECK, c)) <==> Word(q[UDP_CHECK], q[UDP_CHECK + 1]) % MAX16 == c % MAX16
  {
    var was := Word(q[UDP_CHECK], q[UDP_CHECK + 1]);
    assert q == Put16(q, UDP_CHECK, was);
    HeaderWithWord(q, was);
    HeaderWithWord(q, c);
    hide Fold, WordSum, Put16, Word, HeaderLen, HeaderSum;
    var base := HeaderSum(Put16(q, UDP_CHECK, 0));
    GoodIsMultiple(base + was);
    GoodIsMultiple(base + c);
    SameResidue(base, was, c);
  }

  lemma HeaderWithWord(q: seq<Byte>, v: nat)
    requires Holds(q) && HeaderLen(q) > 24 && v <= MAX16
    ensures Holds(Put16(q, UDP_CHECK, v)) && Holds(Put16(q, UDP_CHECK, 0))
    ensures HeaderSum(Put16(q, UDP_CHECK, v)) == HeaderSum(Put16(q, UDP_CHECK, 0)) + v
  {
    hide WordSum;
    SumWithWord(q, IP, IP + HeaderLen(q), UDP_CHECK, v);
  }

  lemma GoodIsMultiple(x: nat)
    ensures Fold(x) == MAX16 <==> x > 0 && x % MAX16 == 0
  {
    FoldValue(x);
    if x > 0 {
      var q, r := (x - 1) / MAX16, (x - 1) % MAX16;
      assert x == MAX16 * q + (r + 1);
      if r + 1 == MAX16 {
        DivModUnique(x, MAX16, q + 1, 0);
      } else {
        DivModUnique(x, MAX16, q, r + 1);
      }
    }
  }

  lemma SameResidue(base: nat, a: nat, b: nat)
    requires (base + a) % MAX16 == 0
    ensures (base + b) % MAX16 == 0 <==> a % MAX16 == b % MAX16
  {
  }

  // ---------- Packets that do not verify ----------

  /** 42 zero bytes but for the IP version and header length, and the UDP length. */
  function Blank(ihl: Byte, udpLen: Byte): (p: seq<Byte>)
    requires ihl < 16
    ensures |p| == 42
  {
    seq(42, _ => 0)[IP := 64 + ihl][39 := udpLen]
  }

  lemma {:induction false} ZeroSum(d: seq<Byte>)
    requires forall i | 0 <= i < |d| :: d[i] == 0
    ensures WordSum(d) == 0
  {
    if |d| >= 2 { ZeroSum(d[2..]); }
  }

  /** The UDP sum of a blank packet: the length counts in the pseudo-header and in the segment. */
  lemma BlankUdpSum(ihl: Byte, udpLen: Byte)
    requires ihl <= 7 && udpLen <= 8
    ensures Holds(Blank(ihl, udpLen)) && Holds(Put16(Blank(ihl, udpLen), UDP_CHECK, 0))
    ensures UdpLen(Blank(ihl, udpLen)) == udpLen && HeaderLen(Blank(ihl, udpLen)) == ihl * 4
    ensures Put16(Blank(ihl, udpLen), UDP_CHECK, 0) == Blank(ihl, udpLen)
    ensures UdpSum(Blank(ihl, udpLen)) == udpLen + if udpLen >= 6 then udpLen else 0
    ensures Word(Blank(ihl, udpLen)[UDP_CHECK], Blank(ihl, udpLen)[UDP_CHECK + 1]) == 0
  {
    var p := Blank(ihl, udpLen);
    ZeroSum(p[26..34]);
    var seg := p[UDP..UDP + udpLen];
    if udpLen >= 6 {
      Around(p, UDP, UDP + udpLen, 38);
      ZeroSum(p[UDP..38]);
      ZeroSum(p[40..UDP + udpLen]);
    } else {
      ZeroSum(seg);
    }
  }

  lemma EmptyUdpFails(p: seq<Byte>)
    requires Holds(p) && UdpLen(p) == 0 && UdpSum(p) == 0
    ensures !UdpGood(Finalized(p))
  {
    hide UdpSum, UdpLen, Finalized;
    UdpVerifiesExactly(p);
  }

  lemma HalfUdpFails(p: seq<Byte>)
    requires Holds(p) && UdpLen(p) == 7 && UdpSum(Put16(p, UDP_CHECK, 0)) == 14
    ensures !UdpGood(Finalized(p))
  {
    hide UdpSum, UdpLen, Finalized, Put16;
    UdpVerifiesExactly(p);
  }

  lemma EmptyHeaderFails(p: seq<Byte>)
    requires Holds(p) && HeaderLen(p) == 0
    ensures !HeaderGood(Finalized(p))
  {
    assert p[IP..IP] == [];
    hide Finalized;
    HeaderVerifiesExactly(p);
  }

  lemma LongHeaderFails(p: seq<Byte>)
    requires Holds(p) && HeaderLen(p) == 28 && UdpSum(Put16(p, UDP_CHECK, 0)) == 16
    requires Word(p[UDP_CHECK], p[UDP_CHECK + 1]) == 0
    ensures !HeaderGood(Finalized(p))
  {
    hide UdpSum, HeaderLen, Finalized, Put16, Word;
    HeaderVerifiesExactly(p);
    assert Fold(16) == 16;
  }

  /** A UDP length of 0: nothing is repaired. A UDP length of 7: half the checksum counts. */
  lemma ShortUdpFails()
    ensures Holds(Blank(5, 0)) && !UdpGood(Finalized(Blank(5, 0)))
    ensures Holds(Blank(5, 7)) && !UdpGood(Finalized(Blank(5, 7)))
  {
    hide *;
    BlankUdpSum(5, 0);
    BlankUdpSum(5, 7);
    EmptyUdpFails(Blank(5, 0));
    HalfUdpFails(Blank(5, 7));
  }

  /** A header length of 0 never covers its checksum; one of 28 covers the UDP checksum, which
      changes after the header was summed. */
  lemma OddHeadersFail()
    ensures Holds(Blank(0, 8)) && !HeaderGood(Finalized(Blank(0, 8)))
    ensures Holds(Blank(7, 8)) && !HeaderGood(Finalized(Blank(7, 8)))
  {
    hide *;
    BlankUdpSum(0, 8);
    BlankUdpSum(7, 8);
    EmptyHeaderFails(Blank(0, 8));
    LongHeaderFails(Blank(7, 8));
  }

  // ---------- The packet writer's form ----------

  /** ipv4_checksum of the 20 bytes of a header. */
  method Ipv4Checksum(header: seq<Byte>) returns (r: nat)
    requires |header| == 20
    ensures r == Complement(WordSum(header))
  {
    DeferredFits(0, header);
    hide Fold, WordSum;
    var sum := ChecksumAdd(0, header);
    r := ChecksumFinish(sum);
  }

  lemma AddressesFit(p: seq<Byte>)
    requires |p| >= UDP
    ensures WordSum(p[26..34]) <= 4 * MAX16
  {
    WordSumBound(p[26..34]);
  }

  lemma NoWrap(x: nat, y: nat, z: nat)
    requires x <= 4 * MAX16 && y < 256 && z <= MAX16
    ensures x % U32 == x && (x + y) % U32 == x + y && (x + y + z) % U32 == x + y + z
  {
  }

  /** udp_checksum of a whole packet; the 32-bit sum cannot overflow. */
  method UdpChecksum(p: seq<Byte>) returns (r: nat)
    requires |p| >= UDP
    ensures var n := (|p| - UDP) % 65536;
            r == UdpCheck(WordSum(p[26..34]) + 17 + n + WordSum(p[UDP..UDP + n]))
  {
    var udpLen := (|p| - UDP) % 65536;
    AddressesFit(p);
    hide Fold, WordSum;
    var sum := ChecksumAdd(0, p[26..34]);
    NoWrap(WordSum(p[26..34]), 17, udpLen);
    sum := (sum + 17) % U32;
    sum := (sum + udpLen) % U32;
    DeferredFits(sum, p[UDP..UDP + udpLen]);
    sum := ChecksumAdd(sum, p[UDP..UDP + udpLen]);
    r := ChecksumFinish(sum);
    if r == 0 {
      r := MAX16;
    }
  }

  /** Checksums of sums that differ by less than 65535 are the same only for the same sum. */
  lemma SameCheck(base: nat, a: nat, b: nat)
    requires a < 256 && b == 17
    ensures UdpCheck(base + a) == UdpCheck(base + b) <==> a == b
  {
    FoldValue(base + a);
    FoldValue(base + b);
    hide Fold;
    if a != b && base + a > 0 {
      NearResidues(base + a - 1, base + b - 1);
    }
  }

  lemma NearResidues(x: nat, y: nat)
    requires x != y && x < y + 256 && y < x + 256
    ensures x % MAX16 != y % MAX16
  {
  }

  /** Both programs on one packet: the checksum the first stores in place is the one the second
      computes for the packet with its checksum field cleared, exactly when the protocol is UDP. */
  method BothPrograms(p: seq<Byte>) returns (stored: nat, computed: nat)
    requires Holds(p)
    ensures |p| == UDP + UdpLen(p) ==> (stored == computed <==> p[23] == 17)
  {
    hide Fold, WordSum, Finalized, Complement, UdpCheck, FinalUdpCheck, Put16, Word;
    var buf := new Byte[|p|](i requires 0 <= i < |p| => p[i]);
    assert buf[..] == p;
    FinalizeUdpIpv4(buf);
    StoredCheck(p);
    stored := Word(buf[..][UDP_CHECK], buf[..][UDP_CHECK + 1]);
    computed := UdpChecksum(Put16(p, UDP_CHECK, 0));
    ChecksAgree(p);
  }

  lemma StoredCheck(p: seq<Byte>)
    requires Holds(p)
    ensures |Finalized(p)| == |p| >= 42
    ensures Word(Finalized(p)[UDP_CHECK], Finalized(p)[UDP_CHECK + 1]) == FinalUdpCheck(p)
  {
    hide Fold, WordSum, Complement;
    FinishedUdp(p);
  }

  lemma ChecksAgree(p: seq<Byte>)
    requires Holds(p)
    ensures var zero := Put16(p, UDP_CHECK, 0);
            var n := (|p| - UDP) % 65536;
            |p| == UDP + UdpLen(p) ==>
              (FinalUdpCheck(p) == UdpCheck(WordSum(zero[26..34]) + 17 + n + WordSum(zero[UDP..UDP + n])) <==> p[23] == 17)
  {
    hide Fold, WordSum, Complement, UdpCheck;
    var zero := Put16(p, UDP_CHECK, 0);
    SameCheck(WordSum(zero[26..34]) + UdpLen(p) + WordSum(zero[UDP..UDP + UdpLen(p)]), p[23], 17);
  }
}
