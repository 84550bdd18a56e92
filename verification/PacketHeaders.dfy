/** The packets the benches send: headers written by populate_udp_ipv4_headers, a payload, and both
    checksums finished in place. */
module PacketHeaders {
  import opened Words
  import opened Buffers
  import opened Checksum

  datatype Flow = Flow(ethSrc: seq<Byte>, ethDst: seq<Byte>, ipSrc: nat, ipDst: nat, srcPort: nat, dstPort: nat)

  predicate FlowOk(f: Flow) {
    |f.ethSrc| == |f.ethDst| == 6 && f.ipSrc < U32 && f.ipDst < U32 && f.srcPort <= MAX16 && f.dstPort <= MAX16
  }

  function Be16(v: nat): (r: seq<Byte>)
    requires v <= MAX16
    ensures |r| == 2 && Word(r[0], r[1]) == v
  {
    [v / 256, v % 256]
  }

  function Be32(v: nat): (r: seq<Byte>)
    requires v < U32
    ensures |r| == 4
  {
    Be16(v / 65536) + Be16(v % 65536)
  }

  /** Both length fields are cut to 16 bits. */
  function Length16(n: int): (r: nat)
    ensures r <= MAX16
  {
    n % 65536
  }

  /** Ethernet header, and IPv4 header up to its checksum. */
  function Front(f: Flow, n: nat): (r: seq<Byte>)
    requires FlowOk(f)
    ensures |r| == 24 && r[14] == 0x45 && r[23] == 17 && Word(r[16], r[17]) == Length16(n - 14)
  {
    f.ethDst + f.ethSrc + [8, 0, 0x45, 0] + Be16(Length16(n - 14)) + [0, 0, 0, 0, 64, 17]
  }

  /** The addresses, and the UDP header with no checksum. */
  function Back(f: Flow, n: nat): (r: seq<Byte>)
    requires FlowOk(f)
    ensures |r| == 16 && Word(r[12], r[13]) == Length16(n - 34)
  {
    Be32(f.ipSrc) + Be32(f.ipDst) + Be16(f.srcPort) + Be16(f.dstPort) + Be16(Length16(n - 34)) + [0, 0]
  }

  /** The headers of a packet of n bytes. */
  function Headers(f: Flow, n: nat, check: nat): (r: seq<Byte>)
    requires FlowOk(f) && check <= MAX16
    ensures |r| == 42
  {
    Front(f, n) + Be16(check) + Back(f, n)
  }

  /** The header checksum that populate_udp_ipv4_headers stores. */
  function FirstCheck(f: Flow, n: nat): (c: nat)
    requires FlowOk(f)
    ensures c <= MAX16
  {
    Complement(WordSum(Headers(f, n, 0)[14..34]))
  }

  /** populate_udp_ipv4_headers for a packet of n bytes, headers included. */
  method Populate(p: array<Byte>, n: nat, f: Flow)
    requires FlowOk(f) && 42 <= n <= p.Length
    modifies p
    ensures p[..42] == Headers(f, n, FirstCheck(f, n))
    ensures forall i | 42 <= i < n :: p[i] == 0
    ensures p[n..] == old(p[n..])
  {
    hide Headers, Complement;
    ghost var rest := p[n..];
    CopyInto(p, 0, Blank(n));
    assert p[..] == Blank(n) + rest;
    CopyInto(p, 0, Headers(f, n, 0));
    ghost var q := p[..];
    Laid(q, Headers(f, n, 0), n, rest);
    assert p[14..34] == q[14..34];
    var c := ChecksumOf(p[14..34], 0);
    Store16(p, IP_CHECK, c);
    CheckStored(q, f, n, 0, c);
    StoredRest(q, c, n);
    assert p[..42] == p[..][..42] && p[n..] == p[..][n..];
  }

  function Blank(n: nat): (r: seq<Byte>)
    ensures |r| == n
  {
    seq(n, _ => 0)
  }

  lemma Laid(q: seq<Byte>, h: seq<Byte>, n: nat, rest: seq<Byte>)
    requires |h| == 42 <= n && q == h + (Blank(n) + rest)[42..]
    ensures q[..42] == h && q[14..34] == h[14..34] && q[n..] == rest && forall i | 42 <= i < n :: q[i] == 0
  {
  }

  lemma StoredRest(q: seq<Byte>, c: nat, n: nat)
    requires c <= MAX16 && 42 <= n <= |q|
    ensures Put16(q, IP_CHECK, c)[n..] == q[n..] && forall i | 42 <= i < n :: Put16(q, IP_CHECK, c)[i] == q[i]
  {
  }

  /** Storing a checksum changes the headers in that place only. */
  lemma CheckStored(p: seq<Byte>, f: Flow, n: nat, c: nat, d: nat)
    requires FlowOk(f) && c <= MAX16 && d <= MAX16 && |p| >= 42 && p[..42] == Headers(f, n, c)
    ensures Put16(p, IP_CHECK, d)[..42] == Headers(f, n, d) && (c == d ==> Put16(p, IP_CHECK, d) == p)
  {
    hide Front, Back, Be16, Word;
    var q, a, b := Put16(p, IP_CHECK, d), Front(f, n), Back(f, n);
    Halves(c);
    Halves(d);
    Pieces(p[..42], a, Be16(c), b);
    assert p[24] == p[..42][24..26][0] && p[25] == p[..42][24..26][1];
    assert q[..42] == p[..42][..24] + Be16(d) + p[..42][26..];
  }

  lemma Halves(v: nat)
    requires v <= MAX16
    ensures |Be16(v)| == 2 && Be16(v)[0] == v / 256 && Be16(v)[1] == v % 256
  {
  }

  // ---------- What a packet with these headers satisfies ----------

  lemma HeaderFields(p: seq<Byte>, f: Flow, n: nat, check: nat)
    requires FlowOk(f) && check <= MAX16 && 42 <= n <= |p| && p[..42] == Headers(f, n, check)
    ensures p[14] == 0x45 && p[23] == 17 && UdpLen(p) == Length16(n - 34) && Word(p[16], p[17]) == Length16(n - 14)
  {
    hide Front, Back, Be16, Word, Length16;
    var h := p[..42];
    assert forall i | 0 <= i < 24 :: h[i] == Front(f, n)[i];
    assert forall i | 26 <= i < 42 :: h[i] == Back(f, n)[i - 26];
    assert p[14] == h[14] && p[23] == h[23] && p[38] == h[38] && p[39] == h[39] && p[16] == h[16] && p[17] == h[17];
  }

  lemma PopulatedHolds(p: seq<Byte>, f: Flow, n: nat, check: nat)
    requires FlowOk(f) && check <= MAX16 && 42 <= n <= |p| && p[..42] == Headers(f, n, check)
    ensures Holds(p) && HeaderLen(p) == 20 && UdpLen(p) == Length16(n - 34)
    ensures n <= MAX16 + 14 ==> Word(p[16], p[17]) == n - 14 && UdpLen(p) == n - 34
  {
    hide Headers, Word;
    HeaderFields(p, f, n, check);
  }

  /** Whatever the payload and whatever the checksum fields held, once finished the header verifies,
      and so does the UDP part unless its 16-bit length has wrapped to less than a header. A receiver
      finds the UDP header where the code takes it to be. */
  lemma PopulatedVerifies(p: seq<Byte>, f: Flow, n: nat, check: nat)
    requires FlowOk(f) && check <= MAX16 && 42 <= n <= |p| && p[..42] == Headers(f, n, check)
    ensures Holds(p) && IP + HeaderLen(p) == UDP && HeaderGood(Finalized(p))
    ensures Length16(n - 34) >= 8 ==> UdpGood(Finalized(p))
    ensures n <= MAX16 + 14 ==> Word(p[16], p[17]) == n - 14 && UdpLen(p) == n - 34 && UdpGood(Finalized(p))
  {
    hide Headers, Finalized, HeaderGood, UdpGood, Fold, UdpLen, Word;
    PopulatedHolds(p, f, n, check);
    HeaderVerifiesExactly(p);
    UdpVerifiesExactly(p);
  }

  /** Finishing a packet whose headers were just written leaves the header checksum alone. */
  lemma FirstCheckStays(p: seq<Byte>, f: Flow, n: nat)
    requires FlowOk(f) && 42 <= n <= |p| && p[..42] == Headers(f, n, FirstCheck(f, n))
    ensures Holds(p) && WithHeaderCheck(p) == p
  {
    hide Headers, Complement, WordSum, UdpLen, Put16;
    var c := FirstCheck(f, n);
    PopulatedHolds(p, f, n, c);
    CheckStored(p, f, n, c, 0);
    CheckStored(p, f, n, c, c);
    var zero := Put16(p, IP_CHECK, 0);
    PopulatedHolds(zero, f, n, 0);
    assert zero[14..34] == zero[..42][14..34];
  }

  /** The fields a receiver reads (RFC 791, RFC 768), from a packet with these headers. */
  ghost predicate CarriesFlow(p: seq<Byte>, f: Flow, n: nat)
    requires |p| >= 42
  {
    && p[0..6] == f.ethDst && p[6..12] == f.ethSrc && Word(p[12], p[13]) == 0x0800
    && p[14] / 16 == 4 && p[14] % 16 == 5 && p[22] == 64 && p[23] == 17
    && Word(p[16], p[17]) == Length16(n - 14)
    && Word(p[26], p[27]) * 65536 + Word(p[28], p[29]) == f.ipSrc
    && Word(p[30], p[31]) * 65536 + Word(p[32], p[33]) == f.ipDst
    && Word(p[34], p[35]) == f.srcPort && Word(p[36], p[37]) == f.dstPort && Word(p[38], p[39]) == Length16(n - 34)
  }

  lemma FlowRead(p: seq<Byte>, f: Flow, n: nat)
    requires FlowOk(f) && |p| >= 42 && p[..24] == Front(f, n) && p[26..40] == Back(f, n)[..14]
    ensures CarriesFlow(p, f, n)
  {
    hide Word, Be16, Length16;
    var h, b := p[..24], p[26..40];
    assert p[0..6] == h[0..6] && p[6..12] == h[6..12];
    assert forall i | 12 <= i < 24 :: p[i] == h[i];
    assert forall i | 26 <= i < 40 :: p[i] == b[i - 26];
    EtherType();
    FrontRead(f, n);
    BackRead(f, n);
  }

  lemma EtherType()
    ensures Word(8, 0) == 0x0800
  {
  }

  lemma FrontRead(f: Flow, n: nat)
    requires FlowOk(f)
    ensures var h := Front(f, n);
            && h[0..6] == f.ethDst && h[6..12] == f.ethSrc && h[12] == 8 && h[13] == 0
            && h[14] == 0x45 && h[22] == 64 && h[23] == 17 && Word(h[16], h[17]) == Length16(n - 14)
  {
    hide Word, Be16, Length16;
  }

  lemma BackRead(f: Flow, n: nat)
    requires FlowOk(f)
    ensures var b := Back(f, n);
            && Word(b[0], b[1]) * 65536 + Word(b[2], b[3]) == f.ipSrc
            && Word(b[4], b[5]) * 65536 + Word(b[6], b[7]) == f.ipDst
            && Word(b[8], b[9]) == f.srcPort && Word(b[10], b[11]) == f.dstPort && Word(b[12], b[13]) == Length16(n - 34)
  {
    hide Word, Be16, Length16;
  }

  /** The path the benches take: headers, payload, checksums. Up to the largest IPv4 packet, what is
      sent verifies. */
  method MakePacket(p: array<Byte>, headerSize: nat, payload: seq<Byte>, f: Flow)
    requires FlowOk(f) && headerSize >= 42 && p.Length == headerSize + |payload|
    modifies p
    ensures Holds(p[..]) && HeaderGood(p[..]) && (Length16(p.Length - 34) >= 8 ==> UdpGood(p[..]))
    ensures p.Length <= MAX16 + 14 ==> UdpGood(p[..])
    ensures CarriesFlow(p[..], f, p.Length) && p[headerSize..] == payload
  {
    hide Headers, Front, Back, CarriesFlow, Finalized, HeaderGood, UdpGood, FirstCheck, WithHeaderCheck;
    Populate(p, p.Length, f);
    ghost var before := p[..];
    CopyInto(p, headerSize, payload);
    assert p[..42] == before[..42];
    ghost var ready := p[..];
    assert ready[headerSize..] == payload;
    PopulatedVerifies(ready, f, p.Length, FirstCheck(f, p.Length));
    FinalizeUdpIpv4(p);
    OthersKept(ready);
    HeaderParts(ready, f, p.Length, FirstCheck(f, p.Length));
    FlowRead(p[..], f, p.Length);
    assert p[..][headerSize..] == p[..][42..][headerSize - 42..];
    assert ready[headerSize..] == ready[42..][headerSize - 42..];
  }

  lemma HeaderParts(p: seq<Byte>, f: Flow, n: nat, check: nat)
    requires FlowOk(f) && check <= MAX16 && |p| >= 42 && p[..42] == Headers(f, n, check)
    ensures p[..24] == Front(f, n) && p[26..40] == Back(f, n)[..14]
  {
    hide Front, Back, Be16;
    Pieces(p[..42], Front(f, n), Be16(check), Back(f, n));
    assert p[..24] == p[..42][..24] && p[26..40] == p[..42][26..][..14];
  }

  /** Finishing changes the two checksum fields and nothing else. */
  lemma OthersKept(p: seq<Byte>)
    requires Holds(p)
    ensures |Finalized(p)| == |p| && Finalized(p)[..24] == p[..24]
    ensures Finalized(p)[26..40] == p[26..40] && Finalized(p)[42..] == p[42..]
  {
    hide Complement, UdpCheck, HeaderSum, UdpSum;
  }
}
