/** The append-only PCAP writer and an independent reader of the classic capture format
    (sections 4 and 5 of IETF draft-ietf-opsawg-pcap), little-endian host. */
module Pcap {
  import opened Words
  import opened Buffers
  import opened SegmentWalk

  const MAGIC_USEC: nat := 0xa1b2c3d4
  const VERSION_MAJOR: nat := 2
  const VERSION_MINOR: nat := 4
  const LINKTYPE_ETHERNET: nat := 1
  const GLOBAL_HEADER_SIZE: nat := 24
  const PACKET_HEADER_SIZE: nat := 16
  const DEFAULT_SNAPLEN: nat := 65535

  // ---------- Little-endian fields ----------

  function Le16(x: nat): (b: seq<Byte>)
    ensures |b| == 2
  {
    [x % 256, x / 256 % 256]
  }

  function Le32(x: nat): (b: seq<Byte>)
    ensures |b| == 4
  {
    [x % 256, x / 256 % 256, x / 65536 % 256, x / 16777216 % 256]
  }

  function FromLe16(b: seq<Byte>): nat
    requires |b| == 2
  {
    b[0] as int + 256 * (b[1] as int)
  }

  function FromLe32(b: seq<Byte>): nat
    requires |b| == 4
  {
    b[0] as int + 256 * (b[1] as int) + 65536 * (b[2] as int) + 16777216 * (b[3] as int)
  }

  lemma Le16RoundTrip(x: nat)
    requires x < 65536
    ensures FromLe16(Le16(x)) == x
  {
  }

  lemma Le32RoundTrip(x: nat)
    requires x < U32
    ensures FromLe32(Le32(x)) == x
  {
    Halves(x / 65536);
    Halves(x);
    assert x / 16777216 == x / 65536 / 256;
  }

  /** A number of more than 32 bits keeps its low 32. */
  lemma Le32Cut(x: nat)
    ensures FromLe32(Le32(x)) == x % U32
  {
    var y := x % U32;
    LowBytes(x, y);
    Le32RoundTrip(y);
  }

  lemma LowBytes(x: nat, y: nat)
    requires y == x % U32
    ensures Le32(x) == Le32(y)
  {
    LowDigits(x, y, x / U32);
  }

  lemma LowDigits(x: nat, y: nat, k: nat)
    requires x == U32 * k + y
    ensures x % 256 == y % 256 && x / 256 % 256 == y / 256 % 256
    ensures x / 65536 % 256 == y / 65536 % 256 && x / 16777216 % 256 == y / 16777216 % 256
  {
    assert x / 1 == x && y / 1 == y;
    LowByte(x, y, 16777216 * k, 1);
    LowByte(x, y, 65536 * k, 256);
    LowByte(x, y, 256 * k, 65536);
    LowByte(x, y, k, 16777216);
  }

  lemma LowByte(x: nat, y: nat, k: nat, d: nat)
    requires d > 0 && x == d * (256 * k) + y
    ensures x / d % 256 == y / d % 256
  {
    var z := y / d;
    assert x == d * (256 * k + z) + y % d;
    DivModUnique(x, d, 256 * k + z, y % d);
    DivModUnique(256 * k + z, 256, k + z / 256, z % 256);
  }

  /** The low two bytes of a word, and the rest. */
  lemma Halves(x: nat)
    ensures x % 256 + 256 * (x / 256 % 256) + 65536 * (x / 65536) == x
  {
    assert x / 256 / 256 == x / 65536;
  }

  // ---------- Writing ----------

  /** A packet and the time its record header is made. */
  datatype Captured = Captured(sec: nat, usec: nat, segs: seq<Segment>) {
    function Data(): seq<Byte> {
      Content(segs)
    }
  }

  function GlobalHeader(snaplen: nat): (b: seq<Byte>)
    ensures |b| == GLOBAL_HEADER_SIZE
  {
    Le32(MAGIC_USEC) + Le16(VERSION_MAJOR) + Le16(VERSION_MINOR) + Le32(0) + Le32(0) + Le32(snaplen) + Le32(LINKTYPE_ETHERNET)
  }

  function PacketHeader(sec: nat, usec: nat, len: nat): (b: seq<Byte>)
    ensures |b| == PACKET_HEADER_SIZE
  {
    Le32(sec) + Le32(usec) + Le32(len) + Le32(len)
  }

  function Record(p: Captured): seq<Byte> {
    PacketHeader(p.sec, p.usec, |p.Data()|) + p.Data()
  }

  function Records(ps: seq<Captured>): seq<Byte> {
    if ps == [] then [] else Records(ps[..|ps| - 1]) + Record(ps[|ps| - 1])
  }

  function MaxLength(ps: seq<Captured>): nat {
    if ps == [] then 0
    else
      var rest, last := MaxLength(ps[..|ps| - 1]), |ps[|ps| - 1].Data()|;
      if rest < last then last else rest
  }

  datatype File = Absent | Present(bytes: seq<Byte>)

  datatype Status = Success | InvalidParameter | NullPointer

  ghost predicate HasIllegal(ps: seq<Captured>) {
    exists p, s | p in ps && s in p.segs :: s.Illegal()
  }

  /** The checks of initialize_or_validate_pcap_file on a file that already has content. */
  predicate Compatible(bytes: seq<Byte>) {
    && |bytes| >= GLOBAL_HEADER_SIZE
    && FromLe32(bytes[0..4]) == MAGIC_USEC
    && FromLe16(bytes[4..6]) == VERSION_MAJOR && FromLe16(bytes[6..8]) == VERSION_MINOR
    && FromLe32(bytes[20..24]) == LINKTYPE_ETHERNET
  }

  function Snaplen(bytes: seq<Byte>): nat
    requires Compatible(bytes)
  {
    FromLe32(bytes[16..20])
  }

  /** What one write of a burst does to the file. */
  ghost function Append(f: File, ps: seq<Captured>): (Status, File) {
    var bytes := if f.Present? then f.bytes else [];
    if MaxLength(ps) >= U32 then (InvalidParameter, f)
    else if HasIllegal(ps) then (NullPointer, f)
    else if bytes == [] then
      (Success, Present(GlobalHeader(if MaxLength(ps) == 0 then DEFAULT_SNAPLEN else MaxLength(ps)) + Records(ps)))
    else if !Compatible(bytes) || MaxLength(ps) > Snaplen(bytes) then (InvalidParameter, f)
    else (Success, Present(bytes + Records(ps)))
  }

  lemma RecordsNone()
    ensures Records([]) == []
  {
  }

  lemma RecordsSnoc(ps: seq<Captured>, k: nat)
    requires k < |ps|
    ensures Records(ps[..k + 1]) == Records(ps[..k]) + Record(ps[k])
    ensures MaxLength(ps[..k + 1]) == if MaxLength(ps[..k]) < |ps[k].Data()| then |ps[k].Data()| else MaxLength(ps[..k])
  {
    assert ps[..k + 1][..k] == ps[..k];
  }

  /** The output file of the PCAP writer. */
  class PcapFile {
    var file: File

    constructor ()
      ensures file == Absent
    {
      file := Absent;
    }

    /** validate_pcap_packet_lengths: the longest packet, unless one needs more than 32 bits. */
    method LongestPacket(ps: seq<Captured>) returns (ok: bool, longest: nat)
      ensures ok <==> MaxLength(ps) < U32
      ensures ok ==> longest == MaxLength(ps)
    {
      longest := 0;
      assert ps[..0] == [];
      for k := 0 to |ps|
        invariant longest == MaxLength(ps[..k]) < U32
      {
        RecordsSnoc(ps, k);
        MaxLengthGrows(ps, k + 1, |ps|);
        assert ps[..|ps|] == ps;
        var len := |ps[k].Data()|;
        if len >= U32 {
          return false, 0;
        }
        longest := if longest < len then len else longest;
      }
      assert ps[..|ps|] == ps;
      ok := true;
    }

    /** preflight_device_segments on a burst without device segments. */
    method Preflight(ps: seq<Captured>) returns (ok: bool)
      ensures ok <==> !HasIllegal(ps)
    {
      for k := 0 to |ps|
        invariant forall j, s | 0 <= j < k && s in ps[j].segs :: !s.Illegal()
      {
        for i := 0 to |ps[k].segs|
          invariant forall x | 0 <= x < i :: !ps[k].segs[x].Illegal()
        {
          if ps[k].segs[i].Illegal() {
            assert ps[k] in ps && ps[k].segs[i] in ps[k].segs;
            return false;
          }
        }
      }
      ok := true;
    }

    /** build_pcap_write_handle for host memory: a rejected burst leaves the file as it was. */
    method AppendBurst(ps: seq<Captured>) returns (status: Status)
      modifies this
      ensures (status, file) == Append(old(file), ps)
    {
      hide GlobalHeader, Records, Record, Compatible, MaxLength, HasIllegal, Snaplen;
      RecordsNone();
      var fits, longest := LongestPacket(ps);
      if !fits {
        return InvalidParameter;
      }
      var legal := Preflight(ps);
      if !legal {
        return NullPointer;
      }
      var out := if file.Present? then file.bytes else [];
      if out == [] {
        out := GlobalHeader(if longest == 0 then DEFAULT_SNAPLEN else longest);
      } else if !Compatible(out) || longest > Snaplen(out) {
        return InvalidParameter;
      }
      var start := out;
      assert ps[..0] == [];
      for k := 0 to |ps|
        invariant out == start + Records(ps[..k])
        invariant file == old(file)
      {
        RecordsSnoc(ps, k);
        out := AppendRecord(out, ps[k]);
      }
      assert ps[..|ps|] == ps;
      file := Present(out);
      status := Success;
    }

    /** One packet: its header, then segment after segment. */
    method AppendRecord(out: seq<Byte>, p: Captured) returns (out': seq<Byte>)
      ensures out' == out + Record(p)
    {
      hide Content, PacketHeader, Segment.Bytes;
      out' := out + PacketHeader(p.sec, p.usec, |p.Data()|);
      assert p.segs[..0] == [];
      ContentNone();
      for k := 0 to |p.segs|
        invariant out' == out + PacketHeader(p.sec, p.usec, |p.Data()|) + Content(p.segs[..k])
      {
        ContentSnoc(p.segs, k);
        SegmentLength(p.segs[k]);
        if |p.segs[k].data| == 0 {
          continue;
        }
        out' := out' + p.segs[k].Bytes();
      }
      ContentAll(p.segs);
    }
  }

  lemma {:induction false} MaxLengthGrows(ps: seq<Captured>, j: nat, k: nat)
    requires j <= k <= |ps|
    ensures MaxLength(ps[..j]) <= MaxLength(ps[..k])
  {
    hide Records, Record, Captured.Data, MaxLength;
    if j < k {
      MaxLengthGrows(ps, j, k - 1);
      RecordsSnoc(ps, k - 1);
    }
  }

  // ---------- Reading ----------

  datatype Packet = Packet(sec: nat, usec: nat, data: seq<Byte>)

  datatype Capture = Bad | Good(snaplen: nat, packets: seq<Packet>)

  /** Record after record: header, length check against the snapshot length, data. */
  function ReadRecords(b: seq<Byte>, snaplen: nat): Capture
    decreases |b|
  {
    if b == [] then Good(snaplen, [])
    else if |b| < PACKET_HEADER_SIZE then Bad
    else
      var incl := FromLe32(b[8..12]);
      if incl > snaplen || incl > FromLe32(b[12..16]) || PACKET_HEADER_SIZE + incl > |b| then Bad
      else
        var rest := ReadRecords(b[PACKET_HEADER_SIZE + incl..], snaplen);
        var packet := Packet(FromLe32(b[0..4]), FromLe32(b[4..8]), b[PACKET_HEADER_SIZE..PACKET_HEADER_SIZE + incl]);
        if rest.Bad? then Bad else Good(snaplen, [packet] + rest.packets)
  }

  function Read(b: seq<Byte>): Capture {
    if !Compatible(b) then Bad else ReadRecords(b[GLOBAL_HEADER_SIZE..], Snaplen(b))
  }

  /** The packets with their times, in seconds modulo 2^32 and microseconds. */
  function Packets(ps: seq<Captured>): seq<Packet> {
    seq(|ps|, i requires 0 <= i < |ps| => Packet(ps[i].sec % U32, ps[i].usec % U32, ps[i].Data()))
  }

  lemma HeaderFields(snaplen: nat, rest: seq<Byte>)
    requires snaplen < U32
    ensures Compatible(GlobalHeader(snaplen) + rest) && Snaplen(GlobalHeader(snaplen) + rest) == snaplen
    ensures (GlobalHeader(snaplen) + rest)[GLOBAL_HEADER_SIZE..] == rest
  {
    var b := GlobalHeader(snaplen) + rest;
    assert b[0..4] == Le32(MAGIC_USEC) && b[4..6] == Le16(VERSION_MAJOR) && b[6..8] == Le16(VERSION_MINOR);
    assert b[16..20] == Le32(snaplen) && b[20..24] == Le32(LINKTYPE_ETHERNET);
    Le32RoundTrip(MAGIC_USEC);
    Le32RoundTrip(snaplen);
    Le32RoundTrip(LINKTYPE_ETHERNET);
    Le16RoundTrip(VERSION_MAJOR);
    Le16RoundTrip(VERSION_MINOR);
  }

  lemma RecordFields(p: Captured, rest: seq<Byte>)
    requires |p.Data()| < U32
    ensures var b := Record(p) + rest;
            && |b| == PACKET_HEADER_SIZE + |p.Data()| + |rest|
            && FromLe32(b[0..4]) == p.sec % U32 && FromLe32(b[4..8]) == p.usec % U32
            && FromLe32(b[8..12]) == |p.Data()| == FromLe32(b[12..16])
            && b[PACKET_HEADER_SIZE..PACKET_HEADER_SIZE + |p.Data()|] == p.Data()
            && b[PACKET_HEADER_SIZE + |p.Data()|..] == rest
  {
    var b := Record(p) + rest;
    assert b[0..4] == Le32(p.sec) && b[4..8] == Le32(p.usec);
    assert b[8..12] == Le32(|p.Data()|) && b[12..16] == Le32(|p.Data()|);
    Le32Cut(p.sec);
    Le32Cut(p.usec);
    Le32RoundTrip(|p.Data()|);
  }

  lemma {:induction false} RecordsCons(ps: seq<Captured>)
    requires ps != []
    ensures Records(ps) == Record(ps[0]) + Records(ps[1..])
  {
    hide Record;
    var n := |ps| - 1;
    if n == 0 {
      assert ps[..0] == [] && ps[1..] == [];
    } else {
      RecordsCons(ps[..n]);
      assert ps[..n][1..] == ps[1..][..n - 1];
      Associates(Record(ps[0]), Records(ps[1..][..n - 1]), Record(ps[n]));
    }
  }

  /** Reading back what was written. */
  lemma {:induction false} RecordsReadBack(ps: seq<Captured>, snaplen: nat)
    requires snaplen < U32 && forall i | 0 <= i < |ps| :: |ps[i].Data()| <= snaplen
    ensures ReadRecords(Records(ps), snaplen) == Good(snaplen, Packets(ps))
  {
    hide Record, FromLe32, Captured.Data;
    if ps != [] {
      RecordsCons(ps);
      RecordFields(ps[0], Records(ps[1..]));
      RecordsReadBack(ps[1..], snaplen);
      assert Packets(ps) == [Packet(ps[0].sec % U32, ps[0].usec % U32, ps[0].Data())] + Packets(ps[1..]);
    }
  }

  // ---------- Runs ----------

  /** The file after a sequence of bursts, starting from no file. */
  ghost function FileAfter(bursts: seq<seq<Captured>>): File {
    if bursts == [] then Absent else Append(FileAfter(bursts[..|bursts| - 1]), bursts[|bursts| - 1]).1
  }

  /** The packets of the bursts that were accepted, in order. */
  ghost function Accepted(bursts: seq<seq<Captured>>): seq<Captured> {
    if bursts == [] then []
    else
      var n := |bursts| - 1;
      if Append(FileAfter(bursts[..n]), bursts[n]).0.Success? then Accepted(bursts[..n]) + bursts[n] else Accepted(bursts[..n])
  }

  /** The snapshot length fixed by the first accepted burst; 0 before that. */
  ghost function FirstSnaplen(bursts: seq<seq<Captured>>): nat {
    if bursts == [] then 0
    else
      var n := |bursts| - 1;
      if FileAfter(bursts[..n]).Present? then FirstSnaplen(bursts[..n])
      else if !Append(FileAfter(bursts[..n]), bursts[n]).0.Success? then 0
      else if MaxLength(bursts[n]) == 0 then DEFAULT_SNAPLEN else MaxLength(bursts[n])
  }

  lemma Associates<T>(a: seq<T>, b: seq<T>, c: seq<T>)
    ensures a + (b + c) == (a + b) + c
  {
  }

  lemma {:induction false} RecordsAppend(a: seq<Captured>, b: seq<Captured>)
    ensures Records(a + b) == Records(a) + Records(b)
  {
    hide Record;
    if b == [] {
      assert a + b == a;
    } else {
      var n := |b| - 1;
      RecordsAppend(a, b[..n]);
      assert (a + b)[..|a| + n] == a + b[..n] && (a + b)[|a| + n] == b[n];
      Associates(Records(a), Records(b[..n]), Record(b[n]));
    }
  }

  lemma {:induction false} MaxLengthIsMax(ps: seq<Captured>)
    ensures forall i | 0 <= i < |ps| :: |ps[i].Data()| <= MaxLength(ps)
    ensures ps != [] ==> exists i | 0 <= i < |ps| :: |ps[i].Data()| == MaxLength(ps)
    ensures ps == [] ==> MaxLength(ps) == 0
  {
    hide Captured.Data;
    if ps != [] {
      var n := |ps| - 1;
      MaxLengthIsMax(ps[..n]);
      if MaxLength(ps) != |ps[n].Data()| {
        var i :| 0 <= i < n && |ps[..n][i].Data()| == MaxLength(ps[..n]);
        assert |ps[i].Data()| == MaxLength(ps);
      }
    }
  }

  /** A file is one header and the accepted records, none longer than the header says. */
  ghost predicate Holds(f: File, ps: seq<Captured>, snaplen: nat) {
    if f.Absent? then ps == [] && snaplen == 0
    else
      && 0 < snaplen < U32 && f.bytes == GlobalHeader(snaplen) + Records(ps)
      && forall i | 0 <= i < |ps| :: |ps[i].Data()| <= snaplen
  }

  lemma AppendToFile(bytes: seq<Byte>, ps: seq<Captured>, snaplen: nat, burst: seq<Captured>)
    requires Holds(Present(bytes), ps, snaplen)
    ensures Append(Present(bytes), burst).0.Success? <==> MaxLength(burst) <= snaplen && !HasIllegal(burst)
    ensures Append(Present(bytes), burst).0.Success? ==> Holds(Append(Present(bytes), burst).1, ps + burst, snaplen)
  {
    hide GlobalHeader, Records, Record, Compatible, MaxLength, HasIllegal, Snaplen, Captured.Data;
    HeaderFields(snaplen, Records(ps));
    RecordsAppend(ps, burst);
    MaxLengthIsMax(burst);
    assert GlobalHeader(snaplen) + Records(ps) + Records(burst) == GlobalHeader(snaplen) + (Records(ps) + Records(burst));
  }

  lemma AppendToNothing(burst: seq<Captured>)
    requires Append(Absent, burst).0.Success?
    ensures Holds(Append(Absent, burst).1, burst, if MaxLength(burst) == 0 then DEFAULT_SNAPLEN else MaxLength(burst))
  {
    MaxLengthIsMax(burst);
  }

  lemma {:induction false} RunHolds(bursts: seq<seq<Captured>>)
    ensures Holds(FileAfter(bursts), Accepted(bursts), FirstSnaplen(bursts))
  {
    if bursts != [] {
      var n := |bursts| - 1;
      var f := FileAfter(bursts[..n]);
      RunHolds(bursts[..n]);
      hide GlobalHeader, Records, Record, Compatible, MaxLength, HasIllegal, Snaplen, Captured.Data;
      if f.Present? {
        AppendToFile(f.bytes, Accepted(bursts[..n]), FirstSnaplen(bursts[..n]), bursts[n]);
      } else if Append(f, bursts[n]).0.Success? {
        AppendToNothing(bursts[n]);
        assert [] + bursts[n] == bursts[n];
      }
    }
  }

  /** After any sequence of bursts a reader of the format recovers exactly the packets of the
      accepted bursts, all within the snapshot length fixed by the first of them. */
  lemma CaptureReadsBack(bursts: seq<seq<Captured>>)
    requires FileAfter(bursts).Present?
    ensures Read(FileAfter(bursts).bytes) == Good(FirstSnaplen(bursts), Packets(Accepted(bursts)))
    ensures forall i | 0 <= i < |Accepted(bursts)| :: |Accepted(bursts)[i].Data()| <= FirstSnaplen(bursts)
  {
    RunHolds(bursts);
    HeaderFields(FirstSnaplen(bursts), Records(Accepted(bursts)));
    RecordsReadBack(Accepted(bursts), FirstSnaplen(bursts));
  }

  /** No packet is longer, and a null pointer stands only for a flagged or an empty segment. */
  ghost predicate Fits(burst: seq<Captured>, longest: nat) {
    && (forall p | p in burst :: |p.Data()| <= longest)
    && forall p, s | p in burst && s in p.segs :: s.missing ==> s.flagged || s.data == []
  }

  lemma FitsExact(burst: seq<Captured>, longest: nat)
    ensures Fits(burst, longest) <==> MaxLength(burst) <= longest && !HasIllegal(burst)
  {
    hide Captured.Data, MaxLength;
    MaxLengthIsMax(burst);
    if Fits(burst, longest) {
      if burst != [] {
        var i :| 0 <= i < |burst| && |burst[i].Data()| == MaxLength(burst);
        assert burst[i] in burst;
      }
    } else if !HasIllegal(burst) && MaxLength(burst) <= longest {
      forall p, s | p in burst && s in p.segs ensures s.missing ==> s.flagged || s.data == [] {
        assert !s.Illegal();
      }
      assert false;
    }
  }

  lemma Le16Exact(b: seq<Byte>, x: nat)
    requires |b| == 2 && x < 65536
    ensures FromLe16(b) == x <==> b == Le16(x)
  {
    Le16RoundTrip(x);
    if FromLe16(b) == x {
      assert b == [b[0], b[1]];
    }
  }

  lemma Le32Exact(b: seq<Byte>, x: nat)
    requires |b| == 4 && x < U32
    ensures FromLe32(b) == x <==> b == Le32(x)
  {
    Le32RoundTrip(x);
    if FromLe32(b) == x {
      Digits(x, b[0], b[1], b[2], b[3]);
      assert b == [b[0], b[1], b[2], b[3]];
    }
  }

  lemma Digits(x: nat, a: Byte, b: Byte, c: Byte, d: Byte)
    requires x == a as int + 256 * (b as int) + 65536 * (c as int) + 16777216 * (d as int)
    ensures x % 256 == a && x / 256 % 256 == b && x / 65536 % 256 == c && x / 16777216 % 256 == d
  {
    var h1, h2 := b as int + 256 * (c as int) + 65536 * (d as int), c as int + 256 * (d as int);
    DivModUnique(x, 256, h1, a);
    DivModUnique(h1, 256, h2, b);
    DivModUnique(x, 65536, h2, a as int + 256 * (b as int));
    DivModUnique(h2, 256, d, c);
    DivModUnique(x, 16777216, d, a as int + 256 * (b as int) + 65536 * (c as int));
    DivModUnique(d, 256, 0, d);
  }

  /** A file that is already there can be appended to exactly when it begins like a little-endian
      microsecond capture of version 2.4 with Ethernet frames. */
  lemma CompatibleExact(bytes: seq<Byte>)
    ensures Compatible(bytes) <==>
            |bytes| >= 24 && bytes[0..8] == [0xd4, 0xc3, 0xb2, 0xa1, 2, 0, 4, 0] && bytes[20..24] == [1, 0, 0, 0]
  {
    if |bytes| >= 24 {
      Le32Exact(bytes[0..4], MAGIC_USEC);
      Le16Exact(bytes[4..6], VERSION_MAJOR);
      Le16Exact(bytes[6..8], VERSION_MINOR);
      Le32Exact(bytes[20..24], LINKTYPE_ETHERNET);
      assert bytes[0..8] == bytes[0..4] + bytes[4..6] + bytes[6..8];
      assert Le32(MAGIC_USEC) == [0xd4, 0xc3, 0xb2, 0xa1] && Le16(2) == [2, 0] && Le16(4) == [4, 0] && Le32(1) == [1, 0, 0, 0];
    }
  }

  /** Any file that has content is appended to exactly when it is such a capture and the burst fits its
      snapshot length; what was there stays, followed by the records of the burst. */
  lemma AppendsExactly(bytes: seq<Byte>, burst: seq<Captured>)
    requires bytes != []
    ensures var (status, f) := Append(Present(bytes), burst);
            && (status.Success? <==> Compatible(bytes) && Fits(burst, Snaplen(bytes)))
            && f == Present(if status.Success? then bytes + Records(burst) else bytes)
  {
    hide Fits, HasIllegal, MaxLength, Records, Compatible;
    if Compatible(bytes) {
      FitsExact(burst, Snaplen(bytes));
      SnaplenFits(bytes);
    }
  }

  lemma SnaplenFits(bytes: seq<Byte>)
    requires Compatible(bytes)
    ensures Snaplen(bytes) < U32
  {
  }

  /** The first burst is accepted exactly when its lengths need no more than 32 bits, later ones exactly
      when they fit the snapshot length of the file, and in either case only without unflagged null
      segments; a rejected burst changes nothing. */
  lemma AcceptedExactlyWhenFits(bursts: seq<seq<Captured>>, burst: seq<Captured>)
    ensures var (status, f) := Append(FileAfter(bursts), burst);
            && (status.Success? <==> Fits(burst, if FileAfter(bursts).Present? then FirstSnaplen(bursts) else U32 - 1))
            && (!status.Success? ==> f == FileAfter(bursts))
  {
    RunHolds(bursts);
    hide Fits, HasIllegal, MaxLength, Records, GlobalHeader, Compatible, Snaplen;
    FitsExact(burst, if FileAfter(bursts).Present? then FirstSnaplen(bursts) else U32 - 1);
    if FileAfter(bursts).Present? {
      AppendToFile(FileAfter(bursts).bytes, Accepted(bursts), FirstSnaplen(bursts), burst);
    }
  }
}
