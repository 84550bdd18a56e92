/** Where a packet's segments go when its first bytes are skipped: the raw file writer turns
    them into file writes, the S3 writer copies them into a staging buffer. */
module SegmentWalk {
  import opened Buffers

  /** A packet segment. `missing` is a null pointer; it is legitimate only for segments whose
      null-segment burst flag is set, and then stands for zero bytes. `device` segments are
      written later by the storage driver. */
  datatype Segment = Segment(data: seq<Byte>, missing: bool, flagged: bool, device: bool) {
    function Bytes(): seq<Byte> {
      if missing then Zeros(|data|) else data
    }

    predicate Illegal() {
      missing && !flagged && data != []
    }
  }

  function Zeros(n: nat): seq<Byte> {
    seq(n, _ => 0)
  }

  /** What the packet is, byte for byte. */
  function Content(segs: seq<Segment>): seq<Byte> {
    if segs == [] then [] else Content(segs[..|segs| - 1]) + segs[|segs| - 1].Bytes()
  }

  /** What both writers must produce. */
  function Tail<T>(content: seq<T>, offset: nat): seq<T> {
    if offset <= |content| then content[offset..] else []
  }

  /** For each byte of a packet, whether it lies in device memory. */
  function Origins(segs: seq<Segment>): (r: seq<bool>)
    ensures |r| == |Content(segs)|
  {
    if segs == [] then [] else Origins(segs[..|segs| - 1]) + Origin(segs[|segs| - 1])
  }

  function Origin(seg: Segment): seq<bool> {
    seq(|seg.data|, _ => seg.device && !seg.missing)
  }

  lemma OriginLength(seg: Segment)
    ensures |Origin(seg)| == |seg.data|
  {
  }

  lemma OriginsSnoc(segs: seq<Segment>, k: nat)
    requires k < |segs|
    ensures Origins(segs[..k + 1]) == Origins(segs[..k]) + Origin(segs[k])
  {
    assert segs[..k + 1][..k] == segs[..k];
  }

  lemma SegmentLength(seg: Segment)
    ensures |seg.Bytes()| == |seg.data|
  {
  }

  lemma ContentNone()
    ensures Content([]) == []
  {
  }

  lemma ContentSnoc(segs: seq<Segment>, k: nat)
    requires k < |segs|
    ensures Content(segs[..k + 1]) == Content(segs[..k]) + segs[k].Bytes()
  {
    assert segs[..k + 1][..k] == segs[..k];
  }

  lemma ContentAll(segs: seq<Segment>)
    ensures Content(segs[..|segs|]) == Content(segs)
  {
    assert segs[..|segs|] == segs;
  }

  /** Appending bytes, of which `skip` still lie before the offset. */
  lemma TailSnoc<T>(content: seq<T>, more: seq<T>, offset: nat, skip: nat)
    requires skip == if offset <= |content| then 0 else offset - |content|
    ensures Tail(content + more, offset) == Tail(content, offset) + Tail(more, skip)
  {
  }

  // ---------- The raw file writer ----------

  datatype Write = Write(off: nat, data: seq<Byte>, device: bool)

  /** Consecutive non-empty writes that start at `off`. */
  ghost predicate TileFrom(ws: seq<Write>, off: nat) {
    ws != [] ==> ws[0].data != [] && ws[0].off == off && TileFrom(ws[1..], off + |ws[0].data|)
  }

  function Flatten(ws: seq<Write>): seq<Byte> {
    if ws == [] then [] else ws[0].data + Flatten(ws[1..])
  }

  lemma {:induction false} TileSnoc(ws: seq<Write>, off: nat, w: Write)
    requires TileFrom(ws, off) && w.off == off + |Flatten(ws)| && w.data != []
    ensures TileFrom(ws + [w], off) && Flatten(ws + [w]) == Flatten(ws) + w.data
  {
    if ws == [] {
      assert ([w])[1..] == [];
    } else {
      TileSnoc(ws[1..], off + |ws[0].data|, w);
      assert (ws + [w])[1..] == ws[1..] + [w];
    }
  }

  /** The writes left to the storage driver. */
  function Queued(ws: seq<Write>): seq<Write> {
    if ws == [] then []
    else Queued(ws[..|ws| - 1]) + (if ws[|ws| - 1].device then [ws[|ws| - 1]] else [])
  }

  lemma QueuedNone()
    ensures Queued([]) == []
  {
  }

  lemma QueuedSnoc(ws: seq<Write>, w: Write)
    ensures Queued(ws + [w]) == Queued(ws) + if w.device then [w] else []
  {
    assert (ws + [w])[..|ws|] == ws;
  }

  /** For each byte written, whether its write is left to the storage driver. */
  function Drivers(ws: seq<Write>): seq<bool> {
    if ws == [] then [] else Drivers(ws[..|ws| - 1]) + seq(|ws[|ws| - 1].data|, _ => ws[|ws| - 1].device)
  }

  lemma DriversSnoc(ws: seq<Write>, w: Write)
    ensures Drivers(ws + [w]) == Drivers(ws) + seq(|w.data|, _ => w.device)
  {
    assert (ws + [w])[..|ws|] == ws;
  }

  function Flags(n: nat, flag: bool): seq<bool> {
    seq(n, _ => flag)
  }

  const ZERO_CHUNK: nat := 4096

  datatype Result<T> = Ok(value: T) | NullPtr | NotSupported

  /** The zero writes for a missing segment, of at most 4096 bytes each. */
  method WriteZeros(ws: seq<Write>, count: nat, off: nat) returns (ws': seq<Write>)
    requires TileFrom(ws, 0) && off == |Flatten(ws)|
    ensures TileFrom(ws', 0) && Flatten(ws') == Flatten(ws) + Zeros(count)
    ensures Queued(ws') == Queued(ws) && ws <= ws' && Drivers(ws') == Drivers(ws) + Flags(count, false)
    ensures forall i | |ws| <= i < |ws'| :: |ws'[i].data| <= ZERO_CHUNK && !ws'[i].device
  {
    hide TileFrom, Flatten, Queued, Drivers;
    var left: nat, at: nat := count, off;
    ws' := ws;
    while left != 0
      invariant left <= count && at == off + (count - left) == |Flatten(ws')|
      invariant TileFrom(ws', 0) && Flatten(ws') == Flatten(ws) + Zeros(count - left)
      invariant Queued(ws') == Queued(ws) && ws <= ws' && Drivers(ws') == Drivers(ws) + Flags(count - left, false)
      invariant forall i | |ws| <= i < |ws'| :: |ws'[i].data| <= ZERO_CHUNK && !ws'[i].device
    {
      var chunk := if left < ZERO_CHUNK then left else ZERO_CHUNK;
      var w := Write(at, Zeros(chunk), false);
      TileSnoc(ws', 0, w);
      QueuedSnoc(ws', w);
      DriversSnoc(ws', w);
      ws' := ws' + [w];
      assert Flags(count - left, false) + Flags(chunk, false) == Flags(count - (left - chunk), false);
      assert Zeros(count - left) + Zeros(chunk) == Zeros(count - (left - chunk));
      at, left := at + chunk, left - chunk;
    }
  }

  /** queue_or_write_segment: one write, or zero writes for a missing segment. */
  method QueueSegment(ws: seq<Write>, seg: Segment, skip: nat, off: nat) returns (ws': seq<Write>)
    requires skip < |seg.data| && TileFrom(ws, 0) && off == |Flatten(ws)|
    ensures TileFrom(ws', 0) && Flatten(ws') == Flatten(ws) + seg.Bytes()[skip..]
    ensures |Queued(ws')| == |Queued(ws)| + if seg.device && !seg.missing then 1 else 0
    ensures Drivers(ws') == Drivers(ws) + Origin(seg)[skip..]
  {
    hide TileFrom, Flatten, Queued, Drivers;
    if seg.missing {
      ws' := WriteZeros(ws, |seg.data| - skip, off);
      assert seg.Bytes()[skip..] == Zeros(|seg.data| - skip);
      assert Origin(seg)[skip..] == Flags(|seg.data| - skip, false);
    } else {
      var w := Write(off, seg.data[skip..], seg.device);
      TileSnoc(ws, 0, w);
      QueuedSnoc(ws, w);
      DriversSnoc(ws, w);
      ws' := ws + [w];
    }
  }

  /** The segment loop of build_raw_write_handle for one packet. It fails exactly when some
      segment is an unflagged null pointer, skipped or not; otherwise the writes tile the file
      and spell the packet from the offset on, and the bytes left to the driver are exactly those in
      device memory. */
  method RawWrites(segs: seq<Segment>, offset: nat) returns (r: Result<seq<Write>>)
    ensures r.NullPtr? <==> exists s :: s in segs && s.Illegal()
    ensures !r.NullPtr? ==> r.Ok? && TileFrom(r.value, 0) && Flatten(r.value) == Tail(Content(segs), offset)
    ensures r.Ok? ==> |Queued(r.value)| <= |segs| && Drivers(r.value) == Tail(Origins(segs), offset)
  {
    hide Content, Zeros, Segment.Bytes, Origin;
    var skip, off := offset, 0;
    var ws: seq<Write> := [];
    ContentNone();
    assert segs[..0] == [];
    for k := 0 to |segs|
      invariant forall i | 0 <= i < k :: !segs[i].Illegal()
      invariant TileFrom(ws, 0) && off == |Flatten(ws)| && Flatten(ws) == Tail(Content(segs[..k]), offset)
      invariant |Queued(ws)| <= k && Drivers(ws) == Tail(Origins(segs[..k]), offset)
      invariant skip == if offset <= |Content(segs[..k])| then 0 else offset - |Content(segs[..k])|
    {
      ContentSnoc(segs, k);
      var seg := segs[k];
      SegmentLength(seg);
      TailSnoc(Content(segs[..k]), seg.Bytes(), offset, skip);
      OriginLength(seg);
      OriginsSnoc(segs, k);
      TailSnoc(Origins(segs[..k]), Origin(seg), offset, skip);
      if |seg.data| == 0 {
        continue;
      }
      if seg.missing && !seg.flagged {
        assert seg in segs && seg.Illegal();
        return NullPtr;
      }
      if skip >= |seg.data| {
        skip := skip - |seg.data|;
        continue;
      }
      ws := QueueSegment(ws, seg, skip, off);
      off := off + (|seg.data| - skip);
      skip := 0;
    }
    ContentAll(segs);
    assert segs[..|segs|] == segs;
    r := Ok(ws);
  }

  // ---------- The S3 writer ----------

  const MAX_PUT_OBJECT: nat := 5 * 1024 * 1024 * 1024

  /** packet_length_after_offset. */
  method PacketLengthAfterOffset(segs: seq<Segment>, offset: nat) returns (n: nat)
    ensures n == |Tail(Content(segs), offset)|
  {
    var total := 0;
    for k := 0 to |segs|
      invariant total == |Content(segs[..k])|
    {
      ContentSnoc(segs, k);
      total := total + |segs[k].data|;
    }
    ContentAll(segs);
    if offset >= total {
      return 0;
    }
    n := total - offset;
  }

  /** Some byte of segment k lies at or after the offset. */
  ghost predicate Reached(segs: seq<Segment>, k: nat, offset: nat)
    requires k < |segs|
  {
    |Content(segs[..k + 1])| > offset
  }

  /** An unflagged null pointer among the first n segments that the copy would read. */
  ghost predicate Unreadable(segs: seq<Segment>, n: nat, offset: nat)
    requires n <= |segs|
  {
    exists k | 0 <= k < n :: segs[k].Illegal() && Reached(segs, k, offset)
  }

  lemma {:induction false} ContentGrows(segs: seq<Segment>, j: nat, k: nat)
    requires j <= k <= |segs|
    ensures |Content(segs[..j])| <= |Content(segs[..k])|
  {
    if j < k {
      ContentGrows(segs, j, k - 1);
      ContentSnoc(segs, k - 1);
    }
  }

  /** copy_packet_to_staging. It fails for objects over 5 GiB, and on an unflagged null pointer
      only if the segment is not skipped; otherwise the buffer, which has exactly
      packet_length_after_offset bytes, is the packet from the offset on. */
  method CopyPacketToStaging(segs: seq<Segment>, offset: nat) returns (r: Result<seq<Byte>>)
    ensures r.NotSupported? <==> |Tail(Content(segs), offset)| > MAX_PUT_OBJECT
    ensures r.NullPtr? <==> |Tail(Content(segs), offset)| <= MAX_PUT_OBJECT && Unreadable(segs, |segs|, offset)
    ensures r.Ok? ==> r.value == Tail(Content(segs), offset)
  {
    hide Content, Zeros, Segment.Bytes;
    var length := PacketLengthAfterOffset(segs, offset);
    ContentAll(segs);
    ContentNone();
    if length > MAX_PUT_OBJECT {
      return NotSupported;
    }
    if length == 0 {
      forall k | 0 <= k < |segs| ensures !Reached(segs, k, offset) {
        ContentGrows(segs, k + 1, |segs|);
      }
      return Ok([]);
    }
    var staging := new Byte[length];
    var skip, at := offset, 0;
    assert segs[..0] == [];
    for k := 0 to |segs|
      invariant !Unreadable(segs, k, offset)
      invariant at == |Tail(Content(segs[..k]), offset)| <= length && staging[..at] == Tail(Content(segs[..k]), offset)
      invariant skip == if offset <= |Content(segs[..k])| then 0 else offset - |Content(segs[..k])|
    {
      ContentSnoc(segs, k);
      ContentGrows(segs, k + 1, |segs|);
      var seg := segs[k];
      SegmentLength(seg);
      TailSnoc(Content(segs[..k]), seg.Bytes(), offset, skip);
      if |seg.data| == 0 {
        continue;
      }
      if skip >= |seg.data| {
        skip := skip - |seg.data|;
        continue;
      }
      if seg.missing && !seg.flagged {
        return NullPtr;
      }
      var bytes := seg.Bytes()[skip..];
      ghost var done := staging[..at];
      CopyInto(staging, at, bytes);
      assert staging[..at + |bytes|] == done + bytes;
      at := at + |bytes|;
      skip := 0;
    }
    r := Ok(staging[..at]);
  }

  // ---------- Completion order does not matter ----------

  predicate Covers(w: Write, i: nat) {
    w.off <= i < w.off + |w.data|
  }

  datatype Cell = Hole | Stored(byte: Byte)

  /** Byte i of the file after the writes have landed in this order. */
  function ByteAt(ws: seq<Write>, i: nat): Cell {
    if ws == [] then Hole
    else
      var w := ws[|ws| - 1];
      if Covers(w, i) then Stored(w.data[i - w.off]) else ByteAt(ws[..|ws| - 1], i)
  }

  /** No two writes of the collection touch the same byte. */
  ghost predicate Separate(ms: multiset<Write>) {
    && (forall w | w in ms :: ms[w] == 1)
    && (forall w, v, i: nat | w in ms && v in ms && Covers(w, i) && Covers(v, i) :: w == v)
  }

  /** Byte i comes from the one write that covers it, whenever that write lands. */
  lemma {:induction false} LandedByte(ws: seq<Write>, ms: multiset<Write>, i: nat)
    requires Separate(ms) && forall w | w in ws :: w in ms
    ensures ByteAt(ws, i).Stored? <==> exists w :: w in ws && Covers(w, i)
    ensures forall w | w in ws && Covers(w, i) :: ByteAt(ws, i) == Stored(w.data[i - w.off])
  {
    if ws != [] {
      LandedByte(ws[..|ws| - 1], ms, i);
    }
  }

  lemma {:induction false} TileBounds(ws: seq<Write>, off: nat)
    requires TileFrom(ws, off)
    ensures forall w | w in ws :: off <= w.off && w.off + |w.data| <= off + |Flatten(ws)| && w.data != []
  {
    if ws != [] {
      TileBounds(ws[1..], off + |ws[0].data|);
      assert forall w | w in ws :: w == ws[0] || w in ws[1..];
    }
  }

  lemma {:induction false} TileSeparate(ws: seq<Write>, off: nat)
    requires TileFrom(ws, off)
    ensures Separate(multiset(ws))
  {
    if ws != [] {
      var next := off + |ws[0].data|;
      TileSeparate(ws[1..], next);
      TileBounds(ws[1..], next);
      hide TileFrom;
      assert multiset(ws) == multiset{ws[0]} + multiset(ws[1..]) by { assert ws == [ws[0]] + ws[1..]; }
    }
  }

  lemma {:induction false} TiledByte(ws: seq<Write>, off: nat, i: nat)
    requires TileFrom(ws, off) && off <= i < off + |Flatten(ws)|
    ensures exists w :: w in ws && Covers(w, i) && w.data[i - w.off] == Flatten(ws)[i - off]
  {
    if i < off + |ws[0].data| {
      assert Covers(ws[0], i);
    } else {
      TiledByte(ws[1..], off + |ws[0].data|, i);
      var w :| w in ws[1..] && Covers(w, i) && w.data[i - w.off] == Flatten(ws[1..])[i - off - |ws[0].data|];
      assert w in ws;
    }
  }

  /** Tiling writes put the same bytes in the file in whatever order they complete, and none
      elsewhere. */
  lemma OrderDoesNotMatter(ws: seq<Write>, landed: seq<Write>, i: nat)
    requires TileFrom(ws, 0) && multiset(landed) == multiset(ws)
    ensures ByteAt(landed, i) == if i < |Flatten(ws)| then Stored(Flatten(ws)[i]) else Hole
  {
    TileSeparate(ws, 0);
    TileBounds(ws, 0);
    assert forall w :: (w in ws <==> w in multiset(ws)) && (w in landed <==> w in multiset(landed));
    LandedByte(landed, multiset(ws), i);
    if i < |Flatten(ws)| {
      TiledByte(ws, 0, i);
    }
  }

  /** Both writers on one packet. Both succeed exactly when no segment is an unflagged null pointer
      and the rest is no larger than an object may be; then the file, after its writes land in any
      order, and the object hold the same bytes. */
  method FileAndObject(segs: seq<Segment>, offset: nat) returns (file: Result<seq<Write>>, stored: Result<seq<Byte>>)
    ensures file.Ok? && stored.Ok? <==>
              (forall s | s in segs :: !s.Illegal()) && |Tail(Content(segs), offset)| <= MAX_PUT_OBJECT
    ensures file.Ok? && stored.Ok? ==> forall landed: seq<Write>, i: nat | multiset(landed) == multiset(file.value) ::
              ByteAt(landed, i) == if i < |stored.value| then Stored(stored.value[i]) else Hole
  {
    hide Content, TileFrom, Flatten, ByteAt, Reached;
    file := RawWrites(segs, offset);
    stored := CopyPacketToStaging(segs, offset);
    if file.Ok? && stored.Ok? {
      forall landed: seq<Write>, i: nat | multiset(landed) == multiset(file.value)
        ensures ByteAt(landed, i) == if i < |stored.value| then Stored(stored.value[i]) else Hole
      {
        OrderDoesNotMatter(file.value, landed, i);
      }
    }
  }
}
