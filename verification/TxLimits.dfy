/** What the layout checks of the bench are worth on their own, without the library's 16-bit offsets:
    for which of the layouts they accept the transmit loop is right, exactly. */
module TxLimits {
  import opened Words
  import opened BitField
  import opened TxPatch

  /** A packet the loop may have to send: any source, any slot, any batch id of the field's width. */
  predicate Case(p: Plan, s: Source, slot: nat, batchId: nat) {
    SourceOk(p, s) && slot < p.perBatch && batchId < Pow2(p.batch.width)
  }

  predicate FreshRight(p: Plan, s: Source, slot: nat, batchId: nat)
    requires Accepted(p) && Case(p, s, slot, batchId)
  {
    CodeBuild(p, s, slot, batchId) == Build(p, s, slot, batchId)
  }

  /** The patch reads the template and writes the buffer within the packet. */
  predicate InPacket(p: Plan) {
    PatchStart(p) + PatchSize(p) <= PacketSize(p)
  }

  predicate PatchRight(p: Plan, s: Source, slot: nat, before: nat, batchId: nat)
    requires Accepted(p) && InPacket(p) && Case(p, s, slot, before) && Case(p, s, slot, batchId)
  {
    Patched(p, s, Build(p, s, slot, before), slot, batchId) == Build(p, s, slot, batchId)
  }

  /** Every fresh packet and every patched buffer is the packet for its slot and batch. */
  ghost predicate AlwaysRight(p: Plan)
    requires Accepted(p)
  {
    && InPacket(p)
    && (forall s, slot: nat, id: nat | Case(p, s, slot, id) :: FreshRight(p, s, slot, id))
    && (forall s, slot: nat, before: nat, id: nat | Case(p, s, slot, before) && Case(p, s, slot, id) ::
          PatchRight(p, s, slot, before, id))
  }

  // ---------- Sources and bits ----------

  /** A template of one byte repeated and payloads of another. */
  function Flat(p: Plan, x: Octet, y: Octet): (s: Source)
    ensures SourceOk(p, s)
  {
    Source(seq(PacketSize(p), _ => x), seq(p.perBatch, _ => seq(p.payloadSize, _ => y)))
  }

  lemma FlatBit(p: Plan, x: Octet, y: Octet, m: nat)
    requires Accepted(p) && m / 8 < PacketSize(p)
    ensures Bit(Plain(p, Flat(p, x, y), 0), m) == BitOf(if m / 8 < p.payloadOffset then x else y, 7 - m % 8)
  {
    hide BitOf;
  }

  lemma OnesAndZeros(pos: nat)
    requires pos < 8
    ensures !BitOf(0, pos) && BitOf(0xff, pos)
  {
  }

  lemma OneFits(width: nat)
    requires width >= 1
    ensures 1 < Pow2(width)
  {
    Pow2Monotone(1, width);
  }

  /** Past the patch a buffer keeps its bits. */
  lemma KeptBit(p: Plan, s: Source, slot: nat, before: nat, batchId: nat, m: nat)
    requires Accepted(p) && InPacket(p) && SourceOk(p, s) && slot < p.perBatch && m / 8 < PacketSize(p)
    requires PatchStart(p) + PatchSize(p) <= m / 8
    ensures |Patched(p, s, Build(p, s, slot, before), slot, batchId)| == PacketSize(p)
    ensures Bit(Patched(p, s, Build(p, s, slot, before), slot, batchId), m) == Bit(Build(p, s, slot, before), m)
  {
    hide Build, Patch, PatchStart, PatchSize, BitOf;
  }

  /** A bit of the batch field, the last one written. */
  lemma BatchBit(p: Plan, s: Source, slot: nat, batchId: nat)
    requires Accepted(p) && SourceOk(p, s) && slot < p.perBatch
    ensures var m := p.batch.offset + p.batch.width - 1;
            m / 8 < PacketSize(p) && (Bit(Build(p, s, slot, batchId), m) <==> batchId % 2 == 1)
  {
    hide Bit, SetField, SequenceOf, Plain;
    var m := p.batch.offset + p.batch.width - 1;
    SetFieldExact(SetField(Plain(p, s, slot), p.sequence, SequenceOf(p, slot, batchId)), p.batch, batchId, m);
  }

  // ---------- Layouts that fail ----------

  /** A batch field past the 32-bit bit indices is not even written into a fresh packet. */
  lemma BatchBeyond(p: Plan)
    requires Accepted(p) && p.batch.offset + p.batch.width > U32
    ensures Case(p, Flat(p, 0, 0), 0, 1) && !FreshRight(p, Flat(p, 0, 0), 0, 1)
  {
    var s, m := Flat(p, 0, 0), p.batch.offset + p.batch.width - 1;
    OneFits(p.batch.width);
    BatchBit(p, s, 0, 1);
    FlatBit(p, 0, 0, m);
    OnesAndZeros(7 - m % 8);
    CodeBeyond(p, s, 0, 1, m);
  }

  lemma CodeBeyond(p: Plan, s: Source, slot: nat, batchId: nat, m: nat)
    requires Accepted(p) && SourceOk(p, s) && slot < p.perBatch && U32 <= m && m / 8 < PacketSize(p)
    ensures Bit(CodeBuild(p, s, slot, batchId), m) == Bit(Plain(p, s, slot), m)
  {
    hide Bit, SetWrapped, SequenceOf, Plain;
    var v := SequenceOf(p, slot, batchId);
    NeverBeyond(Plain(p, s, slot), p.sequence, v, m);
    NeverBeyond(SetWrapped(Plain(p, s, slot), p.sequence, v), p.batch, batchId, m);
  }

  /** Nor is a sequence field there. */
  lemma SequenceBeyond(p: Plan)
    requires Accepted(p) && p.batch.offset + p.batch.width <= U32 < p.sequence.offset + p.sequence.width
    ensures Case(p, Flat(p, 0xff, 0xff), 0, 0) && !FreshRight(p, Flat(p, 0xff, 0xff), 0, 0)
  {
    var s, m := Flat(p, 0xff, 0xff), p.sequence.offset + p.sequence.width - 1;
    FlatBit(p, 0xff, 0xff, m);
    OnesAndZeros(7 - m % 8);
    CodeBeyond(p, s, 0, 0, m);
    TailBit(p, s, 0, 0, m);
    ZeroSequence(p);
  }

  lemma ZeroSequence(p: Plan)
    ensures SequenceOf(p, 0, 0) == 0
  {
  }

  /** A batch field whose end wraps keeps its last bit from the batch before. */
  lemma BatchUnpatched(p: Plan)
    requires Accepted(p) && InPacket(p) && p.sequence.offset + p.sequence.width + 7 < U32
    requires U32 <= p.batch.offset + p.batch.width + 7
    ensures Case(p, Flat(p, 0, 0), 0, 0) && Case(p, Flat(p, 0, 0), 0, 1)
    ensures !PatchRight(p, Flat(p, 0, 0), 0, 0, 1)
  {
    var s, m := Flat(p, 0, 0), p.batch.offset + p.batch.width - 1;
    OneFits(p.batch.width);
    BatchBit(p, s, 0, 0);
    BatchBit(p, s, 0, 1);
    EndsBefore(p);
    hide PatchStart, PatchSize, Build, Bit;
    KeptBit(p, s, 0, 0, 1, m);
  }

  lemma EndsBefore(p: Plan)
    requires Accepted(p) && p.sequence.offset + p.sequence.width + 7 < U32 <= p.batch.offset + p.batch.width + 7
    ensures PatchStart(p) + PatchSize(p) <= (p.batch.offset + p.batch.width - 1) / 8
  {
    EndByteExact(p.sequence);
    EndByteExact(p.batch);
    hide EndByte;
    var start, end := PatchStart(p), PatchEnd(p);
    assert start <= end && 8 * end <= U32 - 8;
    assert PatchSize(p) == end - start;
  }

  /** Sequence bits past the patch that change from batch to batch are left behind. */
  lemma SequenceUnpatched(p: Plan)
    requires Accepted(p) && p.batch.offset + p.batch.width + 7 < U32
    requires p.perBatch % Pow2(Unpatched(p)) != 0
    ensures InPacket(p) && Case(p, Flat(p, 0, 0), 0, 0) && Case(p, Flat(p, 0, 0), 0, 1)
    ensures !PatchRight(p, Flat(p, 0, 0), 0, 0, 1)
  {
    PatchShape(p);
    OneFits(p.batch.width);
    var s, v := Flat(p, 0, 0), SequenceOf(p, 0, 1);
    SequenceLow(p, 0, 1, Unpatched(p));
    ZeroSequence(p);
    var j := SomeLowBit(v, Unpatched(p));
    var m := p.sequence.offset + p.sequence.width - 1 - j;
    assert 8 * PatchEnd(p) <= m;
    ZeroBits(j);
    LeftBehind(p, s, j, m);
  }

  /** A sequence bit past the patch that was 0 and should be 1. */
  lemma LeftBehind(p: Plan, s: Source, j: nat, m: nat)
    requires Accepted(p) && InPacket(p) && Case(p, s, 0, 0) && Case(p, s, 0, 1)
    requires j < p.sequence.width && m == p.sequence.offset + p.sequence.width - 1 - j
    requires p.batch.offset + p.batch.width <= m && PatchStart(p) + PatchSize(p) <= m / 8
    requires Shr(SequenceOf(p, 0, 0), j) % 2 != Shr(SequenceOf(p, 0, 1), j) % 2
    ensures !PatchRight(p, s, 0, 0, 1)
  {
    TailBit(p, s, 0, 0, m);
    TailBit(p, s, 0, 1, m);
    hide PatchStart, PatchEnd, PatchSize;
    KeptBit(p, s, 0, 0, 1, m);
  }

  lemma {:induction false} ZeroBits(j: nat)
    ensures Shr(0, j) == 0
  {
    if j > 0 { ZeroBits(j - 1); }
  }

  /** When both ends wrap, the patch would run to 2^32 bytes and over the payload. */
  lemma BothUnpatched(p: Plan)
    requires Accepted(p) && InPacket(p)
    requires U32 <= p.sequence.offset + p.sequence.width + 7 && p.sequence.offset + p.sequence.width <= U32
    requires U32 <= p.batch.offset + p.batch.width + 7 && p.batch.offset + p.batch.width <= U32
    ensures Case(p, Flat(p, 0, 0xff), 0, 0) && !PatchRight(p, Flat(p, 0, 0xff), 0, 0, 0)
  {
    var s, m := Flat(p, 0, 0xff), 8 * (U32 - 1);
    LongPatch(p);
    OnesAndZeros(7);
    FlatBit(p, 0, 0xff, m);
    TailBit(p, s, 0, 0, m);
    PatchedByte(p, s, 0, 0, m);
    assert s.template[U32 - 1] == 0;
  }

  lemma LongPatch(p: Plan)
    requires Accepted(p) && InPacket(p)
    requires U32 <= p.sequence.offset + p.sequence.width + 7 && U32 <= p.batch.offset + p.batch.width + 7
    ensures PatchStart(p) < U32 - 64 && U32 <= PatchStart(p) + PatchSize(p) <= PacketSize(p)
  {
    EndByteExact(p.sequence);
    EndByteExact(p.batch);
    hide EndByte;
    var start, end := PatchStart(p), PatchEnd(p);
    assert end <= 4 && 4 < start < U32 / 8;
    assert PatchSize(p) == end - start + U32;
  }

  /** Inside the patch, and past both fields, a buffer gets the template's bits. */
  lemma PatchedByte(p: Plan, s: Source, slot: nat, batchId: nat, m: nat)
    requires Accepted(p) && InPacket(p) && SourceOk(p, s) && slot < p.perBatch
    requires p.sequence.offset + p.sequence.width <= U32 && p.batch.offset + p.batch.width <= U32
    requires PatchStart(p) <= m / 8 < PatchStart(p) + PatchSize(p) && U32 <= m
    ensures |Patched(p, s, Build(p, s, slot, batchId), slot, batchId)| == PacketSize(p)
    ensures Bit(Patched(p, s, Build(p, s, slot, batchId), slot, batchId), m) == Bit(s.template, m)
  {
    var buf, patch := Build(p, s, slot, batchId), Patch(p, s, slot, batchId);
    var lo, hi := PatchStart(p), PatchStart(p) + PatchSize(p);
    PatchBit(p, s, slot, batchId, m);
    hide Build, Patch, PatchStart, PatchSize, Bit;
    MiddleBit(buf[..lo], patch, buf[hi..], m);
  }

  lemma PatchBit(p: Plan, s: Source, slot: nat, batchId: nat, m: nat)
    requires Accepted(p) && InPacket(p) && SourceOk(p, s) && slot < p.perBatch
    requires p.sequence.offset + p.sequence.width <= U32 && p.batch.offset + p.batch.width <= U32
    requires PatchStart(p) <= m / 8 < PatchStart(p) + PatchSize(p) && U32 <= m
    ensures 8 * PatchStart(p) <= m && (m - 8 * PatchStart(p)) / 8 < PatchSize(p)
    ensures Bit(Patch(p, s, slot, batchId), m - 8 * PatchStart(p)) == Bit(s.template, m)
  {
    hide CodeStamp, PatchSize, PatchStart, BitOf, Stamp, Patch;
    var lo := PatchStart(p);
    PatchPlain(p, s, slot, batchId);
    InnerIndex(m, lo);
    StampBit(p, s.template[lo..], Shifted(p.sequence, lo), Shifted(p.batch, lo), slot, batchId, m - 8 * lo);
  }

  /** The patch written without the wrapped bit indices. */
  lemma PatchPlain(p: Plan, s: Source, slot: nat, batchId: nat)
    requires Accepted(p) && InPacket(p) && SourceOk(p, s) && slot < p.perBatch
    requires p.sequence.offset + p.sequence.width <= U32 && p.batch.offset + p.batch.width <= U32
    ensures var lo := PatchStart(p);
            && PatchSize(p) <= |s.template[lo..]|
            && Fits(Shifted(p.sequence, lo), |s.template[lo..]|) && Fits(Shifted(p.batch, lo), |s.template[lo..]|)
            && Patch(p, s, slot, batchId) ==
               Stamp(p, s.template[lo..], Shifted(p.sequence, lo), Shifted(p.batch, lo), slot, batchId)[..PatchSize(p)]
  {
    hide CodeStamp, Stamp, PatchSize;
    var lo := PatchStart(p);
    CodeStampPlain(p, s.template[lo..], Shifted(p.sequence, lo), Shifted(p.batch, lo), slot, batchId);
  }

  /** A bit past both fields is left as it was. */
  lemma StampBit(p: Plan, data: seq<Octet>, f: Field, g: Field, slot: nat, batchId: nat, m: nat)
    requires Fits(f, |data|) && Fits(g, |data|) && m / 8 < |data|
    requires f.offset + f.width <= m && g.offset + g.width <= m
    ensures Bit(Stamp(p, data, f, g, slot, batchId), m) == Bit(data, m)
  {
    hide SetField, SequenceOf, Bit;
    var v := SequenceOf(p, slot, batchId);
    SetFieldExact(data, f, v, m);
    SetFieldExact(SetField(data, f, v), g, batchId, m);
  }

  lemma MiddleBit(a: seq<Octet>, b: seq<Octet>, c: seq<Octet>, m: nat)
    requires |a| <= m / 8 < |a| + |b|
    ensures 8 * |a| <= m && (m - 8 * |a|) / 8 < |b| && m / 8 < |a + b + c|
    ensures Bit(a + b + c, m) == Bit(b, m - 8 * |a|)
  {
    hide BitOf;
    InnerIndex(m, |a|);
  }

  lemma InnerIndex(m: nat, lo: nat)
    requires lo <= m / 8
    ensures m >= 8 * lo && (m - 8 * lo) / 8 == m / 8 - lo && (m - 8 * lo) % 8 == m % 8
  {
  }

  // ---------- The exact condition ----------

  lemma RightTransmits(p: Plan)
    requires Accepted(p) && AlwaysRight(p)
    ensures Transmits(p)
  {
    hide FreshRight, PatchRight, InPacket, Case;
    if p.batch.offset + p.batch.width > U32 {
      BatchBeyond(p);
    } else if p.sequence.offset + p.sequence.width > U32 {
      SequenceBeyond(p);
    } else if U32 <= p.batch.offset + p.batch.width + 7 {
      if p.sequence.offset + p.sequence.width + 7 < U32 {
        BatchUnpatched(p);
      } else {
        BothUnpatched(p);
      }
    } else if p.perBatch % Pow2(Unpatched(p)) != 0 {
      SequenceUnpatched(p);
    }
  }

  lemma TransmitsRight(p: Plan)
    requires Accepted(p) && Transmits(p)
    ensures AlwaysRight(p)
  {
    PatchShape(p);
    forall s, slot: nat, id: nat | Case(p, s, slot, id) ensures FreshRight(p, s, slot, id) {
      CodeIsRebuild(p, s, slot, id);
    }
    forall s, slot: nat, before: nat, id: nat | Case(p, s, slot, before) && Case(p, s, slot, id)
      ensures PatchRight(p, s, slot, before, id)
    {
      PatchIsRebuild(p, s, slot, before, id);
    }
  }

  /** Every layout that reaches the loop is one of those. */
  lemma ReachesRight(p: Plan)
    requires Reaches(p)
    ensures AlwaysRight(p)
  {
    ReachesTransmits(p);
    hide AlwaysRight, Transmits;
    TransmitsRight(p);
  }

  /** Of the accepted layouts, the loop is right for every source, slot and batch if and only if
      both fields end within 32-bit bit indices, rounding the batch field's end up to a byte does
      not wrap, and the sequence bits past the patch are the same in every batch. */
  lemma TransmitsExactly(p: Plan)
    requires Accepted(p)
    ensures AlwaysRight(p) <==> Transmits(p)
  {
    hide AlwaysRight, Transmits;
    if Transmits(p) { TransmitsRight(p); }
    if AlwaysRight(p) { RightTransmits(p); }
  }

  /** A layout that the bench accepts and the library refuses: the last byte of the batch field would
      never be patched. */
  function WrappedPlan(): Plan {
    Plan(Field(0, 16), Field(U32 - 8, 8), 256, 64, U32 - 1, 42, 256)
  }

  lemma WrappedLayout()
    ensures Accepted(WrappedPlan()) && Derived(WrappedPlan()) && !LibraryAccepts(WrappedPlan()) && InPacket(WrappedPlan())
    ensures var s := Flat(WrappedPlan(), 0, 0);
            && Case(WrappedPlan(), s, 0, 0) && Case(WrappedPlan(), s, 0, 1)
            && !PatchRight(WrappedPlan(), s, 0, 0, 1)
  {
    WrappedAccepted();
    hide WrappedPlan, PatchRight, Case, Flat, Accepted, Derived, LibraryAccepts, InPacket;
    BatchUnpatched(WrappedPlan());
  }

  lemma WrappedAccepted()
    ensures Accepted(WrappedPlan()) && Derived(WrappedPlan()) && !LibraryAccepts(WrappedPlan()) && InPacket(WrappedPlan())
    ensures WrappedPlan().sequence.offset + WrappedPlan().sequence.width + 7 < U32
    ensures U32 <= WrappedPlan().batch.offset + WrappedPlan().batch.width + 7
  {
    assert EndByte(WrappedPlan().batch) == 0 && EndByte(WrappedPlan().sequence) == 2;
    assert Pow2(8) == 256 && Pow2(16) == 65536 by { Pow2Add(8, 8); }
  }

  /** Another one, whose sequence end wraps and which would be right all the same: the one bit that
      the patch misses is the same in every batch of 64 packets. */
  lemma HarmlessWrap()
    ensures var p := Plan(Field(U32 - 15, 8), Field(U32 - 17, 2), 64, U32 / 8 - 1, 1024, 42, 64);
            Accepted(p) && Derived(p) && !LibraryAccepts(p) && !NoWrap(p) && AlwaysRight(p)
  {
    var p := Plan(Field(U32 - 15, 8), Field(U32 - 17, 2), 64, U32 / 8 - 1, 1024, 42, 64);
    assert EndByte(p.sequence) == 0 && EndByte(p.batch) == U32 / 8 - 1;
    assert Pow2(8) == 256 && Pow2(2) == 4;
    assert Unpatched(p) == 1 && Pow2(1) == 2;
    hide AlwaysRight;
    TransmitsRight(p);
  }
}
