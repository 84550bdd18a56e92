/** The transmit loop of the reorder/quantize bench: a buffer seen for the first time gets a whole
    packet, a reused buffer only the bytes that hold the sequence and batch fields. */
module TxPatch {
  import opened Words
  import opened BitField

  type Ptr = nat   // a device buffer address; 0 is null

  datatype Plan = Plan(sequence: Field, batch: Field, perBatch: nat, payloadOffset: nat, payloadSize: nat,
                       headerSize: nat, batchSize: nat)

  // ---------- Layout ----------

  function PacketSize(p: Plan): nat {
    Max(p.headerSize, p.payloadOffset) + p.payloadSize
  }

  /** bit_field_end_byte, in 32-bit arithmetic. */
  function EndByte(f: Field): nat {
    (f.offset + f.width + 7) % U32 / 8
  }

  /** The bit fields parse_reorder_plan can read, of the widths the library admits. */
  predicate FieldRange(f: Field) {
    f.offset < U32 && 1 <= f.width <= 32
  }

  /** The layout checks of parse_bench_config, on their own. */
  predicate Accepted(p: Plan) {
    && FieldRange(p.sequence) && FieldRange(p.batch) && 1 <= p.perBatch < U32
    && p.headerSize <= p.payloadOffset < U32 && p.payloadSize < U32
    && Fits(p.sequence, PacketSize(p)) && Fits(p.batch, PacketSize(p))
    && EndByte(p.sequence) <= p.payloadOffset && EndByte(p.batch) <= p.payloadOffset
    && p.perBatch <= p.batchSize < U32
  }

  /** The library reads the same two fields when it is initialised, before anything is sent: offsets
      are 16 bits wide, widths 1 to 32, and the sequence numbers divide evenly among the batches. */
  predicate LibraryAccepts(p: Plan) {
    && p.sequence.offset < 65536 && 1 <= p.sequence.width <= 32
    && p.batch.offset < 65536 && 1 <= p.batch.width <= 32
    && Pow2(p.sequence.width) % Pow2(p.batch.width) == 0
  }

  /** packets_per_batch as parse_reorder_plan derives it. `1U << 32` is undefined, so for a field of
      32 bits it may be anything. */
  predicate Derived(p: Plan) {
    p.sequence.width < 32 && p.batch.width < 32 ==> p.perBatch == Pow2(p.sequence.width) / Pow2(p.batch.width)
  }

  /** The layouts that reach the transmit loop. */
  predicate Reaches(p: Plan) {
    Accepted(p) && Derived(p) && LibraryAccepts(p)
  }

  lemma Pow2Smaller(a: nat, b: nat)
    requires a < b
    ensures Pow2(a) < Pow2(b)
  {
    Pow2Monotone(a + 1, b);
  }

  /** The derived number is never 0 and shares out all sequence numbers. */
  lemma DerivedShares(p: Plan)
    requires LibraryAccepts(p) && Derived(p) && p.sequence.width < 32
    ensures p.batch.width <= p.sequence.width && p.perBatch >= 1
    ensures p.perBatch * Pow2(p.batch.width) == Pow2(p.sequence.width)
  {
    hide Pow2;
    var total, batches := Pow2(p.sequence.width), Pow2(p.batch.width);
    if p.sequence.width < p.batch.width {
      Pow2Smaller(p.sequence.width, p.batch.width);
      DivModUnique(total, batches, 0, total);
    }
    assert total == batches * (total / batches) + total % batches;
  }

  function PatchStart(p: Plan): nat {
    Min(p.sequence.offset / 8, p.batch.offset / 8)
  }

  function PatchEnd(p: Plan): nat {
    Max(EndByte(p.sequence), EndByte(p.batch))
  }

  /** Rounding a field end up to a byte stays within 32 bits. */
  predicate NoWrap(p: Plan) {
    p.sequence.offset + p.sequence.width + 7 < U32 && p.batch.offset + p.batch.width + 7 < U32
  }

  /** The patched bytes hold both fields and end before the payload. */
  predicate PatchCovers(p: Plan) {
    && PatchStart(p) <= PatchEnd(p) <= p.payloadOffset
    && Within(p.sequence, PatchStart(p), PatchEnd(p)) && Within(p.batch, PatchStart(p), PatchEnd(p))
  }

  /** Of the accepted layouts, exactly those whose field ends do not wrap have a patch that
      covers both fields. */
  lemma PatchCoversExactly(p: Plan)
    requires Accepted(p)
    ensures PatchCovers(p) <==> NoWrap(p)
  {
    EndByteExact(p.sequence);
    EndByteExact(p.batch);
    hide EndByte;
  }

  /** The end byte covers the field exactly when its computation does not wrap; a wrapped one
      is 0, 1, 2, 3 or 4, and no unwrapped one reaches the end of a field that wraps. */
  lemma EndByteExact(f: Field)
    requires FieldRange(f)
    ensures if f.offset + f.width + 7 < U32
            then f.offset + f.width <= 8 * EndByte(f) && f.offset < 8 * EndByte(f) <= U32 - 8
            else EndByte(f) <= 4 && f.offset + f.width > U32 - 8
  {
  }

  /** How many low bits of the sequence number lie past the patched bytes. */
  function Unpatched(p: Plan): nat {
    var end := p.sequence.offset + p.sequence.width;
    var from := Max(p.sequence.offset, 8 * PatchEnd(p));
    if end > from then end - from else 0
  }

  /** The layouts for which the transmit loop is right: both fields end within 32-bit bit indices,
      the end of the batch field does not wrap when rounded up to a byte, and the sequence bits
      that the patch misses never change from batch to batch. */
  predicate Transmits(p: Plan) {
    && p.sequence.offset + p.sequence.width <= U32
    && p.batch.offset + p.batch.width + 7 < U32
    && p.perBatch % Pow2(Unpatched(p)) == 0
  }

  lemma NoWrapTransmits(p: Plan)
    requires Accepted(p) && NoWrap(p)
    ensures Transmits(p)
  {
    EndByteExact(p.sequence);
    EndByteExact(p.batch);
    hide EndByte;
  }

  /** No layout that reaches the loop wraps. */
  lemma ReachesTransmits(p: Plan)
    requires Reaches(p)
    ensures NoWrap(p) && Transmits(p)
  {
    NoWrapTransmits(p);
  }

  /** metadata_patch_size: the difference of two 32-bit numbers. */
  function PatchSize(p: Plan): nat {
    (PatchEnd(p) - PatchStart(p)) % U32
  }

  lemma PatchShape(p: Plan)
    requires Accepted(p) && p.batch.offset + p.batch.width + 7 < U32
    ensures PatchStart(p) < PatchEnd(p) <= p.payloadOffset <= PacketSize(p) && Within(p.batch, PatchStart(p), PatchEnd(p))
    ensures PatchSize(p) == PatchEnd(p) - PatchStart(p) && PatchStart(p) + PatchSize(p) <= PacketSize(p)
    ensures Unpatched(p) <= p.sequence.width && 8 * PatchStart(p) <= p.sequence.offset
  {
    EndByteExact(p.sequence);
    EndByteExact(p.batch);
    hide EndByte;
  }

  // ---------- Packets ----------

  /** value & bit_field_value_mask(width). */
  function Masked(value: nat, width: nat): nat {
    And(value, if width >= 32 then U32 - 1 else Pow2(width) - 1)
  }

  lemma MaskedValue(value: nat, width: nat)
    requires value < U32 && width <= 32
    ensures Masked(value, width) == value % Pow2(width)
  {
    Pow2Is32();
    AndMask(value, width);
  }

  function BatchId(p: Plan, batch: nat): nat {
    Masked(batch, p.batch.width)
  }

  function SequenceOf(p: Plan, slot: nat, batchId: nat): nat {
    Masked((batchId * p.perBatch + slot) % U32, p.sequence.width)
  }

  /** Both fields written into `data`, at the given places. */
  function Stamp(p: Plan, data: seq<Octet>, sequence: Field, batch: Field, slot: nat, batchId: nat): (r: seq<Octet>)
    requires Fits(sequence, |data|) && Fits(batch, |data|)
    ensures |r| == |data|
  {
    SetField(SetField(data, sequence, SequenceOf(p, slot, batchId)), batch, batchId)
  }

  /** What a packet is built from: the header template and one payload for each slot. */
  datatype Source = Source(template: seq<Octet>, payloads: seq<seq<Octet>>)

  predicate SourceOk(p: Plan, s: Source) {
    && |s.template| == PacketSize(p) && |s.payloads| == p.perBatch
    && forall k | 0 <= k < |s.payloads| :: |s.payloads[k]| == p.payloadSize
  }

  /** Template and payload, before the fields are written. */
  function Plain(p: Plan, s: Source, slot: nat): (r: seq<Octet>)
    requires Accepted(p) && SourceOk(p, s) && slot < p.perBatch
    ensures |r| == PacketSize(p)
  {
    s.template[..p.payloadOffset] + s.payloads[slot]
  }

  /** The full packet for a slot and a batch. */
  function Build(p: Plan, s: Source, slot: nat, batchId: nat): (r: seq<Octet>)
    requires Accepted(p) && SourceOk(p, s) && slot < p.perBatch
    ensures |r| == PacketSize(p)
  {
    Stamp(p, Plain(p, s, slot), p.sequence, p.batch, slot, batchId)
  }

  /** Both set_bits_be calls, as the code computes bit indices. */
  function CodeStamp(p: Plan, data: seq<Octet>, sequence: Field, batch: Field, slot: nat, batchId: nat): (r: seq<Octet>)
    requires Fits(sequence, |data|) && Fits(batch, |data|)
    ensures |r| == |data|
  {
    SetWrapped(SetWrapped(data, sequence, SequenceOf(p, slot, batchId)), batch, batchId)
  }

  /** What the code builds for a buffer seen for the first time. */
  function CodeBuild(p: Plan, s: Source, slot: nat, batchId: nat): (r: seq<Octet>)
    requires Accepted(p) && SourceOk(p, s) && slot < p.perBatch
    ensures |r| == PacketSize(p)
  {
    CodeStamp(p, Plain(p, s, slot), p.sequence, p.batch, slot, batchId)
  }

  /** The bytes copied to a reused buffer. The fields are written relative to the patch; what they
      write past its end stays in the staging area. */
  function Patch(p: Plan, s: Source, slot: nat, batchId: nat): (r: seq<Octet>)
    requires Accepted(p) && SourceOk(p, s) && PatchStart(p) + PatchSize(p) <= PacketSize(p)
    ensures |r| == PatchSize(p)
  {
    CodeStamp(p, s.template[PatchStart(p)..], Shifted(p.sequence, PatchStart(p)), Shifted(p.batch, PatchStart(p)),
              slot, batchId)[..PatchSize(p)]
  }

  /** A buffer after its patch. */
  function Patched(p: Plan, s: Source, buf: seq<Octet>, slot: nat, batchId: nat): seq<Octet>
    requires Accepted(p) && SourceOk(p, s) && PatchStart(p) + PatchSize(p) <= PacketSize(p) == |buf|
  {
    buf[..PatchStart(p)] + Patch(p, s, slot, batchId) + buf[PatchStart(p) + PatchSize(p)..]
  }

  lemma CodeStampPlain(p: Plan, data: seq<Octet>, sequence: Field, batch: Field, slot: nat, batchId: nat)
    requires Fits(sequence, |data|) && Fits(batch, |data|)
    requires sequence.offset + sequence.width <= U32 && batch.offset + batch.width <= U32
    ensures CodeStamp(p, data, sequence, batch, slot, batchId) == Stamp(p, data, sequence, batch, slot, batchId)
  {
    hide SetWrapped, SetField, SequenceOf;
    WrappedIsField(data, sequence, SequenceOf(p, slot, batchId));
    WrappedIsField(SetField(data, sequence, SequenceOf(p, slot, batchId)), batch, batchId);
  }

  lemma CodeStampPrefix(p: Plan, a: seq<Octet>, b: seq<Octet>, sequence: Field, batch: Field, slot: nat, batchId: nat, k: nat)
    requires |a| == |b| && k <= |a| && a[..k] == b[..k] && Fits(sequence, |a|) && Fits(batch, |a|)
    ensures CodeStamp(p, a, sequence, batch, slot, batchId)[..k] == CodeStamp(p, b, sequence, batch, slot, batchId)[..k]
  {
    hide SetWrapped, SequenceOf;
    var v := SequenceOf(p, slot, batchId);
    WrappedPrefix(a, b, sequence, v, k);
    WrappedPrefix(SetWrapped(a, sequence, v), SetWrapped(b, sequence, v), batch, batchId, k);
  }

  // ---------- The patch gives what a rebuild gives ----------

  lemma StampInSlice(p: Plan, data: seq<Octet>, lo: nat, slot: nat, batchId: nat)
    requires lo <= |data| && 8 * lo <= p.sequence.offset && 8 * lo <= p.batch.offset
    requires Fits(p.sequence, |data|) && Fits(p.batch, |data|)
    ensures Stamp(p, data, p.sequence, p.batch, slot, batchId) ==
            data[..lo] + Stamp(p, data[lo..], Shifted(p.sequence, lo), Shifted(p.batch, lo), slot, batchId)
  {
    hide SetField, SequenceOf;
    var v := SequenceOf(p, slot, batchId);
    var once := SetField(data, p.sequence, v);
    FieldInSlice(data, p.sequence, v, lo, |data|);
    FieldInSlice(once, p.batch, batchId, lo, |data|);
    assert data[lo..|data|] == data[lo..] && once[lo..|data|] == once[lo..];
    assert once[..lo] == data[..lo];
    assert once[lo..] == SetField(data[lo..], Shifted(p.sequence, lo), v);
  }

  /** A number's low u bits. */
  lemma {:induction false} LowBits(v: nat, w: nat, u: nat, j: nat)
    requires v % Pow2(u) == w % Pow2(u) && j < u
    ensures Shr(v, j) % 2 == Shr(w, j) % 2
  {
    ModDouble(v, Pow2(u - 1));
    ModDouble(w, Pow2(u - 1));
    if j > 0 { LowBits(v / 2, w / 2, u - 1, j - 1); }
  }

  lemma {:induction false} SomeLowBit(v: nat, u: nat) returns (j: nat)
    requires v % Pow2(u) != 0
    ensures j < u && Shr(v, j) % 2 == 1
  {
    if u > 0 {
      ModDouble(v, Pow2(u - 1));
      if v % 2 == 1 {
        j := 0;
      } else {
        j := SomeLowBit(v / 2, u - 1);
        j := j + 1;
      }
    }
  }

  /** The low bits of a sequence number. */
  lemma SequenceLow(p: Plan, slot: nat, batchId: nat, u: nat)
    requires FieldRange(p.sequence) && u <= p.sequence.width
    ensures SequenceOf(p, slot, batchId) % Pow2(u) == (batchId * p.perBatch + slot) % Pow2(u)
  {
    var x := batchId * p.perBatch + slot;
    MaskedValue(x % U32, p.sequence.width);
    Pow2Is32();
    hide Masked, Pow2;
    ModPow(x % U32, u, p.sequence.width);
    ModPow(x, u, 32);
  }

  lemma ModPow(x: nat, u: nat, w: nat)
    requires u <= w
    ensures x % Pow2(w) % Pow2(u) == x % Pow2(u)
  {
    Pow2Add(u, w - u);
    hide Pow2;
    ModOfMultiple(x, Pow2(u), Pow2(w - u));
  }

  /** When perBatch is a multiple of 2^u, all sequence numbers of a slot end in the same u bits. */
  lemma SameLowBits(p: Plan, slot: nat, before: nat, batchId: nat, u: nat)
    requires FieldRange(p.sequence) && u <= p.sequence.width && p.perBatch % Pow2(u) == 0
    ensures SequenceOf(p, slot, before) % Pow2(u) == SequenceOf(p, slot, batchId) % Pow2(u)
  {
    SequenceLow(p, slot, before, u);
    SequenceLow(p, slot, batchId, u);
    MultipleVanishes(p.perBatch, before, slot, Pow2(u));
    MultipleVanishes(p.perBatch, batchId, slot, Pow2(u));
  }

  lemma MultipleVanishes(n: nat, k: nat, r: nat, m: nat)
    requires m > 0 && n % m == 0
    ensures (k * n + r) % m == r % m
  {
    var q := n / m;
    assert n == m * q;
    assert k * n == m * (k * q);
    assert k * n + r == m * (k * q + r / m) + r % m;
    DivModUnique(k * n + r, m, k * q + r / m, r % m);
  }

  /** Past the patch, the packets of two batches are the same. */
  lemma SameTail(p: Plan, s: Source, slot: nat, before: nat, batchId: nat)
    requires Accepted(p) && Transmits(p) && SourceOk(p, s) && slot < p.perBatch
    ensures PatchEnd(p) <= PacketSize(p)
    ensures Build(p, s, slot, before)[PatchEnd(p)..] == Build(p, s, slot, batchId)[PatchEnd(p)..]
  {
    PatchShape(p);
    var a, b := Build(p, s, slot, before), Build(p, s, slot, batchId);
    SameLowBits(p, slot, before, batchId, Unpatched(p));
    forall m: nat | 8 * PatchEnd(p) <= m && m / 8 < |a|
      ensures Bit(a, m) == Bit(b, m)
    {
      TailBit(p, s, slot, before, m);
      TailBit(p, s, slot, batchId, m);
      if p.sequence.offset <= m < p.sequence.offset + p.sequence.width {
        LowBits(SequenceOf(p, slot, before), SequenceOf(p, slot, batchId), Unpatched(p),
                p.sequence.offset + p.sequence.width - 1 - m);
      }
    }
    hide Build, Bit;
    SameBits(a, b, PatchEnd(p));
  }

  /** A bit past the patch is a sequence bit or a plain one. */
  lemma TailBit(p: Plan, s: Source, slot: nat, batchId: nat, m: nat)
    requires Accepted(p) && SourceOk(p, s) && slot < p.perBatch && m / 8 < PacketSize(p)
    requires p.batch.offset + p.batch.width <= m
    ensures Bit(Build(p, s, slot, batchId), m) ==
            if p.sequence.offset <= m < p.sequence.offset + p.sequence.width
            then ValueBit(SequenceOf(p, slot, batchId), p.sequence.width, m - p.sequence.offset)
            else Bit(Plain(p, s, slot), m)
  {
    hide Bit, SetField, SequenceOf, Plain, ValueBit;
    var v := SequenceOf(p, slot, batchId);
    SetFieldExact(Plain(p, s, slot), p.sequence, v, m);
    SetFieldExact(SetField(Plain(p, s, slot), p.sequence, v), p.batch, batchId, m);
  }

  /** Up to the patch's end, patching gives the new packet. */
  lemma SameHead(p: Plan, s: Source, slot: nat, before: nat, batchId: nat)
    requires Accepted(p) && Transmits(p) && SourceOk(p, s) && slot < p.perBatch
    ensures PatchStart(p) + PatchSize(p) == PatchEnd(p) <= PacketSize(p)
    ensures Build(p, s, slot, before)[..PatchStart(p)] + Patch(p, s, slot, batchId) ==
            Build(p, s, slot, batchId)[..PatchEnd(p)]
  {
    PatchShape(p);
    hide Stamp, CodeStamp, PatchStart, PatchEnd, PatchSize;
    var lo, hi, plain := PatchStart(p), PatchEnd(p), Plain(p, s, slot);
    var f, g := Shifted(p.sequence, lo), Shifted(p.batch, lo);
    StampInSlice(p, plain, lo, slot, before);
    StampInSlice(p, plain, lo, slot, batchId);
    assert plain[lo..][..hi - lo] == s.template[lo..][..hi - lo];
    CodeStampPrefix(p, plain[lo..], s.template[lo..], f, g, slot, batchId, hi - lo);
    CodeStampPlain(p, plain[lo..], f, g, slot, batchId);
  }

  lemma PatchIsRebuild(p: Plan, s: Source, slot: nat, before: nat, batchId: nat)
    requires Accepted(p) && Transmits(p) && SourceOk(p, s) && slot < p.perBatch
    ensures PatchStart(p) + PatchSize(p) <= PacketSize(p)
    ensures Patched(p, s, Build(p, s, slot, before), slot, batchId) == Build(p, s, slot, batchId)
  {
    hide Build, Patch, PatchStart, PatchEnd, PatchSize, Accepted, Transmits, SourceOk, PacketSize;
    SameHead(p, s, slot, before, batchId);
    SameTail(p, s, slot, before, batchId);
    var b := Build(p, s, slot, batchId);
    assert b == b[..PatchEnd(p)] + b[PatchEnd(p)..];
  }

  lemma CodeIsRebuild(p: Plan, s: Source, slot: nat, batchId: nat)
    requires Accepted(p) && Transmits(p) && SourceOk(p, s) && slot < p.perBatch
    ensures CodeBuild(p, s, slot, batchId) == Build(p, s, slot, batchId)
  {
    CodeStampPlain(p, Plain(p, s, slot), p.sequence, p.batch, slot, batchId);
  }

  /** For every layout that reaches the loop: patching a buffer that holds the packet of any earlier
      batch gives, byte for byte, the packet that a full rebuild gives. */
  lemma PatchEqualsRebuild(p: Plan, s: Source, slot: nat, before: nat, batchId: nat)
    requires Reaches(p) && SourceOk(p, s) && slot < p.perBatch
    ensures PatchStart(p) + PatchSize(p) <= PacketSize(p)
    ensures Patched(p, s, Build(p, s, slot, before), slot, batchId) == Build(p, s, slot, batchId)
  {
    ReachesTransmits(p);
    hide Transmits, Patched, Build, PatchStart, PatchSize;
    PatchIsRebuild(p, s, slot, before, batchId);
  }

  /** And a buffer seen for the first time gets the packet it should. */
  lemma FreshIsRebuild(p: Plan, s: Source, slot: nat, batchId: nat)
    requires Reaches(p) && SourceOk(p, s) && slot < p.perBatch
    ensures CodeBuild(p, s, slot, batchId) == Build(p, s, slot, batchId)
  {
    ReachesTransmits(p);
    hide Transmits, Build, CodeBuild;
    CodeIsRebuild(p, s, slot, batchId);
  }

  lemma {:induction false} FieldKeepsRest(data: seq<Octet>, f: Field, value: nat, from: nat)
    requires Fits(f, |data|) && f.offset + f.width <= 8 * from && from <= |data|
    ensures SetField(data, f, value)[from..] == data[from..]
  {
    var r := SetField(data, f, value);
    forall m: nat | 8 * from <= m && m / 8 < |r| ensures Bit(r, m) == Bit(data, m) {
      SetFieldExact(data, f, value, m);
    }
    hide SetField, Bit;
    SameBits(r, data, from);
  }

  /** The packet for a slot carries that slot's payload, and the template everywhere before it but in
      the two fields. */
  lemma PacketContents(p: Plan, s: Source, slot: nat, batchId: nat, m: nat)
    requires Reaches(p) && SourceOk(p, s) && slot < p.perBatch
    ensures Build(p, s, slot, batchId)[p.payloadOffset..] == s.payloads[slot]
    ensures m / 8 < p.payloadOffset && !(p.sequence.offset <= m < p.sequence.offset + p.sequence.width) &&
            !(p.batch.offset <= m < p.batch.offset + p.batch.width) ==>
              Bit(Build(p, s, slot, batchId), m) == Bit(s.template, m)
  {
    ReachesTransmits(p);
    EndByteExact(p.sequence);
    EndByteExact(p.batch);
    hide SetField, SequenceOf, Transmits, EndByte, BitOf;
    var plain, v := Plain(p, s, slot), SequenceOf(p, slot, batchId);
    var once := SetField(plain, p.sequence, v);
    FieldKeepsRest(plain, p.sequence, v, p.payloadOffset);
    FieldKeepsRest(once, p.batch, batchId, p.payloadOffset);
    if m / 8 < p.payloadOffset {
      SetFieldExact(plain, p.sequence, v, m);
      SetFieldExact(once, p.batch, batchId, m);
    }
  }

  /** The sequence number determines batch and slot: no masking takes anything away, and each number
      of the field's range belongs to one packet of one batch. */
  lemma SequenceNumbers(p: Plan, slot: nat, batchId: nat)
    requires Reaches(p) && p.sequence.width < 32 && slot < p.perBatch && batchId < Pow2(p.batch.width)
    ensures SequenceOf(p, slot, batchId) == batchId * p.perBatch + slot < Pow2(p.sequence.width)
    ensures SequenceOf(p, slot, batchId) / p.perBatch == batchId && SequenceOf(p, slot, batchId) % p.perBatch == slot
  {
    hide Pow2, Masked, Accepted;
    DerivedShares(p);
    Shares(batchId, Pow2(p.batch.width), p.perBatch, slot);
    SmallSequence(p, slot, batchId);
    DivModUnique(batchId * p.perBatch + slot, p.perBatch, batchId, slot);
  }

  lemma SmallSequence(p: Plan, slot: nat, batchId: nat)
    requires p.sequence.width < 32 && batchId * p.perBatch + slot < Pow2(p.sequence.width)
    ensures SequenceOf(p, slot, batchId) == batchId * p.perBatch + slot
  {
    Pow2Is32();
    Pow2Monotone(p.sequence.width, 32);
    hide Pow2, Masked;
    var x := batchId * p.perBatch + slot;
    DivModUnique(x, U32, 0, x);
    MaskedValue(x, p.sequence.width);
    DivModUnique(x, Pow2(p.sequence.width), 0, x);
  }

  lemma Shares(k: nat, n: nat, m: nat, r: nat)
    requires k < n && r < m
    ensures k * m + r < m * n
  {
    assert (k + 1) * m <= n * m;
  }

  /** A receiver reads both fields back when they do not overlap. */
  lemma FieldsReadBack(p: Plan, s: Source, slot: nat, batch: nat)
    requires Accepted(p) && SourceOk(p, s) && slot < p.perBatch && batch < U32
    requires p.sequence.offset + p.sequence.width <= p.batch.offset ||
             p.batch.offset + p.batch.width <= p.sequence.offset
    ensures var pkt := Build(p, s, slot, BatchId(p, batch));
            && ReadBits(pkt, p.batch.offset, p.batch.width) == BatchId(p, batch)
            && ReadBits(pkt, p.sequence.offset, p.sequence.width) == SequenceOf(p, slot, BatchId(p, batch))
  {
    hide SetField, Plain, Masked, ReadBits;
    var id := BatchId(p, batch);
    var sum := (id * p.perBatch + slot) % U32;
    var v := SequenceOf(p, slot, id);
    var once := SetField(Plain(p, s, slot), p.sequence, v);
    MaskedValue(batch, p.batch.width);
    MaskedValue(sum, p.sequence.width);
    FieldRoundTrip(Plain(p, s, slot), p.sequence, v);
    OtherFieldKept(once, p.batch, id, p.sequence.offset, p.sequence.width);
    FieldRoundTrip(once, p.batch, id);
    DivModUnique(v, Pow2(p.sequence.width), 0, v);
    DivModUnique(id, Pow2(p.batch.width), 0, id);
  }
}
