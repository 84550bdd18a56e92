/** tx_worker: staging one burst of packets and patches, copying them to the device buffers, and
    what every buffer holds after any number of bursts. */
module TxWorker {
  import opened Words
  import opened BitField
  import opened Buffers
  import opened TxPatch

  // ---------- Slots and batches ----------

  /** The counters and the buffer-to-slot table that live across bursts. */
  datatype Cursor = Cursor(batch: nat, inBatch: nat, nextSlot: nat, slots: map<Ptr, nat>)

  predicate CursorOk(p: Plan, c: Cursor) {
    && c.batch < U32 && c.inBatch < p.perBatch && c.nextSlot < p.perBatch
    && forall b | b in c.slots :: c.slots[b] < p.perBatch
  }

  function Next(p: Plan, c: Cursor, b: Ptr): (r: Cursor)
    requires CursorOk(p, c)
    ensures CursorOk(p, r) && b in r.slots
  {
    var (slots, nextSlot) := if b in c.slots then (c.slots, c.nextSlot)
                             else (c.slots[b := c.nextSlot], (c.nextSlot + 1) % p.perBatch);
    if c.inBatch + 1 == p.perBatch then Cursor((c.batch + 1) % U32, 0, nextSlot, slots)
    else Cursor(c.batch, c.inBatch + 1, nextSlot, slots)
  }

  /** The cursor after the first n buffers of a burst. */
  function After(p: Plan, c: Cursor, bufs: seq<Ptr>, n: nat): (r: Cursor)
    requires CursorOk(p, c) && n <= |bufs|
    ensures CursorOk(p, r)
  {
    if n == 0 then c else Next(p, After(p, c, bufs, n - 1), bufs[n - 1])
  }

  /** The batch id of the i-th packet of a burst, and the slot of its buffer. */
  function BatchAt(p: Plan, c: Cursor, bufs: seq<Ptr>, i: nat): nat
    requires CursorOk(p, c) && i < |bufs|
  {
    BatchId(p, After(p, c, bufs, i).batch)
  }

  function SlotAt(p: Plan, c: Cursor, bufs: seq<Ptr>, i: nat): (r: nat)
    requires CursorOk(p, c) && i < |bufs|
    ensures r < p.perBatch
  {
    After(p, c, bufs, i + 1).slots[bufs[i]]
  }

  lemma AddOne(x: nat, d: nat)
    requires d > 0
    ensures (x + 1) / d == if x % d + 1 == d then x / d + 1 else x / d
    ensures (x + 1) % d == if x % d + 1 == d then 0 else x % d + 1
  {
    assert x == d * (x / d) + x % d;
    if x % d + 1 == d {
      DivModUnique(x + 1, d, x / d + 1, 0);
    } else {
      DivModUnique(x + 1, d, x / d, x % d + 1);
    }
  }

  lemma NextCounts(p: Plan, c: Cursor, b: Ptr)
    requires CursorOk(p, c)
    ensures var r := Next(p, c, b);
            if c.inBatch + 1 == p.perBatch then r.batch == (c.batch + 1) % U32 && r.inBatch == 0
            else r.batch == c.batch && r.inBatch == c.inBatch + 1
  {
  }

  lemma CountStep(d: nat, x: nat, start: nat)
    requires d > 0
    ensures (x + 1) % d == if x % d + 1 == d then 0 else x % d + 1
    ensures (start + (x + 1) / d) % U32 ==
            if x % d + 1 == d then ((start + x / d) % U32 + 1) % U32 else (start + x / d) % U32
  {
    AddOne(x, d);
    var q := start + x / d;
    assert (q % U32 + 1) % U32 == (q + 1) % U32;
  }

  /** Packets are numbered in runs of perBatch, across bursts: the i-th packet of a burst belongs
      to batch (start + (packets already in the batch + i) / perBatch) modulo 2^32. */
  lemma {:induction false} BatchOfPacket(p: Plan, c: Cursor, bufs: seq<Ptr>, i: nat)
    requires CursorOk(p, c) && i <= |bufs|
    ensures var a := After(p, c, bufs, i);
            && a.inBatch == (c.inBatch + i) % p.perBatch
            && a.batch == (c.batch + (c.inBatch + i) / p.perBatch) % U32
  {
    hide Next;
    if i == 0 {
      DivModUnique(c.inBatch, p.perBatch, 0, c.inBatch);
    } else {
      BatchOfPacket(p, c, bufs, i - 1);
      BatchOfNext(p, After(p, c, bufs, i - 1), bufs[i - 1], c.inBatch + i - 1, c.batch);
    }
  }

  lemma BatchOfNext(p: Plan, c: Cursor, b: Ptr, x: nat, start: nat)
    requires CursorOk(p, c) && c.inBatch == x % p.perBatch && c.batch == (start + x / p.perBatch) % U32
    ensures var r := Next(p, c, b); r.inBatch == (x + 1) % p.perBatch && r.batch == (start + (x + 1) / p.perBatch) % U32
  {
    hide Next;
    NextCounts(p, c, b);
    CountStep(p.perBatch, x, start);
  }

  /** A buffer keeps the slot it was given. */
  lemma {:induction false} SlotsKept(p: Plan, c: Cursor, bufs: seq<Ptr>, i: nat, n: nat)
    requires CursorOk(p, c) && i <= n <= |bufs|
    ensures forall b | b in After(p, c, bufs, i).slots ::
              b in After(p, c, bufs, n).slots && After(p, c, bufs, n).slots[b] == After(p, c, bufs, i).slots[b]
    decreases n
  {
    if i < n { SlotsKept(p, c, bufs, i, n - 1); }
  }

  /** The table gains exactly the buffers of the burst. */
  lemma {:induction false} SlotsAre(p: Plan, c: Cursor, bufs: seq<Ptr>, n: nat)
    requires CursorOk(p, c) && n <= |bufs|
    ensures forall b :: b in After(p, c, bufs, n).slots <==> b in c.slots || b in bufs[..n]
  {
    if n > 0 {
      SlotsAre(p, c, bufs, n - 1);
      assert bufs[..n] == bufs[..n - 1] + [bufs[n - 1]];
    }
  }

  // ---------- Copies ----------

  /** One entry of the batched copy: from the staging area to an offset in a device buffer. */
  datatype Copy = Copy(dst: Ptr, at: nat, src: nat, size: nat)

  /** Where the i-th copy of a burst goes and what it must carry. */
  function CopyAt(p: Plan, c: Cursor, bufs: seq<Ptr>, i: nat): nat
    requires CursorOk(p, c) && i < |bufs|
  {
    if bufs[i] in After(p, c, bufs, i).slots then PatchStart(p) else 0
  }

  /** What a buffer needs: a patch if it was seen before, otherwise the whole packet. */
  function Needed(p: Plan, s: Source, seen: bool, slot: nat, batchId: nat): (r: seq<Octet>)
    requires Accepted(p) && Transmits(p) && SourceOk(p, s) && slot < p.perBatch
    ensures |r| <= PacketSize(p)
  {
    PatchShape(p);
    if seen then Patch(p, s, slot, batchId) else Build(p, s, slot, batchId)
  }

  function Wanted(p: Plan, s: Source, c: Cursor, bufs: seq<Ptr>, i: nat): (r: seq<Octet>)
    requires Accepted(p) && Transmits(p) && SourceOk(p, s) && CursorOk(p, c) && i < |bufs|
    ensures |r| <= PacketSize(p)
  {
    Needed(p, s, bufs[i] in After(p, c, bufs, i).slots, SlotAt(p, c, bufs, i), BatchAt(p, c, bufs, i))
  }

  /** The staged entry is what the i-th copy must be. */
  predicate Staged(p: Plan, s: Source, c: Cursor, bufs: seq<Ptr>, i: nat, cp: Copy, staging: seq<Octet>)
    requires Accepted(p) && Transmits(p) && SourceOk(p, s) && CursorOk(p, c) && i < |bufs|
  {
    && cp.dst == bufs[i] && cp.at == CopyAt(p, c, bufs, i) && cp.src + cp.size <= |staging|
    && staging[cp.src..cp.src + cp.size] == Wanted(p, s, c, bufs, i)
  }

  predicate Distinct(bufs: seq<Ptr>) {
    forall i, j | 0 <= i < j < |bufs| :: bufs[i] != bufs[j]
  }

  /** Every known buffer holds the full packet for its slot and the batch it was last given. */
  predicate Holds(p: Plan, s: Source, slots: map<Ptr, nat>, gpu: map<Ptr, seq<Octet>>, stamp: map<Ptr, nat>)
    requires Accepted(p) && SourceOk(p, s)
  {
    forall b | b in slots ::
      slots[b] < p.perBatch && b in gpu && b in stamp && gpu[b] == Build(p, s, slots[b], stamp[b])
  }

  // ---------- The code ----------

  /** Both set_bits_be calls on the n bytes at `at`. */
  method StampAt(a: array<Octet>, at: nat, n: nat, p: Plan, sequence: Field, batch: Field, slot: nat, batchId: nat)
    requires Accepted(p) && slot < p.perBatch && batchId < U32 && at + n <= a.Length
    requires Fits(sequence, n) && Fits(batch, n)
    modifies a
    ensures a[..] == old(a[..at]) + CodeStamp(p, old(a[at..at + n]), sequence, batch, slot, batchId) + old(a[at + n..])
  {
    hide SetWrapped, Masked;
    ghost var pre, mid, post := a[..at], a[at..at + n], a[at + n..];
    var v := SequenceOf(p, slot, batchId);
    SequenceInWord(p, slot, batchId);
    SetBitsBe(a, at, n, sequence, v);
    Pieces(a[..], pre, SetWrapped(mid, sequence, v), post);
    SetBitsBe(a, at, n, batch, batchId);
  }

  /** A buffer seen for the first time: template, payload and both fields. */
  method StagePacket(a: array<Octet>, at: nat, p: Plan, s: Source, slot: nat, batchId: nat)
    requires Accepted(p) && SourceOk(p, s) && slot < p.perBatch && batchId < U32
    requires at + PacketSize(p) <= a.Length
    modifies a
    ensures a[..] == old(a[..at]) + CodeBuild(p, s, slot, batchId) + old(a[at + PacketSize(p)..])
  {
    hide CodeStamp, Plain;
    ghost var pre, post := a[..at], a[at + PacketSize(p)..];
    StagePlain(a, at, p, s, slot);
    Pieces(a[..], pre, Plain(p, s, slot), post);
    StampAt(a, at, PacketSize(p), p, p.sequence, p.batch, slot, batchId);
  }

  /** memcpy of the template, then fill_payload. */
  method StagePlain(a: array<Octet>, at: nat, p: Plan, s: Source, slot: nat)
    requires Accepted(p) && SourceOk(p, s) && slot < p.perBatch && at + PacketSize(p) <= a.Length
    modifies a
    ensures a[..] == old(a[..at]) + Plain(p, s, slot) + old(a[at + PacketSize(p)..])
  {
    ghost var pre, post := a[..at], a[at + PacketSize(p)..];
    CopyInto(a, at, s.template);
    Overlay(a[..], pre, s.template, post, p.payloadOffset);
    CopyInto(a, at + p.payloadOffset, s.payloads[slot]);
  }

  lemma Overlay(a: seq<Octet>, pre: seq<Octet>, mid: seq<Octet>, post: seq<Octet>, k: nat)
    requires a == pre + mid + post && k <= |mid|
    ensures a[..|pre| + k] == pre + mid[..k] && a[|pre| + |mid|..] == post
  {
  }

  /** A reused buffer: a slice of the template and both fields at shifted offsets, which may write
      past the slice. */
  method StagePatch(a: array<Octet>, at: nat, p: Plan, s: Source, slot: nat, batchId: nat)
    requires Accepted(p) && SourceOk(p, s) && slot < p.perBatch && batchId < U32
    requires PatchStart(p) + PatchSize(p) <= PacketSize(p) && at + PacketSize(p) <= a.Length
    modifies a
    ensures a[..at] == old(a[..at]) && a[at..at + PatchSize(p)] == Patch(p, s, slot, batchId)
  {
    hide CodeStamp, PatchSize;
    var lo, size := PatchStart(p), PatchSize(p);
    var n := PacketSize(p) - lo;
    var f, g := Shifted(p.sequence, lo), Shifted(p.batch, lo);
    ghost var pre, post := a[..at], a[at + size..];
    CopyInto(a, at, s.template[lo..lo + size]);
    ghost var staged := a[..];
    SliceStaged(staged, pre, s.template[lo..lo + size], post, n);
    SliceOfRest(s.template, lo, size);
    CodeStampPrefix(p, staged[at..at + n], s.template[lo..], f, g, slot, batchId, size);
    StampAt(a, at, n, p, f, g, slot, batchId);
    SliceStaged(a[..], pre, CodeStamp(p, staged[at..at + n], f, g, slot, batchId), staged[at + n..], size);
  }

  /** The two branches of the packet loop. */
  method StageNeeded(a: array<Octet>, at: nat, p: Plan, s: Source, seen: bool, slot: nat, batchId: nat)
    returns (start: nat, size: nat)
    requires PlanOk(p, s) && slot < p.perBatch && batchId < U32 && at + PacketSize(p) <= a.Length
    modifies a
    ensures start == (if seen then PatchStart(p) else 0) && size <= PacketSize(p)
    ensures a[..at] == old(a[..at]) && a[at..at + size] == Needed(p, s, seen, slot, batchId)
  {
    PatchShape(p);
    hide Build, CodeBuild, Patch, PatchStart, PatchSize;
    if seen {
      StagePatch(a, at, p, s, slot, batchId);
      start, size := PatchStart(p), PatchSize(p);
    } else {
      ghost var pre, post := a[..at], a[at + PacketSize(p)..];
      StagePacket(a, at, p, s, slot, batchId);
      CodeIsRebuild(p, s, slot, batchId);
      Pieces(a[..], pre, Build(p, s, slot, batchId), post);
      start, size := 0, PacketSize(p);
    }
  }

  lemma SliceStaged(a: seq<Octet>, pre: seq<Octet>, mid: seq<Octet>, post: seq<Octet>, n: nat)
    requires a == pre + mid + post && |pre| + n <= |a|
    ensures a[..|pre|] == pre
    ensures n <= |mid| ==> a[|pre|..|pre| + n] == mid[..n]
    ensures |mid| <= n ==> a[|pre|..|pre| + n][..|mid|] == mid
  {
    if |mid| <= n {
      assert a[|pre|..|pre| + n][..|mid|] == a[|pre|..|pre| + |mid|];
    }
  }

  lemma SliceOfRest(t: seq<Octet>, lo: nat, size: nat)
    requires lo + size <= |t|
    ensures t[lo..][..size] == t[lo..lo + size]
  {
  }

  lemma SequenceInWord(p: Plan, slot: nat, batchId: nat)
    requires FieldRange(p.sequence)
    ensures SequenceOf(p, slot, batchId) < U32
  {
    var sum := (batchId * p.perBatch + slot) % U32;
    MaskedValue(sum, p.sequence.width);
    Pow2Is32();
    Pow2Monotone(p.sequence.width, 32);
  }

  // ---------- Reasoning about one burst ----------

  /** What a layout that reaches the loop guarantees. */
  predicate PlanOk(p: Plan, s: Source) {
    Accepted(p) && Transmits(p) && SourceOk(p, s)
  }

  lemma PlanReaches(p: Plan, s: Source)
    requires Reaches(p) && SourceOk(p, s)
    ensures PlanOk(p, s) && p.perBatch >= 1
  {
    hide SourceOk;
    ReachesTransmits(p);
  }

  lemma StagingSize(n: nat, m: nat)
    ensures n * m >= 0
  {
  }

  lemma StagedGrows(p: Plan, s: Source, c: Cursor, bufs: seq<Ptr>, i: nat, cp: Copy, a: seq<Octet>, b: seq<Octet>)
    requires PlanOk(p, s) && CursorOk(p, c) && i < |bufs| && a <= b
    requires Staged(p, s, c, bufs, i, cp, a)
    ensures Staged(p, s, c, bufs, i, cp, b)
  {
    hide Wanted;
    assert a[cp.src..cp.src + cp.size] == b[cp.src..cp.src + cp.size];
  }

  /** With distinct buffers, whether a buffer is patched depends only on the table before the
      burst, and its slot is the one it had. */
  lemma SlotOfBuffer(p: Plan, c: Cursor, bufs: seq<Ptr>, i: nat)
    requires CursorOk(p, c) && i < |bufs| && Distinct(bufs)
    ensures bufs[i] in After(p, c, bufs, i).slots <==> bufs[i] in c.slots
    ensures bufs[i] in c.slots ==> SlotAt(p, c, bufs, i) == c.slots[bufs[i]]
    ensures bufs[i] in After(p, c, bufs, |bufs|).slots
    ensures After(p, c, bufs, |bufs|).slots[bufs[i]] == SlotAt(p, c, bufs, i)
  {
    hide Next;
    SlotsAre(p, c, bufs, i);
    SlotsKept(p, c, bufs, 0, i + 1);
    SlotsKept(p, c, bufs, i + 1, |bufs|);
  }

  /** A buffer overwritten by the copy staged for it holds the packet it should. */
  lemma CopyBuilds(p: Plan, s: Source, c: Cursor, bufs: seq<Ptr>, i: nat, buf: seq<Octet>, before: nat)
    requires PlanOk(p, s) && CursorOk(p, c) && i < |bufs| && Distinct(bufs) && |buf| == PacketSize(p)
    requires bufs[i] in c.slots ==> buf == Build(p, s, c.slots[bufs[i]], before)
    ensures var (at, data) := (CopyAt(p, c, bufs, i), Wanted(p, s, c, bufs, i));
            && at + |data| <= |buf|
            && buf[..at] + data + buf[at + |data|..] == Build(p, s, SlotAt(p, c, bufs, i), BatchAt(p, c, bufs, i))
  {
    hide After, Build, Patch, SlotAt, BatchAt;
    SlotOfBuffer(p, c, bufs, i);
    if bufs[i] in c.slots {
      PatchIsRebuild(p, s, c.slots[bufs[i]], before, BatchAt(p, c, bufs, i));
    }
  }

  /** What the buffers of a burst hold after it. */
  predicate Written(p: Plan, s: Source, c: Cursor, bufs: seq<Ptr>, n: nat, gpu: map<Ptr, seq<Octet>>)
    requires PlanOk(p, s) && CursorOk(p, c) && n <= |bufs|
  {
    forall i | 0 <= i < n ::
      bufs[i] in gpu && gpu[bufs[i]] == Build(p, s, SlotAt(p, c, bufs, i), BatchAt(p, c, bufs, i))
  }

  /** The batch each buffer was last given, after a burst. */
  ghost predicate Stamped(p: Plan, c: Cursor, bufs: seq<Ptr>, before: map<Ptr, nat>, after: map<Ptr, nat>)
    requires CursorOk(p, c)
  {
    && (forall b | b in before && b !in bufs :: b in after && after[b] == before[b])
    && (forall i | 0 <= i < |bufs| :: bufs[i] in after && after[bufs[i]] == BatchAt(p, c, bufs, i))
  }

  /** So the buffer invariant carries over to the new table. */
  lemma BurstHolds(p: Plan, s: Source, c: Cursor, bufs: seq<Ptr>, gpu: map<Ptr, seq<Octet>>,
                   gpu': map<Ptr, seq<Octet>>, stamp: map<Ptr, nat>, stamp': map<Ptr, nat>)
    requires PlanOk(p, s) && CursorOk(p, c) && Distinct(bufs) && Holds(p, s, c.slots, gpu, stamp)
    requires Written(p, s, c, bufs, |bufs|, gpu') && Stamped(p, c, bufs, stamp, stamp')
    requires forall b | b in gpu && b !in bufs :: b in gpu' && gpu'[b] == gpu[b]
    ensures Holds(p, s, After(p, c, bufs, |bufs|).slots, gpu', stamp')
  {
    hide Build, Next, SlotAt, BatchAt;
    var after := After(p, c, bufs, |bufs|).slots;
    SlotsAre(p, c, bufs, |bufs|);
    SlotsKept(p, c, bufs, 0, |bufs|);
    assert bufs[..|bufs|] == bufs;
    forall b | b in after
      ensures b in gpu' && b in stamp' && gpu'[b] == Build(p, s, after[b], stamp'[b])
    {
      if b in bufs {
        var i: nat :| i < |bufs| && bufs[i] == b;
        SlotOfBuffer(p, c, bufs, i);
      }
    }
  }

  /** What StageOne promises is what the i-th entry of the burst must be. */
  lemma StagedNext(p: Plan, s: Source, c: Cursor, bufs: seq<Ptr>, i: nat, cp: Copy, staging: seq<Octet>, before: seq<Octet>)
    requires PlanOk(p, s) && CursorOk(p, c) && i < |bufs|
    requires cp.dst == bufs[i] && cp.src == |before| && cp.src + cp.size == |staging|
    requires cp.at == if bufs[i] in After(p, c, bufs, i).slots then PatchStart(p) else 0
    requires staging[cp.src..] ==
             var slot, id := Next(p, After(p, c, bufs, i), bufs[i]).slots[bufs[i]], BatchId(p, After(p, c, bufs, i).batch);
             Needed(p, s, bufs[i] in After(p, c, bufs, i).slots, slot, id)
    ensures Staged(p, s, c, bufs, i, cp, staging)
  {
    hide Needed, Next;
    assert After(p, c, bufs, i + 1) == Next(p, After(p, c, bufs, i), bufs[i]);
    assert staging[cp.src..cp.src + cp.size] == staging[cp.src..];
  }

  ghost function Restamp(p: Plan, c: Cursor, bufs: seq<Ptr>, stamp: map<Ptr, nat>, n: nat): map<Ptr, nat>
    requires CursorOk(p, c) && n <= |bufs|
  {
    if n == 0 then stamp else Restamp(p, c, bufs, stamp, n - 1)[bufs[n - 1] := BatchAt(p, c, bufs, n - 1)]
  }

  lemma {:induction false} RestampFirst(p: Plan, c: Cursor, bufs: seq<Ptr>, stamp: map<Ptr, nat>, n: nat)
    requires CursorOk(p, c) && Distinct(bufs) && n <= |bufs|
    ensures var r := Restamp(p, c, bufs, stamp, n);
            && (forall b | b in stamp && b !in bufs :: b in r && r[b] == stamp[b])
            && (forall i | 0 <= i < n :: bufs[i] in r && r[bufs[i]] == BatchAt(p, c, bufs, i))
  {
    hide BatchAt;
    if n > 0 { RestampFirst(p, c, bufs, stamp, n - 1); }
  }

  // ---------- The worker ----------

  class TxWorker {
    const plan: Plan
    const source: Source
    const staging: array<Octet>
    var batch: nat
    var inBatch: nat
    var nextSlot: nat
    var slots: map<Ptr, nat>
    var gpu: map<Ptr, seq<Octet>>
    ghost var stamp: map<Ptr, nat>

    function View(): Cursor
      reads this
    {
      Cursor(batch, inBatch, nextSlot, slots)
    }

    ghost predicate Ready()
      reads this
    {
      && PlanOk(plan, source) && CursorOk(plan, View())
      && staging.Length == plan.batchSize * PacketSize(plan)
    }

    /** Between bursts, every buffer seen so far holds its full packet. */
    ghost predicate Valid()
      reads this
    {
      Ready() && Holds(plan, source, slots, gpu, stamp)
    }

    constructor (plan: Plan, source: Source, buffers: map<Ptr, seq<Octet>>)
      requires Reaches(plan) && SourceOk(plan, source)
      ensures Valid() && fresh(staging)
      ensures this.plan == plan && this.source == source && gpu == buffers && View() == Cursor(0, 0, 0, map[])
    {
      hide Reaches, SourceOk, PlanOk, Valid, PacketSize;
      PlanReaches(plan, source);
      StagingSize(plan.batchSize, PacketSize(plan));
      this.plan, this.source := plan, source;
      staging := new Octet[plan.batchSize * PacketSize(plan)];
      batch, inBatch, nextSlot, slots, gpu, stamp := 0, 0, 0, map[], buffers, map[];
      new;
      StartsValid();
    }

    lemma StartsValid()
      requires PlanOk(plan, source) && plan.perBatch >= 1 && View() == Cursor(0, 0, 0, map[])
      requires staging.Length == plan.batchSize * PacketSize(plan)
      ensures Valid()
    {
      hide PlanOk, PacketSize, Build;
    }

    /** One turn of the packet loop: a packet or a patch is staged at `at`. */
    method StageOne(b: Ptr, at: nat) returns (cp: Copy)
      requires Ready() && at + PacketSize(plan) <= staging.Length
      modifies `batch, `inBatch, `nextSlot, `slots, staging
      ensures View() == Next(plan, old(View()), b)
      ensures cp.dst == b && cp.src == at && cp.size <= PacketSize(plan)
      ensures staging[..at] == old(staging[..at])
      ensures cp.at == if b in old(slots) then PatchStart(plan) else 0
      ensures staging[at..at + cp.size] == Needed(plan, source, b in old(slots), slots[b], BatchId(plan, old(batch)))
    {
      var batchId := BatchId(plan, batch);
      BatchInWord(plan, batch);
      hide Needed, Masked, PatchStart, PatchSize;
      var inserted := b !in slots;
      if inserted {
        slots := slots[b := nextSlot];
        nextSlot := (nextSlot + 1) % plan.perBatch;
      }
      var start, size := StageNeeded(staging, at, plan, source, !inserted, slots[b], batchId);
      cp := Copy(b, start, at, size);
      inBatch := inBatch + 1;
      if inBatch == plan.perBatch {
        inBatch := 0;
        batch := (batch + 1) % U32;
      }
    }

    /** The packet loop of one burst: it fails on too many packets or on a null buffer; otherwise
        every staged entry is the one its buffer needs, and the staging area is never overrun. */
    method StageBurst(bufs: seq<Ptr>) returns (ok: bool, copies: seq<Copy>)
      requires Ready()
      modifies `batch, `inBatch, `nextSlot, `slots, staging
      ensures ok <==> |bufs| <= plan.batchSize && 0 !in bufs
      ensures ok ==> View() == After(plan, old(View()), bufs, |bufs|) && |copies| == |bufs|
      ensures ok ==> forall i | 0 <= i < |bufs| ::
                Staged(plan, source, old(View()), bufs, i, copies[i], staging[..])
    {
      hide Staged, Wanted, Needed, Next;
      copies := [];
      if |bufs| > plan.batchSize {
        return false, [];
      }
      ghost var c := View();
      var at := 0;
      for i := 0 to |bufs|
        invariant Ready() && View() == After(plan, c, bufs, i) && 0 !in bufs[..i]
        invariant |copies| == i && at <= i * PacketSize(plan)
        invariant at <= staging.Length
        invariant forall j | 0 <= j < i :: Staged(plan, source, c, bufs, j, copies[j], staging[..at])
      {
        var b := bufs[i];
        if b == 0 {
          return false, [];
        }
        MulOrder(i, plan.batchSize, PacketSize(plan));
        ghost var before := staging[..at];
        var cp := StageOne(b, at);
        at := at + cp.size;
        StagedNext(plan, source, c, bufs, i, cp, staging[..at], before);
        forall j | 0 <= j < i
          ensures Staged(plan, source, c, bufs, j, copies[j], staging[..at])
        {
          StagedGrows(plan, source, c, bufs, j, copies[j], before, staging[..at]);
        }
        copies := copies + [cp];
        assert (i + 1) * PacketSize(plan) == i * PacketSize(plan) + PacketSize(plan);
      }
      assert bufs[..|bufs|] == bufs;
      forall j | 0 <= j < |bufs|
        ensures Staged(plan, source, c, bufs, j, copies[j], staging[..])
      {
        StagedGrows(plan, source, c, bufs, j, copies[j], staging[..at], staging[..]);
      }
      return true, copies;
    }

    /** The batched copy to the device; the copies go to different buffers. */
    method CopyBurst(bufs: seq<Ptr>, copies: seq<Copy>, ghost c: Cursor)
      requires PlanOk(plan, source) && CursorOk(plan, c) && Distinct(bufs) && |copies| == |bufs|
      requires forall i | 0 <= i < |bufs| :: Staged(plan, source, c, bufs, i, copies[i], staging[..])
      requires forall i | 0 <= i < |bufs| :: bufs[i] in gpu && |gpu[bufs[i]]| == PacketSize(plan)
      requires Holds(plan, source, c.slots, gpu, stamp)
      modifies `gpu
      ensures Written(plan, source, c, bufs, |bufs|, gpu)
      ensures gpu.Keys == old(gpu).Keys && forall b | b in gpu && b !in bufs :: gpu[b] == old(gpu)[b]
    {
      hide CopyAt, Wanted, Build, After, SlotAt, BatchAt;
      for i := 0 to |bufs|
        invariant Written(plan, source, c, bufs, i, gpu)
        invariant gpu.Keys == old(gpu).Keys && forall b | b in gpu && b !in bufs[..i] :: gpu[b] == old(gpu)[b]
      {
        var cp := copies[i];
        assert bufs[i] !in bufs[..i];
        assert Staged(plan, source, c, bufs, i, cp, staging[..]);
        assert staging[..][cp.src..cp.src + cp.size] == staging[cp.src..cp.src + cp.size];
        var buf := gpu[cp.dst];
        CopyBuilds(plan, source, c, bufs, i, buf, if cp.dst in stamp then stamp[cp.dst] else 0);
        gpu := gpu[cp.dst := buf[..cp.at] + staging[cp.src..cp.src + cp.size] + buf[cp.at + cp.size..]];
        assert bufs[..i + 1] == bufs[..i] + [bufs[i]];
      }
      assert bufs[..|bufs|] == bufs;
    }

    /** One turn of the send loop for the buffers of a burst. When it is sent, every buffer seen so
        far holds its full packet, and the i-th buffer of this burst that of the i-th batch number;
        otherwise the worker stops. */
    method SendBurst(bufs: seq<Ptr>, copied: bool, lengthsSet: bool) returns (sent: bool)
      requires Valid() && Distinct(bufs)
      requires forall i | 0 <= i < |bufs| :: bufs[i] != 0 ==> bufs[i] in gpu && |gpu[bufs[i]]| == PacketSize(plan)
      modifies this, staging
      ensures sent <==> |bufs| <= plan.batchSize && 0 !in bufs && (copied || bufs == []) && lengthsSet
      ensures sent ==> Valid() && View() == After(plan, old(View()), bufs, |bufs|)
      ensures sent ==> Written(plan, source, old(View()), bufs, |bufs|, gpu)
      ensures sent ==> Stamped(plan, old(View()), bufs, old(stamp), stamp)
      ensures sent ==> forall b | b in old(gpu) && b !in bufs :: b in gpu && gpu[b] == old(gpu)[b]
    {
      hide After, Build, SlotAt, BatchAt, Staged;
      ghost var c, gpu0 := View(), gpu;
      var staged, copies := StageBurst(bufs);
      if !staged || (bufs != [] && !copied) {
        return false;
      }
      CopyBurst(bufs, copies, c);
      if !lengthsSet {
        return false;
      }
      ghost var stamp' := Restamp(plan, c, bufs, stamp, |bufs|);
      RestampFirst(plan, c, bufs, stamp, |bufs|);
      BurstHolds(plan, source, c, bufs, gpu0, gpu, stamp, stamp');
      stamp := stamp';
      return true;
    }
  }

  lemma BatchInWord(p: Plan, batch: nat)
    requires FieldRange(p.batch) && batch < U32
    ensures BatchId(p, batch) < U32
  {
    MaskedValue(batch, p.batch.width);
    Pow2Is32();
    Pow2Monotone(p.batch.width, 32);
  }
}
