/** Slots and sequence numbers over bursts: new buffers get the slots in turn, so a batch sent on buffers
    with different slots carries each of its sequence numbers exactly once. */
module TxBatch {
  import opened Words
  import opened BitField
  import opened TxPatch
  import opened TxWorker

  // ---------- Slots in turn ----------

  /** The buffers among the first n that the worker had not seen before. */
  function Unseen(c: Cursor, bufs: seq<Ptr>, n: nat): set<Ptr>
    requires n <= |bufs|
  {
    set b | b in bufs[..n] && b !in c.slots
  }

  lemma UnseenNext(c: Cursor, bufs: seq<Ptr>, n: nat)
    requires n < |bufs|
    ensures bufs[n] in c.slots || bufs[n] in bufs[..n] ==> Unseen(c, bufs, n + 1) == Unseen(c, bufs, n)
    ensures bufs[n] !in c.slots && bufs[n] !in bufs[..n] ==> |Unseen(c, bufs, n + 1)| == |Unseen(c, bufs, n)| + 1
  {
    assert bufs[..n + 1] == bufs[..n] + [bufs[n]];
    if bufs[n] !in c.slots && bufs[n] !in bufs[..n] {
      assert Unseen(c, bufs, n + 1) == Unseen(c, bufs, n) + {bufs[n]};
    }
  }

  /** The n-th slot from `start` on, cyclically. */
  function InTurn(start: nat, n: nat, d: nat): nat
    requires d > 0
  {
    (start + n) % d
  }

  lemma NoTurn(start: nat, d: nat)
    requires start < d
    ensures InTurn(start, 0, d) == start
  {
    DivModUnique(start, d, 0, start);
  }

  lemma ModNext(x: nat, d: nat)
    requires d > 0
    ensures (x % d + 1) % d == (x + 1) % d
  {
    CountStep(d, x, 0);
    if x % d + 1 < d {
      DivModUnique(x % d + 1, d, 0, x % d + 1);
    } else {
      DivModUnique(d, d, 1, 0);
    }
  }

  lemma TurnSlot(p: Plan, c: Cursor, b: Ptr)
    requires CursorOk(p, c)
    ensures Next(p, c, b).nextSlot == if b in c.slots then c.nextSlot else (c.nextSlot + 1) % p.perBatch
  {
  }

  lemma NoneUnseen(c: Cursor, bufs: seq<Ptr>)
    ensures |Unseen(c, bufs, 0)| == 0
  {
    assert Unseen(c, bufs, 0) == {};
  }

  /** The slot for the next new buffer advances by one for each buffer seen for the first time. */
  lemma {:induction false} NextSlot(p: Plan, c: Cursor, bufs: seq<Ptr>, n: nat)
    requires CursorOk(p, c) && n <= |bufs|
    ensures After(p, c, bufs, n).nextSlot == InTurn(c.nextSlot, |Unseen(c, bufs, n)|, p.perBatch)
  {
    hide Unseen, Next, InTurn;
    if n == 0 {
      NoneUnseen(c, bufs);
      NoTurn(c.nextSlot, p.perBatch);
    } else {
      NextSlot(p, c, bufs, n - 1);
      UnseenNext(c, bufs, n - 1);
      SlotsAre(p, c, bufs, n - 1);
      SlotStep(p, After(p, c, bufs, n - 1), bufs[n - 1], c.nextSlot, |Unseen(c, bufs, n - 1)|);
    }
  }

  lemma SlotStep(p: Plan, c: Cursor, b: Ptr, start: nat, n: nat)
    requires CursorOk(p, c) && c.nextSlot == InTurn(start, n, p.perBatch)
    ensures Next(p, c, b).nextSlot == InTurn(start, if b in c.slots then n else n + 1, p.perBatch)
  {
    hide Next;
    TurnSlot(p, c, b);
    ModNext(start + n, p.perBatch);
  }

  /** The i-th buffer to be seen for the first time gets slot (start + i) % perBatch. */
  lemma SlotsInTurn(p: Plan, c: Cursor, bufs: seq<Ptr>, n: nat)
    requires CursorOk(p, c) && n < |bufs| && bufs[n] !in c.slots && bufs[n] !in bufs[..n]
    ensures SlotAt(p, c, bufs, n) == InTurn(c.nextSlot, |Unseen(c, bufs, n)|, p.perBatch)
  {
    NextSlot(p, c, bufs, n);
    SlotsAre(p, c, bufs, n);
  }

  /** Bursts one after the other are one long burst, so all this holds over any number of bursts. */
  lemma {:induction false} BurstsJoin(p: Plan, c: Cursor, a: seq<Ptr>, b: seq<Ptr>, n: nat)
    requires CursorOk(p, c) && n <= |b|
    ensures After(p, After(p, c, a, |a|), b, n) == After(p, c, a + b, |a| + n)
  {
    hide Next;
    if n == 0 {
      SameStart(p, c, a, a + b, |a|);
    } else {
      BurstsJoin(p, c, a, b, n - 1);
      assert (a + b)[|a| + n - 1] == b[n - 1];
    }
  }

  lemma {:induction false} SameStart(p: Plan, c: Cursor, a: seq<Ptr>, b: seq<Ptr>, n: nat)
    requires CursorOk(p, c) && n <= |a| && n <= |b| && a[..n] == b[..n]
    ensures After(p, c, a, n) == After(p, c, b, n)
  {
    hide Next;
    if n > 0 {
      assert a[..n - 1] == a[..n][..n - 1] && b[..n - 1] == b[..n][..n - 1];
      assert a[n - 1] == a[..n][n - 1] && b[n - 1] == b[..n][n - 1];
      SameStart(p, c, a, b, n - 1);
    }
  }

  /** Different new buffers, as many as a batch has packets, get all the slots, once each. */
  lemma FreshSlots(p: Plan, c: Cursor, bufs: seq<Ptr>, n: nat)
    requires CursorOk(p, c) && n < |bufs| && Distinct(bufs) && forall i | 0 <= i < |bufs| :: bufs[i] !in c.slots
    ensures SlotAt(p, c, bufs, n) == (c.nextSlot + n) % p.perBatch
  {
    assert bufs[n] !in bufs[..n];
    SlotsInTurn(p, c, bufs, n);
    AllUnseen(c, bufs, n);
  }

  lemma {:induction false} AllUnseen(c: Cursor, bufs: seq<Ptr>, n: nat)
    requires n <= |bufs| && Distinct(bufs) && forall i | 0 <= i < |bufs| :: bufs[i] !in c.slots
    ensures |Unseen(c, bufs, n)| == n
  {
    if n == 0 {
      NoneUnseen(c, bufs);
    } else {
      AllUnseen(c, bufs, n - 1);
      UnseenNext(c, bufs, n - 1);
      assert bufs[n - 1] !in bufs[..n - 1];
    }
  }

  lemma DifferentMod(a: nat, i: nat, j: nat, d: nat)
    requires i < j < i + d
    ensures (a + i) % d != (a + j) % d
  {
    SlotsDiffer(a + i, a + j, d);
  }

  // ---------- Sequence numbers on the wire ----------

  predicate FieldsApart(p: Plan) {
    p.sequence.offset + p.sequence.width <= p.batch.offset || p.batch.offset + p.batch.width <= p.sequence.offset
  }

  /** The numbers a receiver reads from a buffer. */
  function SequenceIn(p: Plan, packet: seq<Octet>): nat
    requires Accepted(p) && |packet| == PacketSize(p)
  {
    ReadBits(packet, p.sequence.offset, p.sequence.width)
  }

  function BatchIn(p: Plan, packet: seq<Octet>): nat
    requires Accepted(p) && |packet| == PacketSize(p)
  {
    ReadBits(packet, p.batch.offset, p.batch.width)
  }

  /** The layouts and sources for which the numbers are defined and readable. */
  predicate Numbered(p: Plan, s: Source) {
    Reaches(p) && PlanOk(p, s) && p.sequence.width < 32 && FieldsApart(p)
  }

  /** Batch b, modulo the batch field, of a worker that has sent c.batch whole batches and part of one. */
  function WireBatch(p: Plan, c: Cursor, i: nat): nat
    requires p.perBatch > 0
  {
    (c.batch + (c.inBatch + i) / p.perBatch) % U32 % Pow2(p.batch.width)
  }

  /** What the i-th packet of a burst carries. */
  lemma PacketNumbers(p: Plan, s: Source, c: Cursor, bufs: seq<Ptr>, gpu: map<Ptr, seq<Octet>>, i: nat)
    requires Numbered(p, s) && CursorOk(p, c) && Written(p, s, c, bufs, |bufs|, gpu) && i < |bufs|
    ensures bufs[i] in gpu && |gpu[bufs[i]]| == PacketSize(p)
    ensures BatchIn(p, gpu[bufs[i]]) == WireBatch(p, c, i)
    ensures SequenceIn(p, gpu[bufs[i]]) == WireBatch(p, c, i) * p.perBatch + SlotAt(p, c, bufs, i)
    ensures p.payloadOffset <= PacketSize(p) && gpu[bufs[i]][p.payloadOffset..] == s.payloads[SlotAt(p, c, bufs, i)]
  {
    var batch := After(p, c, bufs, i).batch;
    hide Build, After, SlotAt, SequenceIn, BatchIn, Accepted, Numbered, PlanOk, WireBatch, Masked;
    NumberedPlan(p, s);
    BatchOnWire(p, c, bufs, i);
    BuiltNumbers(p, s, SlotAt(p, c, bufs, i), batch);
    PacketContents(p, s, SlotAt(p, c, bufs, i), BatchId(p, batch), 0);
  }

  lemma NumberedPlan(p: Plan, s: Source)
    requires Numbered(p, s)
    ensures Accepted(p) && PlanOk(p, s) && SourceOk(p, s) && Reaches(p)
  {
  }

  lemma BatchOnWire(p: Plan, c: Cursor, bufs: seq<Ptr>, i: nat)
    requires CursorOk(p, c) && p.batch.width <= 32 && i < |bufs|
    ensures After(p, c, bufs, i).batch < U32 && BatchId(p, After(p, c, bufs, i).batch) == WireBatch(p, c, i)
    ensures After(p, c, bufs, i).batch % Pow2(p.batch.width) == WireBatch(p, c, i)
  {
    hide After, Masked, Pow2;
    BatchOfPacket(p, c, bufs, i);
    MaskedValue(After(p, c, bufs, i).batch, p.batch.width);
  }

  /** What a receiver reads from the packet for a slot and a batch. */
  lemma BuiltNumbers(p: Plan, s: Source, slot: nat, batch: nat)
    requires Numbered(p, s) && SourceOk(p, s) && slot < p.perBatch && batch < U32
    ensures var packet, id := Build(p, s, slot, BatchId(p, batch)), batch % Pow2(p.batch.width);
            BatchIn(p, packet) == id && SequenceIn(p, packet) == id * p.perBatch + slot
  {
    hide Build, ReadBits, Transmits, LibraryAccepts, Derived, Pow2, Masked;
    MaskedValue(batch, p.batch.width);
    FieldsReadBack(p, s, slot, batch);
    SequenceNumbers(p, slot, BatchId(p, batch));
  }

  /** Packets [k, k + perBatch) of a burst are one whole batch. */
  predicate WholeBatch(p: Plan, c: Cursor, bufs: seq<Ptr>, k: nat)
    requires p.perBatch > 0
  {
    k + p.perBatch <= |bufs| && (c.inBatch + k) % p.perBatch == 0
  }

  lemma SameBatch(p: Plan, c: Cursor, bufs: seq<Ptr>, k: nat, i: nat)
    requires p.perBatch > 0 && WholeBatch(p, c, bufs, k) && k <= i < k + p.perBatch
    ensures WireBatch(p, c, i) == WireBatch(p, c, k)
  {
    hide Pow2;
    WholeQuotient(c.inBatch + k, p.perBatch, i - k);
    assert c.inBatch + k + (i - k) == c.inBatch + i;
  }

  lemma WholeQuotient(x: nat, d: nat, r: nat)
    requires r < d && x % d == 0
    ensures (x + r) / d == x / d
  {
    assert x == d * (x / d);
    DivModUnique(x + r, d, x / d, r);
  }

  // ---------- Exactly once ----------

  function Upto(n: nat): (r: set<nat>)
    ensures forall x: nat :: x in r <==> x < n
    ensures |r| == n
  {
    if n == 0 then {} else Upto(n - 1) + {n - 1}
  }

  /** n different numbers below n are all of them. */
  lemma {:induction false} AllTaken(slots: seq<nat>, x: nat)
    requires x < |slots| && (forall i | 0 <= i < |slots| :: slots[i] < |slots|)
    requires forall i, j | 0 <= i < j < |slots| :: slots[i] != slots[j]
    ensures x in slots
  {
    var taken := set i | 0 <= i < |slots| :: slots[i];
    Sizes(slots, |slots|);
    assert taken == set i | 0 <= i < |slots| :: slots[i];
    if x !in taken {
      assert taken <= Upto(|slots|) - {x};
      Smaller(taken, Upto(|slots|) - {x});
    }
  }

  lemma {:induction false} Sizes(slots: seq<nat>, n: nat)
    requires n <= |slots| && forall i, j | 0 <= i < j < |slots| :: slots[i] != slots[j]
    ensures |set i | 0 <= i < n :: slots[i]| == n
  {
    if n > 0 {
      Sizes(slots, n - 1);
      var init := set i | 0 <= i < n - 1 :: slots[i];
      assert (set i | 0 <= i < n :: slots[i]) == init + {slots[n - 1]};
      assert slots[n - 1] !in init;
    }
  }

  lemma {:induction false} Smaller(a: set<nat>, b: set<nat>)
    requires a <= b
    ensures |a| <= |b|
    decreases |a|
  {
    if a != {} {
      var x :| x in a;
      Smaller(a - {x}, b - {x});
    }
  }

  ghost predicate CarriedOnce(p: Plan, bufs: seq<Ptr>, gpu: map<Ptr, seq<Octet>>, k: nat, x: nat)
    requires Accepted(p) && k + p.perBatch <= |bufs|
    requires forall i | 0 <= i < |bufs| :: bufs[i] in gpu && |gpu[bufs[i]]| == PacketSize(p)
  {
    exists i :: k <= i < k + p.perBatch && SequenceIn(p, gpu[bufs[i]]) == x
                && forall j | k <= j < k + p.perBatch && SequenceIn(p, gpu[bufs[j]]) == x :: j == i
  }

  /** Packets [k, k + perBatch) carry batch number id and each of its sequence numbers exactly once. */
  ghost predicate BatchCarried(p: Plan, bufs: seq<Ptr>, gpu: map<Ptr, seq<Octet>>, k: nat, id: nat)
    requires Accepted(p) && k + p.perBatch <= |bufs|
  {
    && (forall i | 0 <= i < |bufs| :: bufs[i] in gpu && |gpu[bufs[i]]| == PacketSize(p))
    && (forall i | k <= i < k + p.perBatch :: BatchIn(p, gpu[bufs[i]]) == id)
    && (forall x | id * p.perBatch <= x < (id + 1) * p.perBatch :: CarriedOnce(p, bufs, gpu, k, x))
  }

  /** The buffers of a whole batch carry its batch number and, when their slots differ, each of its
      sequence numbers exactly once. */
  lemma BatchExactlyOnce(p: Plan, s: Source, c: Cursor, bufs: seq<Ptr>, gpu: map<Ptr, seq<Octet>>, k: nat)
    requires Numbered(p, s) && CursorOk(p, c) && Written(p, s, c, bufs, |bufs|, gpu) && WholeBatch(p, c, bufs, k)
    requires forall i, j | k <= i < j < k + p.perBatch :: SlotAt(p, c, bufs, i) != SlotAt(p, c, bufs, j)
    ensures BatchCarried(p, bufs, gpu, k, WireBatch(p, c, k))
  {
    hide Numbered, Written, SlotAt, WireBatch, SequenceIn, BatchIn, WholeBatch;
    BatchShape(p, s, c, bufs, k);
    forall i | 0 <= i < |bufs|
      ensures bufs[i] in gpu && |gpu[bufs[i]]| == PacketSize(p)
      ensures k <= i < k + p.perBatch ==>
                && BatchIn(p, gpu[bufs[i]]) == WireBatch(p, c, k)
                && SequenceIn(p, gpu[bufs[i]]) == WireBatch(p, c, k) * p.perBatch + SlotAt(p, c, bufs, i)
    {
      PacketNumbers(p, s, c, bufs, gpu, i);
      if k <= i < k + p.perBatch {
        SameBatch(p, c, bufs, k, i);
      }
    }
    var base := WireBatch(p, c, k) * p.perBatch;
    assert (WireBatch(p, c, k) + 1) * p.perBatch == base + p.perBatch;
    var slots := seq(p.perBatch, i requires 0 <= i < p.perBatch => SlotAt(p, c, bufs, k + i));
    hide CarriedOnce;
    forall x | base <= x < base + p.perBatch ensures CarriedOnce(p, bufs, gpu, k, x) {
      OnceOf(p, bufs, gpu, k, x, slots, base);
    }
  }

  lemma OnceOf(p: Plan, bufs: seq<Ptr>, gpu: map<Ptr, seq<Octet>>, k: nat, x: nat, slots: seq<nat>, base: nat)
    requires Accepted(p) && k + p.perBatch <= |bufs| && |slots| == p.perBatch && base <= x < base + p.perBatch
    requires forall i | 0 <= i < |bufs| :: bufs[i] in gpu && |gpu[bufs[i]]| == PacketSize(p)
    requires forall i | 0 <= i < |slots| :: slots[i] < |slots| && SequenceIn(p, gpu[bufs[k + i]]) == base + slots[i]
    requires forall i, j | 0 <= i < j < |slots| :: slots[i] != slots[j]
    ensures CarriedOnce(p, bufs, gpu, k, x)
  {
    hide SequenceIn, Accepted, PacketSize;
    AllTaken(slots, x - base);
    var i: nat :| i < |slots| && slots[i] == x - base;
    assert SequenceIn(p, gpu[bufs[k + i]]) == x;
    forall j | k <= j < k + p.perBatch && SequenceIn(p, gpu[bufs[j]]) == x ensures j == k + i {
      assert SequenceIn(p, gpu[bufs[k + (j - k)]]) == base + slots[j - k];
    }
  }

  lemma BatchShape(p: Plan, s: Source, c: Cursor, bufs: seq<Ptr>, k: nat)
    requires Numbered(p, s) && WholeBatch(p, c, bufs, k)
    ensures Accepted(p) && p.perBatch > 0 && k + p.perBatch <= |bufs|
  {
  }

  /** So does every whole batch sent on buffers the worker has not seen before. */
  lemma FreshBatch(p: Plan, s: Source, c: Cursor, bufs: seq<Ptr>, gpu: map<Ptr, seq<Octet>>, k: nat)
    requires Numbered(p, s) && CursorOk(p, c) && Written(p, s, c, bufs, |bufs|, gpu) && WholeBatch(p, c, bufs, k)
    requires Distinct(bufs) && forall i | 0 <= i < |bufs| :: bufs[i] !in c.slots
    ensures BatchCarried(p, bufs, gpu, k, WireBatch(p, c, k))
  {
    hide Numbered, Written, SlotAt, WireBatch, CarriedOnce, BatchCarried, WholeBatch;
    BatchShape(p, s, c, bufs, k);
    forall i, j | k <= i < j < k + p.perBatch ensures SlotAt(p, c, bufs, i) != SlotAt(p, c, bufs, j) {
      FreshSlots(p, c, bufs, i);
      FreshSlots(p, c, bufs, j);
      DifferentMod(c.nextSlot, i, j, p.perBatch);
    }
    BatchExactlyOnce(p, s, c, bufs, gpu, k);
  }

  /** A new worker sending its first burst. The first batch carries the sequence numbers
      0 .. perBatch - 1 with their payloads, once each, in order of the buffers. */
  method FirstBurst(plan: Plan, source: Source, buffers: map<Ptr, seq<Octet>>, bufs: seq<Ptr>) returns (sent: bool, worker: TxWorker)
    requires Numbered(plan, source) && Distinct(bufs)
    requires plan.perBatch <= |bufs| <= plan.batchSize && 0 !in bufs
    requires forall i | 0 <= i < |bufs| :: bufs[i] in buffers && |buffers[bufs[i]]| == PacketSize(plan)
    ensures sent && fresh(worker)
    ensures forall i | 0 <= i < |bufs| :: bufs[i] in worker.gpu && |worker.gpu[bufs[i]]| == PacketSize(plan)
    ensures forall i | 0 <= i < plan.perBatch ::
              && BatchIn(plan, worker.gpu[bufs[i]]) == 0 && SequenceIn(plan, worker.gpu[bufs[i]]) == i
              && worker.gpu[bufs[i]][plan.payloadOffset..] == source.payloads[i]
  {
    hide Numbered, Written, SequenceIn, BatchIn, TxWorker.Valid, Reaches, PlanOk, SourceOk, Accepted, PacketSize, Stamped, After;
    NumberedPlan(plan, source);
    worker := new TxWorker(plan, source, buffers);
    sent := worker.SendBurst(bufs, true, true);
    FirstRead(plan, source, Cursor(0, 0, 0, map[]), bufs, worker.gpu);
  }

  lemma FirstRead(p: Plan, s: Source, c: Cursor, bufs: seq<Ptr>, gpu: map<Ptr, seq<Octet>>)
    requires Numbered(p, s) && CursorOk(p, c) && Written(p, s, c, bufs, |bufs|, gpu) && Distinct(bufs)
    requires c == Cursor(0, 0, 0, map[]) && p.perBatch <= |bufs|
    ensures forall i | 0 <= i < |bufs| :: bufs[i] in gpu && |gpu[bufs[i]]| == PacketSize(p)
    ensures p.payloadOffset <= PacketSize(p) && |s.payloads| == p.perBatch
    ensures forall i | 0 <= i < p.perBatch ::
              && BatchIn(p, gpu[bufs[i]]) == 0 && SequenceIn(p, gpu[bufs[i]]) == i
              && gpu[bufs[i]][p.payloadOffset..] == s.payloads[i]
  {
    hide Numbered, Written, SlotAt, SequenceIn, BatchIn, WireBatch;
    NumberedPlan(p, s);
    forall i | 0 <= i < |bufs|
      ensures bufs[i] in gpu && |gpu[bufs[i]]| == PacketSize(p)
      ensures i < p.perBatch ==> BatchIn(p, gpu[bufs[i]]) == 0 && SequenceIn(p, gpu[bufs[i]]) == i
      ensures i < p.perBatch ==> gpu[bufs[i]][p.payloadOffset..] == s.payloads[i]
    {
      PacketNumbers(p, s, c, bufs, gpu, i);
      if i < p.perBatch {
        FreshSlots(p, c, bufs, i);
        FirstNumbers(p, c, i);
      }
    }
  }

  lemma FirstNumbers(p: Plan, c: Cursor, i: nat)
    requires i < p.perBatch && c.batch == c.inBatch == 0
    ensures WireBatch(p, c, i) == 0 && (0 + i) % p.perBatch == i
  {
    hide Pow2;
    DivModUnique(i, p.perBatch, 0, i);
    DivModUnique(0, Pow2(p.batch.width), 0, 0);
  }
}
