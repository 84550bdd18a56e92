/** Every step of the ring keeps the invariant, hence every state of every run has it. */
module RingProof {
  import opened Words
  import opened RingSystem

  // ---------- Arithmetic ----------

  lemma SlotOf(c: Config, lo: nat, i: nat)
    requires c.Valid()
    ensures c.Slot((lo % U32 + i) % U32) == (lo + i) % c.Size()
  {
    assert (lo % U32 + i) % U32 == (lo + i) % U32;
    AndMask((lo + i) % U32, c.logSize);
    WrapKeepsSlot(lo + i, c.logSize);
  }

  lemma SizeBound(c: Config)
    requires c.Valid()
    ensures 2 <= c.Size() <= 0x8000_0000
  {
    Pow2Is32();
    Pow2Monotone(1, c.logSize);
    Pow2Monotone(c.logSize, 31);
  }

  lemma WrapSub(m: nat, a: nat, b: nat)
    ensures (m + a % U32 - b % U32) % U32 == (m + a - b) % U32
  {
  }

  lemma WrapAdd(a: nat, n: nat)
    ensures (a % U32 + n) % U32 == (a + n) % U32
  {
  }

  lemma SameWord(a: nat, b: nat)
    requires a % U32 == b % U32 && a <= b < a + U32
    ensures a == b
  {
  }

  // ---------- Frames ----------

  lemma OpAt<T>(c: Config, s: Sys<T>, t: Tid)
    requires Inv(c, s)
    ensures OpOk(c, s.mem, t, s.OpOf(t), s.SnapOf(t))
  {
  }

  lemma CoveredAt<T>(c: Config, s: Sys<T>, k: Kind, p: nat)
    requires Inv(c, s) && |s.mem.At(k).log| <= p < |s.mem.At(k).owner|
    ensures Covers(s, s.mem.At(k).owner[p], k, p)
  {
    assert Tiled(s, k);
  }

  /** A step that keeps the holders of a side and their segments keeps its tiling. */
  lemma TiledFrame<T>(s: Sys<T>, s': Sys<T>, k: Kind)
    requires Tiled(s, k) && s'.mem.At(k).owner == s.mem.At(k).owner && s'.mem.At(k).log == s.mem.At(k).log
    requires forall u | Holding(s, u, k) ::
               Holding(s', u, k) && s'.SnapOf(u) == s.SnapOf(u) && s'.OpOf(u).req == s.OpOf(u).req
    ensures Tiled(s', k)
  {
    forall p | |s'.mem.At(k).log| <= p < |s'.mem.At(k).owner| ensures Covers(s', s'.mem.At(k).owner[p], k, p) {
      assert Covers(s, s.mem.At(k).owner[p], k, p);
    }
  }

  /** A step that only moves thread t and keeps the memory. */
  lemma ThreadStepKeeps<T>(c: Config, s: Sys<T>, s': Sys<T>, t: Tid)
    requires Inv(c, s) && s'.mem == s.mem
    requires forall u | u != t :: s'.OpOf(u) == s.OpOf(u) && s'.SnapOf(u) == s.SnapOf(u)
    requires s.OpOf(t).Copy? || s.OpOf(t).Publish? ==>
               && (s'.OpOf(t).Copy? || s'.OpOf(t).Publish?)
               && s'.OpOf(t).req == s.OpOf(t).req && s'.SnapOf(t) == s.SnapOf(t)
    requires OpOk(c, s'.mem, t, s'.OpOf(t), s'.SnapOf(t)) && (c.single ==> OnePerSide(s'))
    ensures Inv(c, s')
  {
    TiledFrame(s, s', Prod);
    TiledFrame(s, s', Cons);
    forall u ensures OpOk(c, s'.mem, u, s'.OpOf(u), s'.SnapOf(u)) {
      OpAt(c, s, u);
    }
  }

  lemma SameKindKeepsOne<T>(s: Sys<T>, s': Sys<T>, t: Tid)
    requires OnePerSide(s) && s'.mem == s.mem
    requires forall u | u != t :: s'.OpOf(u) == s.OpOf(u) && s'.SnapOf(u) == s.SnapOf(u)
    requires !s.OpOf(t).Idle? && (s'.OpOf(t).Idle? || s'.OpOf(t).req == s.OpOf(t).req)
    requires s'.OpOf(t).Check? || s'.OpOf(t).Reserve? ==> s'.SnapOf(t) == |s.mem.At(s.OpOf(t).req.Kind()).owner|
    ensures OnePerSide(s')
  {
    assert forall u, k | Busy(s', u, k) :: Busy(s, u, k);
  }

  // ---------- Calling, snapshot, room check ----------

  lemma CallKeeps<T>(c: Config, s: Sys<T>, t: Tid, req: Req<T>)
    requires Inv(c, s) && Enabled(c, s, t, Call(req))
    ensures Inv(c, DoCall(s, t, req))
  {
    if req.N() != 0 {
      var s' := DoCall(s, t, req);
      if c.single {
        assert forall u, k | Busy(s', u, k) :: Busy(s, u, k) || (u == t && k == req.Kind());
      }
      ThreadStepKeeps(c, s, s', t);
    }
  }

  lemma SnapshotKeeps<T>(c: Config, s: Sys<T>, t: Tid, req: Req<T>)
    requires Inv(c, s) && (s.OpOf(t).Start? || s.OpOf(t).Reserve?) && s.OpOf(t).req == req
    ensures Inv(c, TakeSnapshot(s, t, req))
  {
    OpAt(c, s, t);
    var s' := TakeSnapshot(s, t, req);
    if c.single {
      SameKindKeepsOne(s, s', t);
    }
    ThreadStepKeeps(c, s, s', t);
  }

  /** The wrapped room is the unwrapped room, up to whole laps of the 32-bit cursor. */
  lemma RoomUnwrapped<T>(c: Config, s: Sys<T>, t: Tid)
    requires Inv(c, s) && s.OpOf(t).Check?
    ensures var k := s.OpOf(t).req.Kind();
            && s.SnapOf(t) <= |s.mem.At(k).owner| <= Limit(c, s.mem, k) <= |s.mem.At(k).owner| + c.Mask()
            && Room(c, s.mem, k, s.OpOf(t).head) == (Limit(c, s.mem, k) - s.SnapOf(t)) % U32
  {
    OpAt(c, s, t);
    WrapSub(c.Mask(), |s.mem.cons.log|, s.SnapOf(t));
    WrapSub(0, |s.mem.prod.log|, s.SnapOf(t));
  }

  lemma LoadTailKeeps<T>(c: Config, s: Sys<T>, t: Tid, req: Req<T>, head: nat)
    requires Inv(c, s) && s.OpOf(t) == Check(req, head)
    ensures Inv(c, DoLoadTail(c, s, t, req, head))
  {
    hide Stored, Wrapped, Fifo, Pow2;
    RoomUnwrapped(c, s, t);
    OpAt(c, s, t);
    var s' := DoLoadTail(c, s, t, req, head);
    if c.single {
      SameKindKeepsOne(s, s', t);
    }
    ThreadStepKeeps(c, s, s', t);
  }

  // ---------- Reserving ----------

  /** Fewer than 2^32 positions were reserved since thread t took its snapshot. */
  ghost predicate NotLapped<T>(s: Sys<T>, t: Tid) {
    s.OpOf(t).Reserve? ==> |s.mem.At(s.OpOf(t).req.Kind()).owner| < s.SnapOf(t) + U32
  }

  ghost predicate MayReserve<T>(c: Config, s: Sys<T>, t: Tid, req: Req<T>, head: nat) {
    Inv(c, s) && s.OpOf(t) == Reserve(req, head) && s.SnapOf(t) == |s.mem.At(req.Kind()).owner|
  }

  lemma ReservedMem<T>(c: Config, s: Sys<T>, t: Tid, req: Req<T>, head: nat)
    requires MayReserve(c, s, t, req, head)
    ensures MemOk(c, Reserved(s.mem, t, req, head))
    ensures OpOk(c, Reserved(s.mem, t, req, head), t, Copy(req, head, []), s.SnapOf(t))
  {
    hide Pow2, Inv;
    ReserveFacts(c, s, t, req, head);
    WrapAdd(s.SnapOf(t), req.N());
    ReservedIn(c, s.mem, t, req, s.SnapOf(t));
  }

  lemma ReserveFacts<T>(c: Config, s: Sys<T>, t: Tid, req: Req<T>, head: nat)
    requires MayReserve(c, s, t, req, head)
    ensures MemOk(c, s.mem) && 0 < req.N() < U32 && head == s.SnapOf(t) % U32
    ensures s.SnapOf(t) == |s.mem.At(req.Kind()).owner| && s.SnapOf(t) + req.N() <= Limit(c, s.mem, req.Kind())
  {
    OpAt(c, s, t);
    hide Inv, Pow2, Stored;
  }

  lemma ReservedIn<T>(c: Config, m: Mem<T>, t: Tid, req: Req<T>, lo: nat)
    requires MemOk(c, m) && 0 < req.N() < U32 && lo == |m.At(req.Kind()).owner| && lo + req.N() <= Limit(c, m, req.Kind())
    requires (lo % U32 + req.N()) % U32 == (lo + req.N()) % U32
    ensures MemOk(c, Reserved(m, t, req, lo % U32))
    ensures OpOk(c, Reserved(m, t, req, lo % U32), t, Copy(req, lo % U32, []), lo)
  {
    hide Pow2;
  }

  lemma ReservedOp<T>(c: Config, m: Mem<T>, m': Mem<T>, u: Tid, op: Op<T>, lo: nat)
    requires MemOk(c, m) && MemOk(c, m') && OpOk(c, m, u, op, lo)
    requires m'.slots == m.slots && m'.prod.log == m.prod.log && m'.cons.log == m.cons.log
    requires m.prod.owner <= m'.prod.owner && m.cons.owner <= m'.cons.owner
    ensures OpOk(c, m', u, op, lo)
  {
    hide CopiedOk, Pow2, Stored, Wrapped;
    if op.Copy? || op.Publish? {
      ReservedSegment(c, m, m', u, op.req, lo, op.copied);
    }
  }

  lemma ReservedSegment<T>(c: Config, m: Mem<T>, m': Mem<T>, u: Tid, req: Req<T>, lo: nat, copied: seq<T>)
    requires MemOk(c, m) && MemOk(c, m') && SegmentOk(c, m, u, req, lo, copied)
    requires m'.slots == m.slots && m'.prod.log == m.prod.log && m'.cons.log == m.cons.log
    requires m.prod.owner <= m'.prod.owner && m.cons.owner <= m'.cons.owner
    ensures SegmentOk(c, m', u, req, lo, copied)
  {
    hide MemOk;
  }

  lemma ReservedTiled<T>(c: Config, s: Sys<T>, s': Sys<T>, t: Tid, req: Req<T>, head: nat, k: Kind)
    requires MayReserve(c, s, t, req, head)
    requires s' == s.(mem := Reserved(s.mem, t, req, head)).Goto(t, Copy(req, head, []))
    ensures Tiled(s', k)
  {
    if k != req.Kind() {
      TiledFrame(s, s', k);
    } else {
      forall p | |s'.mem.At(k).log| <= p < |s'.mem.At(k).owner| ensures Covers(s', s'.mem.At(k).owner[p], k, p) {
        if p < |s.mem.At(k).owner| {
          assert Covers(s, s.mem.At(k).owner[p], k, p);
        }
      }
    }
  }

  /** Moving the head is safe when the snapshot is the current head. */
  lemma ReserveKeeps<T>(c: Config, s: Sys<T>, s': Sys<T>, t: Tid, req: Req<T>, head: nat)
    requires MayReserve(c, s, t, req, head)
    requires s' == s.(mem := Reserved(s.mem, t, req, head)).Goto(t, Copy(req, head, []))
    ensures Inv(c, s')
  {
    ReservedMem(c, s, t, req, head);
    ReservedTiled(c, s, s', t, req, head, Prod);
    ReservedTiled(c, s, s', t, req, head, Cons);
    forall u ensures OpOk(c, s'.mem, u, s'.OpOf(u), s'.SnapOf(u)) {
      if u != t {
        OpAt(c, s, u);
        ReservedOp(c, s.mem, s'.mem, u, s.OpOf(u), s.SnapOf(u));
      }
    }
    if c.single {
      assert Busy(s, t, req.Kind());
      assert forall u, k | Busy(s', u, k) :: Busy(s, u, k);
    }
  }

  lemma MoveHeadKeeps<T>(c: Config, s: Sys<T>, t: Tid, req: Req<T>, head: nat, spurious: bool)
    requires Inv(c, s) && s.OpOf(t) == Reserve(req, head) && NotLapped(s, t)
    ensures Inv(c, DoMoveHead(c, s, t, req, head, spurious))
  {
    OpAt(c, s, t);
    if c.single || (s.mem.At(req.Kind()).head == head && !spurious) {
      if c.single {
        assert Busy(s, t, req.Kind());
      } else {
        SameWord(s.SnapOf(t), |s.mem.At(req.Kind()).owner|);
      }
      ReserveKeeps(c, s, DoMoveHead(c, s, t, req, head, spurious), t, req, head);
    } else {
      SnapshotKeeps(c, s, t, req);
    }
  }

  // ---------- Copying ----------

  /** Two threads never own the same position of one side. */
  lemma OwnersDisjoint<T>(c: Config, s: Sys<T>, t: Tid, u: Tid, k: Kind)
    requires Inv(c, s) && t != u && Holding(s, t, k) && Holding(s, u, k)
    ensures s.SnapOf(t) + s.OpOf(t).req.N() <= s.SnapOf(u) || s.SnapOf(u) + s.OpOf(u).req.N() <= s.SnapOf(t)
  {
    OpAt(c, s, t);
    OpAt(c, s, u);
    var owner := s.mem.At(k).owner;
    assert owner[s.SnapOf(u)] == u && owner[s.SnapOf(t)] == t;
  }

  /** The slot a producer writes holds no entry between the tails. */
  lemma WriteKeepsMem<T>(c: Config, m: Mem<T>, q: nat, v: T)
    requires MemOk(c, m) && |m.prod.log| <= q < |m.prod.owner|
    ensures MemOk(c, m.(slots := m.slots[q % c.Size() := v]))
  {
    forall p | |m.cons.log| <= p < |m.prod.log| ensures m.slots[q % c.Size() := v][p % c.Size()] == m.prod.log[p] {
      SlotsDiffer(p, q, c.Size());
    }
  }

  /** ... and no value already copied into a disjoint reservation. */
  lemma WriteKeepsOp<T>(c: Config, m: Mem<T>, u: Tid, op: Op<T>, lo: nat, q: nat, v: T)
    requires MemOk(c, m) && OpOk(c, m, u, op, lo) && |m.prod.log| <= q < |m.prod.owner|
    requires MemOk(c, m.(slots := m.slots[q % c.Size() := v]))
    requires (op.Copy? || op.Publish?) && op.req.Enqueue? ==> q < lo || lo + |op.copied| <= q
    ensures OpOk(c, m.(slots := m.slots[q % c.Size() := v]), u, op, lo)
  {
    hide Pow2, Stored, Wrapped, SegmentOk;
    if op.Copy? || op.Publish? {
      WriteKeepsSegment(c, m, u, op.req, lo, op.copied, q, v);
    }
  }

  lemma WriteKeepsSegment<T>(c: Config, m: Mem<T>, u: Tid, req: Req<T>, lo: nat, copied: seq<T>, q: nat, v: T)
    requires MemOk(c, m) && SegmentOk(c, m, u, req, lo, copied) && |m.prod.log| <= q < |m.prod.owner|
    requires MemOk(c, m.(slots := m.slots[q % c.Size() := v]))
    requires req.Enqueue? ==> q < lo || lo + |copied| <= q
    ensures SegmentOk(c, m.(slots := m.slots[q % c.Size() := v]), u, req, lo, copied)
  {
    hide Pow2, Stored, Wrapped;
    if req.Enqueue? {
      forall j | 0 <= j < |copied|
        ensures m.slots[q % c.Size() := v][(lo + j) % c.Size()] == copied[j]
      {
        OtherSlot(c, lo + j, q);
      }
    }
  }

  lemma OtherSlot(c: Config, p: nat, q: nat)
    requires p < q < p + c.Size() || q < p < q + c.Size()
    ensures p % c.Size() != q % c.Size()
  {
    if p < q {
      SlotsDiffer(p, q, c.Size());
    } else {
      SlotsDiffer(q, p, c.Size());
    }
  }

  lemma CopyInBounds<T>(c: Config, s: Sys<T>, t: Tid)
    requires Inv(c, s) && s.OpOf(t).Copy?
    ensures c.Slot((s.OpOf(t).head + |s.OpOf(t).copied|) % U32) < |s.mem.slots|
  {
    OpAt(c, s, t);
    SlotOf(c, s.SnapOf(t), |s.OpOf(t).copied|);
  }

  lemma CopyEnqueueKeeps<T>(c: Config, s: Sys<T>, t: Tid, objs: seq<T>, head: nat, copied: seq<T>)
    requires Inv(c, s) && s.OpOf(t) == Copy(Enqueue(objs), head, copied) && |copied| < |objs|
    requires c.Slot((head + |copied|) % U32) < |s.mem.slots|
    ensures Inv(c, DoCopySlot(c, s, t, Enqueue(objs), head, copied))
  {
    hide Inv, OpOk, Config.Slot, Stored, Pow2;
    WritePlace(c, s, t, objs, head, copied);
    var q, v := s.SnapOf(t) + |copied|, objs[|copied|];
    WriteKeepsMem(c, s.mem, q, v);
    var w := s.(mem := s.mem.(slots := s.mem.slots[q % c.Size() := v]));
    forall u ensures OpOk(c, w.mem, u, w.OpOf(u), w.SnapOf(u)) {
      WriteKeepsThread(c, s, t, u, v);
    }
    WriteKeepsInv(c, s, w);
    CopiedOneMore(c, w, t, objs, head, copied);
  }

  /** Where the next value goes: a position the thread has reserved, in its slot. */
  lemma WritePlace<T>(c: Config, s: Sys<T>, t: Tid, objs: seq<T>, head: nat, copied: seq<T>)
    requires Inv(c, s) && s.OpOf(t) == Copy(Enqueue(objs), head, copied) && |copied| < |objs|
    ensures MemOk(c, s.mem) && |s.mem.prod.log| <= s.SnapOf(t) + |copied| < |s.mem.prod.owner|
    ensures c.Slot((head + |copied|) % U32) == (s.SnapOf(t) + |copied|) % c.Size()
  {
    OpAt(c, s, t);
    SlotOf(c, s.SnapOf(t), |copied|);
  }

  lemma WriteKeepsThread<T>(c: Config, s: Sys<T>, t: Tid, u: Tid, v: T)
    requires Inv(c, s) && s.OpOf(t).Copy? && s.OpOf(t).req.Enqueue? && |s.OpOf(t).copied| < s.OpOf(t).req.N()
    requires var q := s.SnapOf(t) + |s.OpOf(t).copied|; MemOk(c, s.mem.(slots := s.mem.slots[q % c.Size() := v]))
    ensures var q := s.SnapOf(t) + |s.OpOf(t).copied|;
            OpOk(c, s.mem.(slots := s.mem.slots[q % c.Size() := v]), u, s.OpOf(u), s.SnapOf(u))
  {
    OpAt(c, s, t);
    OpAt(c, s, u);
    if u != t && Holding(s, u, Prod) {
      OwnersDisjoint(c, s, t, u, Prod);
    }
    WriteKeepsOp(c, s.mem, u, s.OpOf(u), s.SnapOf(u), s.SnapOf(t) + |s.OpOf(t).copied|, v);
  }

  lemma WriteKeepsInv<T>(c: Config, s: Sys<T>, w: Sys<T>)
    requires Inv(c, s) && w == s.(mem := s.mem.(slots := w.mem.slots)) && MemOk(c, w.mem)
    requires forall u :: OpOk(c, w.mem, u, w.OpOf(u), w.SnapOf(u))
    ensures Inv(c, w)
  {
    TiledFrame(s, w, Prod);
    TiledFrame(s, w, Cons);
    assert forall u, k | Busy(w, u, k) :: Busy(s, u, k);
  }

  lemma CopiedOneMore<T>(c: Config, w: Sys<T>, t: Tid, objs: seq<T>, head: nat, copied: seq<T>)
    requires Inv(c, w) && w.OpOf(t) == Copy(Enqueue(objs), head, copied) && |copied| < |objs|
    requires w.mem.slots[(w.SnapOf(t) + |copied|) % c.Size()] == objs[|copied|]
    ensures Inv(c, w.Goto(t, Copy(Enqueue(objs), head, copied + [objs[|copied|]])))
  {
    OpAt(c, w, t);
    var w' := w.Goto(t, Copy(Enqueue(objs), head, copied + [objs[|copied|]]));
    if c.single {
      SameKindKeepsOne(w, w', t);
    }
    ThreadStepKeeps(c, w, w', t);
  }

  lemma CopyDequeueKeeps<T>(c: Config, s: Sys<T>, t: Tid, n: nat, head: nat, copied: seq<T>)
    requires Inv(c, s) && s.OpOf(t) == Copy(Dequeue(n), head, copied) && |copied| < n
    requires c.Slot((head + |copied|) % U32) < |s.mem.slots|
    ensures Inv(c, DoCopySlot(c, s, t, Dequeue(n), head, copied))
  {
    hide Inv, Config.Slot;
    PendingSlot(c, s, t);
    ReadOneMore(c, s, t, n, head, copied, s.mem.prod.log[s.SnapOf(t) + |copied|]);
  }

  /** The slot a consumer reads next still holds the entry published at that position. */
  lemma PendingSlot<T>(c: Config, s: Sys<T>, t: Tid)
    requires Inv(c, s) && s.OpOf(t).Copy? && s.OpOf(t).req.Dequeue? && |s.OpOf(t).copied| < s.OpOf(t).req.N()
    ensures var q, i := s.SnapOf(t) + |s.OpOf(t).copied|, c.Slot((s.OpOf(t).head + |s.OpOf(t).copied|) % U32);
            q < |s.mem.prod.log| && i < |s.mem.slots| && s.mem.slots[i] == s.mem.prod.log[q]
  {
    OpAt(c, s, t);
    PendingIn(c, s.mem, t, s.OpOf(t).req, s.SnapOf(t), s.OpOf(t).copied);
  }

  lemma PendingIn<T>(c: Config, m: Mem<T>, t: Tid, req: Req<T>, lo: nat, copied: seq<T>)
    requires MemOk(c, m) && SegmentOk(c, m, t, req, lo, copied) && req.Dequeue? && |copied| < req.N()
    ensures var q, i := lo + |copied|, c.Slot((lo % U32 + |copied|) % U32);
            q < |m.prod.log| && i < |m.slots| && m.slots[i] == m.prod.log[q]
  {
    hide Config.Slot, CopiedOk, Pow2;
    SlotOf(c, lo, |copied|);
    assert m.slots[(lo + |copied|) % c.Size()] == m.prod.log[lo + |copied|];
  }

  lemma ReadOneMore<T>(c: Config, s: Sys<T>, t: Tid, n: nat, head: nat, copied: seq<T>, v: T)
    requires Inv(c, s) && s.OpOf(t) == Copy(Dequeue(n), head, copied) && |copied| < n
    requires s.SnapOf(t) + |copied| < |s.mem.prod.log| && v == s.mem.prod.log[s.SnapOf(t) + |copied|]
    ensures Inv(c, s.Goto(t, Copy(Dequeue(n), head, copied + [v])))
  {
    OpAt(c, s, t);
    var s' := s.Goto(t, Copy(Dequeue(n), head, copied + [v]));
    if c.single {
      SameKindKeepsOne(s, s', t);
    }
    ThreadStepKeeps(c, s, s', t);
  }

  // ---------- Publishing ----------

  /** Exactly one thread holds the segment that starts at the tail. */
  lemma TailHolder<T>(c: Config, s: Sys<T>, k: Kind)
    requires Inv(c, s) && |s.mem.At(k).log| < |s.mem.At(k).owner|
    ensures var t := s.mem.At(k).owner[|s.mem.At(k).log|];
            && Holding(s, t, k) && s.SnapOf(t) == |s.mem.At(k).log|
            && forall u | Holding(s, u, k) && s.SnapOf(u) == |s.mem.At(k).log| :: u == t
  {
    var t := s.mem.At(k).owner[|s.mem.At(k).log|];
    assert Covers(s, t, k, |s.mem.At(k).log|);
    forall u | Holding(s, u, k) ensures |s.mem.At(k).log| <= s.SnapOf(u) && s.mem.At(k).owner[s.SnapOf(u)] == u {
      OpAt(c, s, u);
    }
  }

  lemma OwnTurn<T>(c: Config, s: Sys<T>, t: Tid, k: Kind)
    requires Inv(c, s) && Holding(s, t, k) && (c.single || s.mem.At(k).tail == s.OpOf(t).head)
    ensures s.SnapOf(t) == |s.mem.At(k).log|
  {
    OpAt(c, s, t);
    if c.single {
      TailHolder(c, s, k);
      assert Busy(s, t, k) && Busy(s, s.mem.At(k).owner[|s.mem.At(k).log|], k);
    } else {
      SizeBound(c);
      SameWord(|s.mem.At(k).log|, s.SnapOf(t));
    }
  }

  lemma AwaitKeeps<T>(c: Config, s: Sys<T>, t: Tid, req: Req<T>, head: nat, copied: seq<T>)
    requires Inv(c, s) && s.OpOf(t) == Copy(req, head, copied) && |copied| == req.N()
    ensures Inv(c, DoAwaitTurn(c, s, t, req, head, copied))
  {
    OpAt(c, s, t);
    if c.single || s.mem.At(req.Kind()).tail == head {
      OwnTurn(c, s, t, req.Kind());
      var s' := DoAwaitTurn(c, s, t, req, head, copied);
      if c.single {
        SameKindKeepsOne(s, s', t);
      }
      ThreadStepKeeps(c, s, s', t);
    }
  }

  ghost predicate MayPublish<T>(c: Config, s: Sys<T>, t: Tid, req: Req<T>, head: nat, copied: seq<T>) {
    Inv(c, s) && s.OpOf(t) == Publish(req, head, copied)
  }

  lemma PublishedMem<T>(c: Config, s: Sys<T>, t: Tid, req: Req<T>, head: nat, copied: seq<T>)
    requires MayPublish(c, s, t, req, head, copied)
    ensures MemOk(c, Published(s.mem, req, head, copied))
  {
    OpAt(c, s, t);
    PublishedIn(c, s.mem, t, req, s.SnapOf(t), copied);
  }

  lemma PublishedIn<T>(c: Config, m: Mem<T>, t: Tid, req: Req<T>, lo: nat, copied: seq<T>)
    requires MemOk(c, m) && SegmentOk(c, m, t, req, lo, copied) && |copied| == req.N() && lo == |m.At(req.Kind()).log|
    ensures MemOk(c, Published(m, req, lo % U32, copied))
  {
    hide Pow2, Stored, SegmentOk, CopiedOk;
    WrapAdd(lo, req.N());
    PublishedOrder(c, m, t, req, lo, copied);
    PublishedStored(c, m, t, req, lo, copied);
  }

  lemma PublishedOrder<T>(c: Config, m: Mem<T>, t: Tid, req: Req<T>, lo: nat, copied: seq<T>)
    requires MemOk(c, m) && SegmentOk(c, m, t, req, lo, copied) && |copied| == req.N() && lo == |m.At(req.Kind()).log|
    ensures var m' := Published(m, req, lo % U32, copied); Ordered(c, m') && Fifo(m')
  {
    hide Pow2, Stored, Wrapped;
  }

  lemma PublishedStored<T>(c: Config, m: Mem<T>, t: Tid, req: Req<T>, lo: nat, copied: seq<T>)
    requires MemOk(c, m) && SegmentOk(c, m, t, req, lo, copied) && |copied| == req.N() && lo == |m.At(req.Kind()).log|
    requires Ordered(c, Published(m, req, lo % U32, copied))
    ensures Stored(c, Published(m, req, lo % U32, copied))
  {
    hide Pow2, Wrapped, Fifo, Ordered;
    var m' := Published(m, req, lo % U32, copied);
    forall p | |m'.cons.log| <= p < |m'.prod.log| ensures m'.slots[p % c.Size()] == m'.prod.log[p] {
      if req.Enqueue? && lo <= p {
        var j := p - lo;
        assert m.slots[(lo + j) % c.Size()] == copied[j];
      }
    }
  }

  lemma PublishedOp<T>(c: Config, m: Mem<T>, m': Mem<T>, u: Tid, op: Op<T>, lo: nat)
    requires MemOk(c, m) && MemOk(c, m') && OpOk(c, m, u, op, lo)
    requires m'.slots == m.slots && m'.prod.owner == m.prod.owner && m'.cons.owner == m.cons.owner
    requires m.prod.log <= m'.prod.log && m.cons.log <= m'.cons.log
    requires op.Copy? ==> |m'.At(op.req.Kind()).log| <= lo
    requires op.Publish? ==> m'.At(op.req.Kind()).log == m.At(op.req.Kind()).log
    ensures OpOk(c, m', u, op, lo)
  {
    hide Stored, Wrapped, Pow2;
    if op.Copy? || op.Publish? {
      assert SegmentOk(c, m, u, op.req, lo, op.copied);
      if op.req.Dequeue? {
        assert m.prod.log[lo..lo + |op.copied|] == m'.prod.log[lo..lo + |op.copied|];
      }
    }
  }

  lemma PublishedTiled<T>(c: Config, s: Sys<T>, s': Sys<T>, t: Tid, req: Req<T>, head: nat, copied: seq<T>, k: Kind)
    requires MayPublish(c, s, t, req, head, copied) && s' == DoStoreTail(s, t, req, head, copied)
    ensures Tiled(s', k)
  {
    OpAt(c, s, t);
    if k != req.Kind() {
      TiledFrame(s, s', k);
    } else {
      forall p | |s'.mem.At(k).log| <= p < |s'.mem.At(k).owner| ensures Covers(s', s'.mem.At(k).owner[p], k, p) {
        assert Covers(s, s.mem.At(k).owner[p], k, p);
      }
    }
  }

  lemma StoreTailKeeps<T>(c: Config, s: Sys<T>, t: Tid, req: Req<T>, head: nat, copied: seq<T>)
    requires MayPublish(c, s, t, req, head, copied)
    ensures Inv(c, DoStoreTail(s, t, req, head, copied))
  {
    OpAt(c, s, t);
    PublishedMem(c, s, t, req, head, copied);
    var s' := DoStoreTail(s, t, req, head, copied);
    forall u ensures OpOk(c, s'.mem, u, s'.OpOf(u), s'.SnapOf(u)) {
      if u != t {
        PublishedOther(c, s, t, u, req, head, copied);
      }
    }
    PublishedTiled(c, s, s', t, req, head, copied, Prod);
    PublishedTiled(c, s, s', t, req, head, copied, Cons);
    assert forall u, k | Busy(s', u, k) :: Busy(s, u, k);
  }

  lemma PublishedOther<T>(c: Config, s: Sys<T>, t: Tid, u: Tid, req: Req<T>, head: nat, copied: seq<T>)
    requires MayPublish(c, s, t, req, head, copied) && u != t && MemOk(c, Published(s.mem, req, head, copied))
    ensures OpOk(c, Published(s.mem, req, head, copied), u, s.OpOf(u), s.SnapOf(u))
  {
    OpAt(c, s, t);
    OpAt(c, s, u);
    if Holding(s, u, req.Kind()) {
      OwnersDisjoint(c, s, t, u, req.Kind());
    }
    PublishedOp(c, s.mem, Published(s.mem, req, head, copied), u, s.OpOf(u), s.SnapOf(u));
  }
}
