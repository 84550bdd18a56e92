/** The object pool under concurrency: any number of threads get and put blocks through the
    free-list ring. `place` records where each block is and `held` which thread was handed
    which block; both are history, no step reads them except the rule that a thread puts
    back only what it holds. */
module PoolSystem {
  import opened Words
  import opened RingSystem
  import opened RingProof
  import opened RingTheorems
  import ObjectPool

  type Block = nat

  datatype Place = InRing(p: nat) | InPut(t: Tid) | HeldBy(t: Tid) | Dropped

  datatype Pool = Pool(ring: Sys<Block>, place: map<Block, Place>, held: multiset<(Tid, Block)>)

  /** Get and put are one-object calls; put demands a held object. */
  ghost predicate PoolEnabled(c: Config, s: Pool, t: Tid, a: Action<Block>) {
    && Enabled(c, s.ring, t, a)
    && (a.Call? ==>
          match a.req
          case Dequeue(n) => n == 1
          case Enqueue(objs) => |objs| == 1 && (t, objs[0]) in s.held)
  }

  ghost function PoolNext(c: Config, s: Pool, t: Tid, a: Action<Block>): Pool
    requires PoolEnabled(c, s, t, a) && InBounds(c, s.ring, t, a)
  {
    var ring := Next(c, s.ring, t, a);
    var op := s.ring.OpOf(t);
    if a.Call? && a.req.Enqueue? then
      var b := a.req.objs[0];
      Pool(ring, s.place[b := InPut(t)], s.held - multiset{(t, b)})
    else if a.LoadTail? && op.req.Enqueue? && |op.req.objs| == 1 && ring.OpOf(t).Idle? then
      // put found the free list full: the object is lost
      Pool(ring, s.place[op.req.objs[0] := Dropped], s.held)
    else if a.StoreTail? && |op.copied| == 1 then
      var b := op.copied[0];
      if op.req.Enqueue? then Pool(ring, s.place[b := InRing(|s.ring.mem.prod.log|)], s.held)
      else Pool(ring, s.place[b := HeldBy(t)], s.held + multiset{(t, b)})
    else Pool(ring, s.place, s.held)
  }

  /** The creating thread starts out holding every block and puts them all. */
  ghost predicate PoolInit(c: Config, blocks: set<Block>, s: Pool) {
    && Init(c, s.ring)
    && s.place == (map b | b in blocks :: HeldBy(0))
    && (forall t, b :: s.held[(t, b)] == if t == 0 && b in blocks then 1 else 0)
  }

  // ---------- The invariant ----------

  /** Thread t is putting block b back. */
  ghost predicate Putting(s: Pool, t: Tid, b: Block) {
    !s.ring.OpOf(t).Idle? && s.ring.OpOf(t).req == Enqueue([b])
  }

  ghost predicate Placed(s: Pool, b: Block)
    requires b in s.place
  {
    match s.place[b]
    case InRing(p) => |s.ring.mem.cons.log| <= p < |s.ring.mem.prod.log| && s.ring.mem.prod.log[p] == b
    case InPut(t) => Putting(s, t, b)
    case HeldBy(t) => true
    case Dropped => false
  }

  ghost predicate CallsOk(s: Pool, t: Tid) {
    s.ring.OpOf(t).Idle? ||
    match s.ring.OpOf(t).req
    case Dequeue(n) => n == 1
    case Enqueue(objs) => |objs| == 1 && objs[0] in s.place && s.place[objs[0]] == InPut(t)
  }

  /** The parts of the invariant that speak about blocks. */
  ghost predicate BlocksOk(s: Pool) {
    && (forall b | b in s.place :: Placed(s, b))
    && (forall p | |s.ring.mem.cons.log| <= p < |s.ring.mem.prod.log| ::
          s.ring.mem.prod.log[p] in s.place && s.place[s.ring.mem.prod.log[p]] == InRing(p))
    && (forall t :: CallsOk(s, t))
    && (forall t, b :: s.held[(t, b)] == if b in s.place && s.place[b] == HeldBy(t) then 1 else 0)
  }

  ghost predicate PoolInv(c: Config, blocks: set<Block>, s: Pool) {
    Inv(c, s.ring) && !c.single && |blocks| <= c.Mask() && s.place.Keys == blocks && BlocksOk(s)
  }

  /** The 32-bit cursors did not run so far ahead of thread t's snapshot that they could be
      confused with it. */
  ghost predicate Timely(c: Config, s: Pool, t: Tid) {
    var op := s.ring.OpOf(t);
    op.Check? || op.Reserve? ==>
      |s.ring.mem.At(op.req.Kind()).owner| <= s.ring.SnapOf(t) + U32 - c.Size()
  }

  // ---------- put never fails ----------

  lemma {:induction false} DistinctFit(q: seq<Block>, blocks: set<Block>)
    requires forall i | 0 <= i < |q| :: q[i] in blocks
    requires forall i, j | 0 <= i < j < |q| :: q[i] != q[j]
    ensures |q| <= |blocks|
  {
    if |q| > 0 {
      var rest := blocks - {q[0]};
      DistinctFit(q[1..], rest);
    }
  }

  /** The block at an unconsumed position: published, or in the hands of the thread that reserved it. */
  ghost predicate BlockAt(s: Pool, p: nat, b: Block)
    requires p < |s.ring.mem.prod.owner|
  {
    && b in s.place
    && if p < |s.ring.mem.prod.log| then s.place[b] == InRing(p)
       else
         var t := s.ring.mem.prod.owner[p];
         s.place[b] == InPut(t) && s.ring.SnapOf(t) == p && (s.ring.OpOf(t).Copy? || s.ring.OpOf(t).Publish?)
  }

  lemma BlockOf(c: Config, blocks: set<Block>, s: Pool, p: nat) returns (b: Block)
    requires PoolInv(c, blocks, s) && |s.ring.mem.cons.log| <= p < |s.ring.mem.prod.owner|
    ensures b in blocks && BlockAt(s, p, b)
  {
    if p < |s.ring.mem.prod.log| {
      b := s.ring.mem.prod.log[p];
    } else {
      CoveredAt(c, s.ring, Prod, p);
      var t := s.ring.mem.prod.owner[p];
      assert CallsOk(s, t);
      b := s.ring.OpOf(t).req.objs[0];
    }
  }

  /** The blocks at positions [p, head) of the producer side, all different. */
  lemma {:induction false} BlocksFrom(c: Config, blocks: set<Block>, s: Pool, p: nat) returns (q: seq<Block>)
    requires PoolInv(c, blocks, s) && |s.ring.mem.cons.log| <= p <= |s.ring.mem.prod.owner|
    ensures |q| == |s.ring.mem.prod.owner| - p
    ensures forall i | 0 <= i < |q| :: q[i] in blocks && BlockAt(s, p + i, q[i])
    decreases |s.ring.mem.prod.owner| - p
  {
    hide PoolInv;
    if p == |s.ring.mem.prod.owner| {
      q := [];
    } else {
      var b := BlockOf(c, blocks, s, p);
      var rest := BlocksFrom(c, blocks, s, p + 1);
      q := [b] + rest;
      forall i | 0 <= i < |q| ensures q[i] in blocks && BlockAt(s, p + i, q[i]) {
        if i > 0 {
          assert q[i] == rest[i - 1] && BlockAt(s, p + 1 + (i - 1), rest[i - 1]);
        }
      }
    }
  }

  /** While a put is looking for room, every other block fits: the ring has a free slot. */
  lemma ListHasRoom(c: Config, blocks: set<Block>, s: Pool, t: Tid)
    requires PoolInv(c, blocks, s) && s.ring.OpOf(t).Check? && s.ring.OpOf(t).req.Enqueue?
    ensures |s.ring.mem.prod.owner| < |s.ring.mem.cons.log| + c.Mask()
  {
    var ct := |s.ring.mem.cons.log|;
    assert CallsOk(s, t);
    var own := s.ring.OpOf(t).req.objs[0];
    var q := BlocksFrom(c, blocks, s, ct);
    DistinctBlocks(c, blocks, s, t, own, q);
    DistinctFit(q + [own], blocks);
  }

  lemma DistinctBlocks(c: Config, blocks: set<Block>, s: Pool, t: Tid, own: Block, q: seq<Block>)
    requires PoolInv(c, blocks, s) && s.ring.OpOf(t).Check?
    requires own in s.place && s.place[own] == InPut(t)
    requires |q| == |s.ring.mem.prod.owner| - |s.ring.mem.cons.log|
    requires forall i | 0 <= i < |q| :: q[i] in blocks && BlockAt(s, |s.ring.mem.cons.log| + i, q[i])
    ensures forall i, j | 0 <= i < j < |q| + 1 :: (q + [own])[i] != (q + [own])[j]
  {
    hide Inv, Placed, CallsOk;
    forall i, j | 0 <= i < j < |q| + 1 ensures (q + [own])[i] != (q + [own])[j] {
      assert BlockAt(s, |s.ring.mem.cons.log| + i, q[i]);
      if j < |q| {
        assert BlockAt(s, |s.ring.mem.cons.log| + j, q[j]);
      }
    }
  }

  /** The room check of a put always succeeds. */
  lemma PutFindsRoom(c: Config, blocks: set<Block>, s: Pool, t: Tid)
    requires PoolInv(c, blocks, s) && Timely(c, s, t)
    requires s.ring.OpOf(t).Check? && s.ring.OpOf(t).req.Enqueue?
    ensures !DoLoadTail(c, s.ring, t, s.ring.OpOf(t).req, s.ring.OpOf(t).head).OpOf(t).Idle?
  {
    hide PoolInv, Inv, Pow2;
    PutCall(c, blocks, s, t);
    SizeBound(c);
    ListHasRoom(c, blocks, s, t);
    RoomUnwrapped(c, s.ring, t);
    OneFits(Limit(c, s.ring.mem, Prod), |s.ring.mem.prod.owner|, s.ring.SnapOf(t), c.Size());
  }

  lemma PutCall(c: Config, blocks: set<Block>, s: Pool, t: Tid)
    requires PoolInv(c, blocks, s) && !s.ring.OpOf(t).Idle? && s.ring.OpOf(t).req.Enqueue?
    ensures Inv(c, s.ring) && c.Valid() && |s.ring.OpOf(t).req.objs| == 1
  {
    assert CallsOk(s, t);
  }

  lemma OneFits(limit: nat, owner: nat, snap: nat, size: nat)
    requires snap <= owner < limit < owner + size && owner <= snap + U32 - size
    ensures 1 <= (limit - snap) % U32
  {
  }

  // ---------- Every step keeps the invariant ----------

  /** A step that moves no block: the logs stay and every put in progress stays in progress. */
  lemma QuietKeeps(s: Pool, s': Pool, t: Tid)
    requires BlocksOk(s) && s'.place == s.place && s'.held == s.held
    requires s'.ring.mem.prod.log == s.ring.mem.prod.log && s'.ring.mem.cons.log == s.ring.mem.cons.log
    requires forall u | u != t :: s'.ring.OpOf(u) == s.ring.OpOf(u)
    requires CallsOk(s', t) && forall b | Putting(s, t, b) :: Putting(s', t, b)
    ensures BlocksOk(s')
  {
    forall b | b in s'.place ensures Placed(s', b) {
      assert Placed(s, b);
    }
    forall u ensures CallsOk(s', u) {
      assert CallsOk(s, u);
    }
  }

  lemma GiveKeeps(s: Pool, s': Pool, t: Tid, b: Block)
    requires BlocksOk(s) && s.ring.OpOf(t).Idle? && (t, b) in s.held
    requires s'.ring == DoCall(s.ring, t, Enqueue([b]))
    requires s'.place == s.place[b := InPut(t)] && s'.held == s.held - multiset{(t, b)}
    ensures BlocksOk(s') && b in s.place
  {
    assert s.held[(t, b)] == 1 && s.place[b] == HeldBy(t);
    forall x | x in s'.place ensures Placed(s', x) {
      if x != b {
        assert Placed(s, x);
      }
    }
    forall u ensures CallsOk(s', u) {
      assert CallsOk(s, u);
    }
  }

  lemma LandKeeps(s: Pool, s': Pool, t: Tid, b: Block, head: nat)
    requires BlocksOk(s) && s.ring.OpOf(t) == Publish(Enqueue([b]), head, [b])
    requires |s.ring.mem.cons.log| <= |s.ring.mem.prod.log|
    requires s'.ring == DoStoreTail(s.ring, t, Enqueue([b]), head, [b])
    requires s'.place == s.place[b := InRing(|s.ring.mem.prod.log|)] && s'.held == s.held
    ensures BlocksOk(s') && b in s.place
  {
    assert CallsOk(s, t);
    forall x | x in s'.place ensures Placed(s', x) {
      if x != b {
        assert Placed(s, x);
      }
    }
    forall u ensures CallsOk(s', u) {
      assert CallsOk(s, u);
    }
  }

  lemma TakeKeeps(s: Pool, s': Pool, t: Tid, b: Block, head: nat)
    requires BlocksOk(s) && s.ring.OpOf(t) == Publish(Dequeue(1), head, [b])
    requires |s.ring.mem.cons.log| < |s.ring.mem.prod.log| && s.ring.mem.prod.log[|s.ring.mem.cons.log|] == b
    requires s'.ring == DoStoreTail(s.ring, t, Dequeue(1), head, [b])
    requires s'.place == s.place[b := HeldBy(t)] && s'.held == s.held + multiset{(t, b)}
    ensures BlocksOk(s') && b in s.place
  {
    assert s.place[b] == InRing(|s.ring.mem.cons.log|);
    forall x | x in s'.place ensures Placed(s', x) {
      if x != b {
        assert Placed(s, x);
      }
    }
    forall u ensures CallsOk(s', u) {
      assert CallsOk(s, u);
    }
  }

  lemma PoolStepKeeps(c: Config, blocks: set<Block>, s: Pool, t: Tid, a: Action<Block>)
    requires PoolInv(c, blocks, s) && PoolEnabled(c, s, t, a) && Timely(c, s, t)
    ensures InBounds(c, s.ring, t, a) && PoolInv(c, blocks, PoolNext(c, s, t, a))
  {
    hide Inv, Timely, BlocksOk, Enabled, InBounds, Next, NotLapped;
    RingStep(c, s, t, a);
    BlocksKept(c, blocks, s, t, a);
  }

  /** Each step of the pool is a step of its ring. */
  lemma RingStep(c: Config, s: Pool, t: Tid, a: Action<Block>)
    requires Inv(c, s.ring) && PoolEnabled(c, s, t, a) && Timely(c, s, t)
    ensures InBounds(c, s.ring, t, a) && Inv(c, PoolNext(c, s, t, a).ring)
  {
    assert c.Valid();
    hide Inv;
    SizeBound(c);
    if a.CopySlot? {
      CopyInBounds(c, s.ring, t);
    }
    StepKeeps(c, s.ring, t, a, Next(c, s.ring, t, a));
    hide Next;
  }

  lemma BlocksKept(c: Config, blocks: set<Block>, s: Pool, t: Tid, a: Action<Block>)
    requires PoolInv(c, blocks, s) && PoolEnabled(c, s, t, a) && Timely(c, s, t) && InBounds(c, s.ring, t, a)
    ensures BlocksOk(PoolNext(c, s, t, a)) && PoolNext(c, s, t, a).place.Keys == s.place.Keys
  {
    if a.Call? && a.req.Enqueue? {
      assert a.req == Enqueue([a.req.objs[0]]);
      GiveKeeps(s, PoolNext(c, s, t, a), t, a.req.objs[0]);
    } else if a.StoreTail? {
      StoreKept(c, blocks, s, t);
    } else {
      QuietKept(c, blocks, s, t, a);
    }
  }

  lemma StoreKept(c: Config, blocks: set<Block>, s: Pool, t: Tid)
    requires PoolInv(c, blocks, s) && s.ring.OpOf(t).Publish?
    ensures BlocksOk(PoolNext(c, s, t, StoreTail)) && PoolNext(c, s, t, StoreTail).place.Keys == s.place.Keys
  {
    var op := s.ring.OpOf(t);
    var s' := PoolNext(c, s, t, StoreTail);
    assert CallsOk(s, t);
    OpAt(c, s.ring, t);
    if op.req.Enqueue? {
      assert op.req.objs == [op.req.objs[0]] == op.copied;
      LandKeeps(s, s', t, op.copied[0], op.head);
    } else {
      assert op.copied == [op.copied[0]];
      TakeKeeps(s, s', t, op.copied[0], op.head);
    }
  }

  lemma QuietKept(c: Config, blocks: set<Block>, s: Pool, t: Tid, a: Action<Block>)
    requires PoolInv(c, blocks, s) && PoolEnabled(c, s, t, a) && Timely(c, s, t) && InBounds(c, s.ring, t, a)
    requires !a.StoreTail? && !(a.Call? && a.req.Enqueue?)
    ensures BlocksOk(PoolNext(c, s, t, a)) && PoolNext(c, s, t, a).place.Keys == s.place.Keys
  {
    if a.LoadTail? && s.ring.OpOf(t).req.Enqueue? {
      PutFindsRoom(c, blocks, s, t);
    }
    hide Inv;
    assert CallsOk(s, t);
    QuietKeeps(s, PoolNext(c, s, t, a), t);
  }

  // ---------- Theorems ----------

  /** A run of the pool from creation, in which no thread falls 2^32 - size behind. */
  ghost predicate IsPoolRun(c: Config, blocks: set<Block>, run: seq<Pool>, sched: seq<(Tid, Action<Block>)>) {
    && c.Valid() && !c.single && |blocks| <= c.Mask()
    && |run| == |sched| + 1 && PoolInit(c, blocks, run[0])
    && forall i | 0 <= i < |sched| ::
         && PoolEnabled(c, run[i], sched[i].0, sched[i].1) && Timely(c, run[i], sched[i].0)
         && (InBounds(c, run[i].ring, sched[i].0, sched[i].1) ==> run[i + 1] == PoolNext(c, run[i], sched[i].0, sched[i].1))
  }

  lemma {:induction false} PoolRunKeepsInv(c: Config, blocks: set<Block>, run: seq<Pool>, sched: seq<(Tid, Action<Block>)>, i: nat)
    requires IsPoolRun(c, blocks, run, sched) && i < |run|
    ensures PoolInv(c, blocks, run[i])
  {
    if i == 0 {
      InitInv(c, run[0].ring);
    } else {
      PoolRunKeepsInv(c, blocks, run, sched, i - 1);
      PoolStepKeeps(c, blocks, run[i - 1], sched[i - 1].0, sched[i - 1].1);
    }
  }

  /** How many copies of block b wait in the free list, counted from position p. */
  ghost function Waiting(s: Pool, b: Block, p: nat): nat
    requires p <= |s.ring.mem.prod.log|
    decreases |s.ring.mem.prod.log| - p
  {
    if p == |s.ring.mem.prod.log| then 0
    else (if s.ring.mem.prod.log[p] == b then 1 else 0) + Waiting(s, b, p + 1)
  }

  lemma {:induction false} WaitingCount(s: Pool, b: Block, p: nat)
    requires BlocksOk(s) && |s.ring.mem.cons.log| <= p <= |s.ring.mem.prod.log|
    ensures Waiting(s, b, p) == if b in s.place && s.place[b].InRing? && s.place[b].p >= p then 1 else 0
    decreases |s.ring.mem.prod.log| - p
  {
    if p < |s.ring.mem.prod.log| {
      WaitingCount(s, b, p + 1);
      assert b in s.place ==> Placed(s, b);
    } else {
      assert b in s.place ==> Placed(s, b);
    }
  }

  /** Ownership over every run: at any moment each block is in exactly one place. Either it
      waits in the free list once, or exactly one thread holds it (once), or exactly one
      thread is putting it back; nothing else is ever in the list or in a thread's hands. */
  lemma EachBlockInOnePlace(c: Config, blocks: set<Block>, run: seq<Pool>, sched: seq<(Tid, Action<Block>)>, i: nat, b: Block)
    requires IsPoolRun(c, blocks, run, sched) && i < |run|
    ensures |run[i].ring.mem.cons.log| <= |run[i].ring.mem.prod.log|
    ensures var s := run[i];
            var waiting := Waiting(s, b, |s.ring.mem.cons.log|);
            && (forall t: Tid :: s.held[(t, b)] <= 1)
            && (b !in blocks ==> waiting == 0 && forall t: Tid :: (t, b) !in s.held && !Putting(s, t, b))
            && (b in blocks ==>
                  || (waiting == 1 && forall t: Tid :: (t, b) !in s.held && !Putting(s, t, b))
                  || (waiting == 0 && exists t: Tid :: (t, b) in s.held && forall u: Tid :: !Putting(s, u, b) && ((u, b) in s.held ==> u == t))
                  || (waiting == 0 && exists t :: Putting(s, t, b) && forall u: Tid :: (u, b) !in s.held && (Putting(s, u, b) ==> u == t)))
  {
    var s := run[i];
    PoolRunKeepsInv(c, blocks, run, sched, i);
    WaitingCount(s, b, |s.ring.mem.cons.log|);
    PuttingPlace(s, b);
    if b in blocks {
      assert Placed(s, b);
      if s.place[b].HeldBy? {
        assert (s.place[b].t, b) in s.held;
      }
    }
  }

  lemma PuttingPlace(s: Pool, b: Block)
    requires BlocksOk(s)
    ensures forall t | Putting(s, t, b) :: b in s.place && s.place[b] == InPut(t)
  {
    forall t | Putting(s, t, b) ensures b in s.place && s.place[b] == InPut(t) {
      assert CallsOk(s, t);
    }
  }

  /** Over every run no put, including those that first populate the pool, ever finds the
      free list full. */
  lemma PutNeverFails(c: Config, blocks: set<Block>, run: seq<Pool>, sched: seq<(Tid, Action<Block>)>, i: nat)
    requires IsPoolRun(c, blocks, run, sched) && i < |sched|
    requires sched[i].1.LoadTail? && run[i].ring.OpOf(sched[i].0).Check? && run[i].ring.OpOf(sched[i].0).req.Enqueue?
    ensures run[i + 1].ring.OpOf(sched[i].0).Reserve?
  {
    PoolRunKeepsInv(c, blocks, run, sched, i);
    PutFindsRoom(c, blocks, run[i], sched[i].0);
  }

  // ---------- The blocks of a slab ----------

  function BlockSet(base: nat, stride: nat, n: nat): set<Block> {
    set i: nat | i < n :: ObjectPool.BlockAddr(base, stride, i)
  }

  lemma {:induction false} BlockSetSize(base: nat, stride: nat, n: nat)
    requires stride > 0
    ensures |BlockSet(base, stride, n)| == n
  {
    if n > 0 {
      BlockSetSize(base, stride, n - 1);
      forall i: nat | i < n - 1
        ensures ObjectPool.BlockAddr(base, stride, i) != ObjectPool.BlockAddr(base, stride, n - 1)
      {
        MulOrder(i, n - 1, stride);
      }
      assert BlockSet(base, stride, n) == BlockSet(base, stride, n - 1) + {ObjectPool.BlockAddr(base, stride, n - 1)};
    }
  }

  /** The n blocks of a slab are n addresses, and the ring that create makes for n + 1 entries has
      room for them: the runs of that pool are runs as above. */
  lemma SlabFitsRing(base: nat, stride: nat, n: nat) returns (c: Config)
    requires stride > 0 && n < 0x8000_0000
    ensures c.Valid() && !c.single && c.Size() == RoundUpPow2(n + 1)
    ensures |BlockSet(base, stride, n)| == n <= c.Mask()
  {
    var k := RoundUpPow2Exact(n + 1);
    c := Config(k, false);
    BlockSetSize(base, stride, n);
  }

  /** Whatever two threads hold at the same moment lies apart in memory. */
  lemma HeldBlocksApart(c: Config, base: nat, stride: nat, n: nat, run: seq<Pool>, sched: seq<(Tid, Action<Block>)>,
                        i: nat, t: Tid, b: Block, u: Tid, d: Block)
    requires IsPoolRun(c, BlockSet(base, stride, n), run, sched) && i < |run| && stride > 0
    requires (t, b) in run[i].held && (u, d) in run[i].held && (t, b) != (u, d)
    ensures b + stride <= d || d + stride <= b
    ensures base <= b && b + stride <= base + n * stride
  {
    hide IsPoolRun, Waiting, BlockSet;
    EachBlockInOnePlace(c, BlockSet(base, stride, n), run, sched, i, b);
    EachBlockInOnePlace(c, BlockSet(base, stride, n), run, sched, i, d);
    assert b != d;
    var x := BlockIndex(base, stride, n, b);
    var y := BlockIndex(base, stride, n, d);
    ObjectPool.BlocksDisjoint(base, stride, stride, n, if x < y then x else y, if x < y then y else x);
    MulOrder(x, n, stride);
  }

  lemma BlockIndex(base: nat, stride: nat, n: nat, b: Block) returns (x: nat)
    requires b in BlockSet(base, stride, n)
    ensures x < n && b == ObjectPool.BlockAddr(base, stride, x)
  {
    x :| x < n && b == ObjectPool.BlockAddr(base, stride, x);
  }
}
