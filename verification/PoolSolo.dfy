/** What get and put achieve: alone, a get ends with the oldest free block in the caller's hands, or with
    nothing when none is free, and a put ends with the block at the end of the free list. */
module PoolSolo {
  import opened Words
  import opened RingSystem
  import opened RingProof
  import opened RingTheorems
  import opened RingSolo
  import opened PoolSystem

  /** Steps of the pool, from any state. */
  ghost predicate IsPoolPath(c: Config, run: seq<Pool>, sched: seq<(Tid, Action<Block>)>) {
    && |run| == |sched| + 1
    && forall i | 0 <= i < |sched| :: PoolStep(c, run[i], sched[i].0, sched[i].1, run[i + 1])
  }

  ghost predicate PoolStep(c: Config, s: Pool, t: Tid, a: Action<Block>, s': Pool) {
    PoolEnabled(c, s, t, a) && Timely(c, s, t) && InBounds(c, s.ring, t, a) && s' == PoolNext(c, s, t, a)
  }

  lemma PoolPathCons(c: Config, s: Pool, t: Tid, a: Action<Block>, run: seq<Pool>, sched: seq<(Tid, Action<Block>)>)
    requires IsPoolPath(c, run, sched) && PoolStep(c, s, t, a, run[0])
    ensures IsPoolPath(c, [s] + run, [(t, a)] + sched)
  {
    hide PoolStep;
  }

  /** One get, or one put of a block. */
  predicate OneBlock(req: Req<Block>) {
    req.N() == 1
  }

  /** What the call hands to its caller. */
  ghost function Handed(c: Config, m: Mem<Block>, t: Tid, req: Req<Block>): multiset<(Tid, Block)> {
    if req.Dequeue? && req.n == 1 && Fits(c, m, req) && |m.cons.log| < |m.prod.log|
    then multiset{(t, m.prod.log[|m.cons.log|])} else multiset{}
  }

  /** Thread t is inside its call, and nothing has been handed over before its end. */
  ghost predicate InCall(c: Config, blocks: set<Block>, m: Mem<Block>, s: Pool, t: Tid, req: Req<Block>, held: multiset<(Tid, Block)>) {
    && PoolInv(c, blocks, s) && Solo(c, m, s.ring, t, req)
    && s.held == if s.ring.OpOf(t).Idle? then held + Handed(c, m, t, req) else held
  }

  lemma StepInCall(c: Config, blocks: set<Block>, m: Mem<Block>, s: Pool, t: Tid, req: Req<Block>, held: multiset<(Tid, Block)>, a: Action<Block>)
    requires OneBlock(req) && InCall(c, blocks, m, s, t, req, held) && !s.ring.OpOf(t).Idle? && !a.Call?
    requires Enabled(c, s.ring, t, a) && InBounds(c, s.ring, t, a)
    ensures PoolStep(c, s, t, a, PoolNext(c, s, t, a)) && InCall(c, blocks, m, PoolNext(c, s, t, a), t, req, held)
    ensures PoolNext(c, s, t, a).ring == Next(c, s.ring, t, a)
  {
    SoloTimely(c, blocks, m, s, t, req);
    PoolStepKeeps(c, blocks, s, t, a);
    RingOf(c, s, t, a);
    hide PoolInv, Timely, PoolNext;
    SoloRing(c, blocks, m, s, t, req, a);
    HandedAtEnd(c, blocks, m, s, t, req, held, a);
  }

  lemma SoloTimely(c: Config, blocks: set<Block>, m: Mem<Block>, s: Pool, t: Tid, req: Req<Block>)
    requires PoolInv(c, blocks, s) && Solo(c, m, s.ring, t, req) && !s.ring.OpOf(t).Idle?
    ensures Timely(c, s, t)
  {
    SizeBound(c);
  }

  lemma RingOf(c: Config, s: Pool, t: Tid, a: Action<Block>)
    requires PoolEnabled(c, s, t, a) && InBounds(c, s.ring, t, a)
    ensures PoolNext(c, s, t, a).ring == Next(c, s.ring, t, a)
  {
    hide Next;
  }

  lemma SoloRing(c: Config, blocks: set<Block>, m: Mem<Block>, s: Pool, t: Tid, req: Req<Block>, a: Action<Block>)
    requires PoolInv(c, blocks, s) && Solo(c, m, s.ring, t, req) && !s.ring.OpOf(t).Idle?
    requires Enabled(c, s.ring, t, a) && InBounds(c, s.ring, t, a)
    ensures Solo(c, m, Next(c, s.ring, t, a), t, req)
  {
    hide Inv, Solo, Next, BlocksOk;
    SoloInside(c, m, s.ring, t, req, a, Next(c, s.ring, t, a));
  }

  /** The block of a get is handed over by its last step, and by no other. */
  lemma HandedAtEnd(c: Config, blocks: set<Block>, m: Mem<Block>, s: Pool, t: Tid, req: Req<Block>, held: multiset<(Tid, Block)>, a: Action<Block>)
    requires OneBlock(req) && InCall(c, blocks, m, s, t, req, held) && !s.ring.OpOf(t).Idle? && !a.Call?
    requires Enabled(c, s.ring, t, a) && InBounds(c, s.ring, t, a)
    ensures var s' := PoolNext(c, s, t, a);
            s'.held == if s'.ring.OpOf(t).Idle? then held + Handed(c, m, t, req) else held
  {
    if a.StoreTail? {
      StoreHands(c, blocks, m, s, t, req, held);
    } else if a.LoadTail? {
      LoadHands(c, blocks, m, s, t, req, held);
    } else {
      hide Inv, Solo, BlocksOk, Config.Slot, Room;
      Idles(c, s, t, a);
    }
  }

  lemma Idles(c: Config, s: Pool, t: Tid, a: Action<Block>)
    requires Enabled(c, s.ring, t, a) && InBounds(c, s.ring, t, a) && !a.Call? && !a.StoreTail? && !a.LoadTail?
    ensures !Next(c, s.ring, t, a).OpOf(t).Idle?
  {
    hide Config.Slot, Room;
  }

  lemma StoreHands(c: Config, blocks: set<Block>, m: Mem<Block>, s: Pool, t: Tid, req: Req<Block>, held: multiset<(Tid, Block)>)
    requires OneBlock(req) && InCall(c, blocks, m, s, t, req, held) && Enabled(c, s.ring, t, StoreTail)
    ensures PoolNext(c, s, t, StoreTail).held == held + Handed(c, m, t, req)
    ensures PoolNext(c, s, t, StoreTail).ring.OpOf(t).Idle?
  {
    OpAt(c, s.ring, t);
    assert SegmentOk(c, s.ring.mem, t, req, s.ring.SnapOf(t), s.ring.OpOf(t).copied);
    assert CopiedOk(c, s.ring.mem, req, s.ring.SnapOf(t), s.ring.OpOf(t).copied);
    hide Inv, BlocksOk;
    if req.Dequeue? {
      assert s.ring.OpOf(t).copied == [m.prod.log[|m.cons.log|]];
    }
  }

  lemma LoadHands(c: Config, blocks: set<Block>, m: Mem<Block>, s: Pool, t: Tid, req: Req<Block>, held: multiset<(Tid, Block)>)
    requires OneBlock(req) && InCall(c, blocks, m, s, t, req, held) && Enabled(c, s.ring, t, LoadTail)
    ensures var s' := PoolNext(c, s, t, LoadTail);
            s'.held == if s'.ring.OpOf(t).Idle? then held + Handed(c, m, t, req) else held
  {
    CallSolo(c, blocks, m, s, t, req, held);
    LoadExact(c, m, s.ring, t, req);
    hide PoolInv, Inv, Room;
  }

  lemma CallEnded(c: Config, blocks: set<Block>, m: Mem<Block>, s: Pool, t: Tid, req: Req<Block>, held: multiset<(Tid, Block)>)
    requires InCall(c, blocks, m, s, t, req, held) && s.ring.OpOf(t).Idle?
    ensures Quiet(s.ring) && Outcome(c, m, s.ring.mem, req) && s.held == held + Handed(c, m, t, req) && PoolInv(c, blocks, s)
  {
    hide PoolInv, Handed, Outcome;
  }

  lemma CallSolo(c: Config, blocks: set<Block>, m: Mem<Block>, s: Pool, t: Tid, req: Req<Block>, held: multiset<(Tid, Block)>)
    requires InCall(c, blocks, m, s, t, req, held)
    ensures Inv(c, s.ring) && Solo(c, m, s.ring, t, req)
  {
    hide Inv, Solo, BlocksOk;
  }

  lemma StepIs(c: Config, s: Pool, t: Tid, a: Action<Block>)
    requires Enabled(c, s.ring, t, a) && !a.Call?
    ensures PoolEnabled(c, s, t, a)
  {
  }

  lemma {:induction false} FinishCall(c: Config, blocks: set<Block>, m: Mem<Block>, s: Pool, t: Tid, req: Req<Block>, held: multiset<(Tid, Block)>)
      returns (run: seq<Pool>, sched: seq<(Tid, Action<Block>)>)
    requires OneBlock(req) && InCall(c, blocks, m, s, t, req, held)
    ensures IsPoolPath(c, run, sched) && run[0] == s && Alone(sched, t)
    ensures Quiet(run[|sched|].ring) && Outcome(c, m, run[|sched|].ring.mem, req)
    ensures run[|sched|].held == held + Handed(c, m, t, req) && PoolInv(c, blocks, run[|sched|])
    decreases Left(s.ring, t)
  {
    hide PoolInv, Inv, PoolStep, InCall, Solo, Onward, Next, PoolNext, Outcome, Quiet, Handed, Left, Enabled, InBounds, PoolEnabled;
    if s.ring.OpOf(t).Idle? {
      CallEnded(c, blocks, m, s, t, req, held);
      run, sched := [s], [];
    } else {
      var a := Onward(s.ring, t);
      CallSolo(c, blocks, m, s, t, req, held);
      SoloNearer(c, m, s.ring, t, req);
      StepInCall(c, blocks, m, s, t, req, held, a);
      StepIs(c, s, t, a);
      var s' := PoolNext(c, s, t, a);
      var run', sched' := FinishCall(c, blocks, m, s', t, req, held);
      PoolPathCons(c, s, t, a, run', sched');
      run, sched := [s] + run', [(t, a)] + sched';
    }
  }

  /** A held block and those that wait make no more than the list has room for. */
  lemma PutFits(c: Config, blocks: set<Block>, s: Pool, t: Tid, b: Block)
    requires PoolInv(c, blocks, s) && Quiet(s.ring) && (t, b) in s.held
    ensures Fits(c, s.ring.mem, Enqueue([b]))
  {
    QuietTails(c, s.ring, Prod);
    var ct := |s.ring.mem.cons.log|;
    var q := BlocksFrom(c, blocks, s, ct);
    HeldIsPlaced(c, blocks, s, t, b);
    forall i, j | 0 <= i < j < |q| + 1 ensures (q + [b])[i] != (q + [b])[j] {
      assert BlockAt(s, ct + i, q[i]);
      if j < |q| {
        assert BlockAt(s, ct + j, q[j]);
      }
    }
    DistinctFit(q + [b], blocks);
  }

  lemma HeldIsPlaced(c: Config, blocks: set<Block>, s: Pool, t: Tid, b: Block)
    requires PoolInv(c, blocks, s) && (t, b) in s.held
    ensures b in blocks && b in s.place && s.place[b] == HeldBy(t)
  {
  }

  lemma BeginCall(c: Config, blocks: set<Block>, s: Pool, t: Tid, req: Req<Block>)
    requires PoolInv(c, blocks, s) && Quiet(s.ring) && OneBlock(req) && (req.Enqueue? ==> (t, req.objs[0]) in s.held)
    ensures PoolEnabled(c, s, t, Call(req)) && InBounds(c, s.ring, t, Call(req))
    ensures var s' := PoolNext(c, s, t, Call(req));
            && PoolStep(c, s, t, Call(req), s')
            && InCall(c, blocks, s.ring.mem, s', t, req, if req.Enqueue? then s.held - multiset{(t, req.objs[0])} else s.held)
  {
    CallEnabled(c, s.ring, t, req);
    assert Timely(c, s, t);
    PoolStepKeeps(c, blocks, s, t, Call(req));
    RingOf(c, s, t, Call(req));
    hide BlocksOk, Inv;
    SoloStart(c, s.ring, t, req, Next(c, s.ring, t, Call(req)));
  }

  /** From every reachable state with no call under way: a get by any thread ends, and hands it the oldest
      free block, or nothing exactly when none is free. */
  lemma GetCompletes(c: Config, blocks: set<Block>, run: seq<Pool>, sched: seq<(Tid, Action<Block>)>, i: nat, t: Tid)
      returns (rest: seq<Pool>, path: seq<(Tid, Action<Block>)>)
    requires IsPoolRun(c, blocks, run, sched) && i < |run| && Quiet(run[i].ring)
    ensures IsPoolPath(c, rest, path) && rest[0] == run[i] && path != [] && path[0] == (t, Call(Dequeue(1))) && Alone(path[1..], t)
    ensures Quiet(rest[|path|].ring) && |run[i].ring.mem.cons.log| <= |run[i].ring.mem.prod.log|
    ensures var before, after := run[i], rest[|path|];
            var free := before.ring.mem.prod.log[|before.ring.mem.cons.log|..];
            && after.ring.mem.prod.log == before.ring.mem.prod.log
            && (free == [] ==> after.held == before.held && after.ring.mem.cons.log == before.ring.mem.cons.log)
            && (free != [] ==>
                  && after.held == before.held + multiset{(t, free[0])}
                  && after.ring.mem.cons.log == before.ring.mem.cons.log + [free[0]])
  {
    PoolRunKeepsInv(c, blocks, run, sched, i);
    var s := run[i];
    BeginCall(c, blocks, s, t, Dequeue(1));
    var s' := PoolNext(c, s, t, Call(Dequeue(1)));
    rest, path := FinishCall(c, blocks, s.ring.mem, s', t, Dequeue(1), s.held);
    LogsInOrder(c, blocks, s);
    hide PoolInv, PoolStep, InCall, PoolNext, PoolEnabled, InBounds, Quiet, Alone, Outcome, Handed, Fits;
    PoolPathCons(c, s, t, Call(Dequeue(1)), rest, path);
    GotExactly(c, s.ring.mem, rest[|path|].ring.mem, t);
    rest, path := [s] + rest, [(t, Call(Dequeue(1)))] + path;
  }

  lemma LogsInOrder(c: Config, blocks: set<Block>, s: Pool)
    requires PoolInv(c, blocks, s)
    ensures |s.ring.mem.cons.log| <= |s.ring.mem.prod.log|
  {
    hide BlocksOk;
  }

  /** The outcome of a get on the list of free blocks. */
  lemma GotExactly(c: Config, m: Mem<Block>, m': Mem<Block>, t: Tid)
    requires |m.cons.log| <= |m.prod.log| && Outcome(c, m, m', Dequeue(1))
    ensures var free := m.prod.log[|m.cons.log|..];
            && m'.prod.log == m.prod.log
            && (free == [] ==> Handed(c, m, t, Dequeue(1)) == multiset{} && m'.cons.log == m.cons.log)
            && (free != [] ==> Handed(c, m, t, Dequeue(1)) == multiset{(t, free[0])} && m'.cons.log == m.cons.log + [free[0]])
  {
  }

  /** A put of a held block ends, with the block last in the free list and out of the caller's hands. */
  lemma PutCompletes(c: Config, blocks: set<Block>, run: seq<Pool>, sched: seq<(Tid, Action<Block>)>, i: nat, t: Tid, b: Block)
      returns (rest: seq<Pool>, path: seq<(Tid, Action<Block>)>)
    requires IsPoolRun(c, blocks, run, sched) && i < |run| && Quiet(run[i].ring) && (t, b) in run[i].held
    ensures IsPoolPath(c, rest, path) && rest[0] == run[i] && path != [] && path[0] == (t, Call(Enqueue([b]))) && Alone(path[1..], t)
    ensures Quiet(rest[|path|].ring) && rest[|path|].held == run[i].held - multiset{(t, b)}
    ensures rest[|path|].ring.mem.prod.log == run[i].ring.mem.prod.log + [b]
    ensures rest[|path|].ring.mem.cons.log == run[i].ring.mem.cons.log
  {
    PoolRunKeepsInv(c, blocks, run, sched, i);
    var s := run[i];
    PutFits(c, blocks, s, t, b);
    BeginCall(c, blocks, s, t, Enqueue([b]));
    var s' := PoolNext(c, s, t, Call(Enqueue([b])));
    rest, path := FinishCall(c, blocks, s.ring.mem, s', t, Enqueue([b]), s.held - multiset{(t, b)});
    hide Inv, BlocksOk, PoolStep, InCall, PoolNext, Quiet, Alone, Fits;
    PoolPathCons(c, s, t, Call(Enqueue([b])), rest, path);
    rest, path := [s] + rest, [(t, Call(Enqueue([b])))] + path;
  }
}
