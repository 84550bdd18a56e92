/** What the ring promises, over every run of any number of threads. */
module RingTheorems {
  import opened Words
  import opened RingSystem
  import opened RingProof

  // ---------- Runs ----------

  ghost predicate InBounds<T>(c: Config, s: Sys<T>, t: Tid, a: Action<T>)
    requires Enabled(c, s, t, a)
  {
    a.CopySlot? ==> c.Slot((s.OpOf(t).head + |s.OpOf(t).copied|) % U32) < |s.mem.slots|
  }

  /** One step. A slot access outside the ring would be undefined behaviour: anything may follow. */
  ghost predicate Step<T>(c: Config, s: Sys<T>, t: Tid, a: Action<T>, s': Sys<T>) {
    Enabled(c, s, t, a) && (InBounds(c, s, t, a) ==> s' == Next(c, s, t, a))
  }

  ghost predicate IsPath<T>(c: Config, run: seq<Sys<T>>, sched: seq<(Tid, Action<T>)>) {
    && |run| == |sched| + 1
    && forall i | 0 <= i < |sched| :: Step(c, run[i], sched[i].0, sched[i].1, run[i + 1])
  }

  /** A run of the ring in which no thread sits on a head snapshot for 2^32 reservations. */
  ghost predicate IsRun<T>(c: Config, run: seq<Sys<T>>, sched: seq<(Tid, Action<T>)>) {
    && c.Valid() && IsPath(c, run, sched) && Init(c, run[0])
    && forall i | 0 <= i < |sched| && sched[i].1.MoveHead? :: NotLapped(run[i], sched[i].0)
  }

  lemma InitInv<T>(c: Config, s: Sys<T>)
    requires c.Valid() && Init(c, s)
    ensures Inv(c, s)
  {
  }

  lemma StepKeeps<T>(c: Config, s: Sys<T>, t: Tid, a: Action<T>, s': Sys<T>)
    requires Inv(c, s) && Step(c, s, t, a, s') && (a.MoveHead? ==> NotLapped(s, t))
    ensures InBounds(c, s, t, a) && Inv(c, s')
  {
    var op := s.OpOf(t);
    match a {
      case Call(req) => CallKeeps(c, s, t, req);
      case LoadHead => SnapshotKeeps(c, s, t, op.req);
      case LoadTail => LoadTailKeeps(c, s, t, op.req, op.head);
      case MoveHead(spurious) => MoveHeadKeeps(c, s, t, op.req, op.head, spurious);
      case CopySlot =>
        CopyInBounds(c, s, t);
        match op.req {
          case Enqueue(objs) => CopyEnqueueKeeps(c, s, t, objs, op.head, op.copied);
          case Dequeue(n) => CopyDequeueKeeps(c, s, t, n, op.head, op.copied);
        }
      case AwaitTurn => AwaitKeeps(c, s, t, op.req, op.head, op.copied);
      case StoreTail => StoreTailKeeps(c, s, t, op.req, op.head, op.copied);
    }
  }

  lemma {:induction false} RunKeepsInv<T>(c: Config, run: seq<Sys<T>>, sched: seq<(Tid, Action<T>)>, i: nat)
    requires IsRun(c, run, sched) && i < |run|
    ensures Inv(c, run[i])
  {
    if i == 0 {
      InitInv(c, run[0]);
    } else {
      RunKeepsInv(c, run, sched, i - 1);
      StepKeeps(c, run[i - 1], sched[i - 1].0, sched[i - 1].1, run[i]);
    }
  }

  // ---------- Cursor order and reservations ----------

  ghost predicate OneHolder<T>(s: Sys<T>, k: Kind, p: nat) {
    exists t :: Covers(s, t, k, p) && forall u | Covers(s, u, k, p) :: u == t
  }

  /** Each unpublished position has exactly one holder, and holders hold nothing else. */
  ghost predicate TilesExactly<T>(s: Sys<T>, k: Kind) {
    && (forall p: nat | |s.mem.At(k).log| <= p < |s.mem.At(k).owner| :: OneHolder(s, k, p))
    && (forall t, p: nat | Covers(s, t, k, p) :: |s.mem.At(k).log| <= p < |s.mem.At(k).owner|)
  }

  lemma InvTiles<T>(c: Config, s: Sys<T>, k: Kind)
    requires Inv(c, s)
    ensures TilesExactly(s, k)
  {
    forall t, p: nat | Covers(s, t, k, p)
      ensures |s.mem.At(k).log| <= p < |s.mem.At(k).owner| && s.mem.At(k).owner[p] == t
    {
      OpAt(c, s, t);
    }
    forall p: nat | |s.mem.At(k).log| <= p < |s.mem.At(k).owner| ensures OneHolder(s, k, p) {
      assert Covers(s, s.mem.At(k).owner[p], k, p);
    }
  }

  /** In every state of every run the unwrapped cursors are ordered, the 32-bit cursors are
      their remainders, and the reservations in flight tile both gaps. */
  lemma CursorsAlwaysOrdered<T>(c: Config, run: seq<Sys<T>>, sched: seq<(Tid, Action<T>)>, i: nat)
    requires IsRun(c, run, sched) && i < |run|
    ensures var m := run[i].mem;
            && |m.cons.log| <= |m.cons.owner| <= |m.prod.log| <= |m.prod.owner| <= |m.cons.log| + c.Mask()
            && m.prod.head == |m.prod.owner| % U32 && m.prod.tail == |m.prod.log| % U32
            && m.cons.head == |m.cons.owner| % U32 && m.cons.tail == |m.cons.log| % U32
    ensures TilesExactly(run[i], Prod) && TilesExactly(run[i], Cons)
  {
    RunKeepsInv(c, run, sched, i);
    InvTiles(c, run[i], Prod);
    InvTiles(c, run[i], Cons);
  }

  // ---------- Exactly-once FIFO ----------

  /** What completed calls of side k moved in the first i steps, in the order they completed:
      the objects passed to enqueue_bulk, or the objects dequeue_bulk handed back. */
  ghost function Moved<T>(c: Config, run: seq<Sys<T>>, sched: seq<(Tid, Action<T>)>, k: Kind, i: nat): seq<T>
    requires IsPath(c, run, sched) && i <= |sched|
  {
    if i == 0 then []
    else
      var op := run[i - 1].OpOf(sched[i - 1].0);
      var before := Moved(c, run, sched, k, i - 1);
      if sched[i - 1].1.StoreTail? && op.Publish? && op.req.Kind() == k
      then before + (if op.req.Enqueue? then op.req.objs else op.copied)
      else before
  }

  /** Only publishing the tail extends a side's log, by what the call moved. */
  lemma StepLogs<T>(c: Config, s: Sys<T>, t: Tid, a: Action<T>, s': Sys<T>, k: Kind)
    requires Inv(c, s) && Step(c, s, t, a, s')
    ensures s'.mem.At(k).log ==
            s.mem.At(k).log + if a.StoreTail? && s.OpOf(t).Publish? && s.OpOf(t).req.Kind() == k
                              then (if s.OpOf(t).req.Enqueue? then s.OpOf(t).req.objs else s.OpOf(t).copied) else []
  {
    hide Inv, Config.Slot, Room;
    if a.CopySlot? {
      CopyInBounds(c, s, t);
    } else if a.StoreTail? && s.OpOf(t).req.Enqueue? {
      PublishedObjs(c, s, t);
    }
  }

  lemma PublishedObjs<T>(c: Config, s: Sys<T>, t: Tid)
    requires Inv(c, s) && s.OpOf(t).Publish? && s.OpOf(t).req.Enqueue?
    ensures s.OpOf(t).copied == s.OpOf(t).req.objs
  {
    OpAt(c, s, t);
  }

  lemma RunStep<T>(c: Config, run: seq<Sys<T>>, sched: seq<(Tid, Action<T>)>, i: nat)
    requires IsPath(c, run, sched) && i < |sched|
    ensures Step(c, run[i], sched[i].0, sched[i].1, run[i + 1])
  {
  }

  lemma {:induction false} MovedIsLog<T>(c: Config, run: seq<Sys<T>>, sched: seq<(Tid, Action<T>)>, k: Kind, i: nat)
    requires IsRun(c, run, sched) && i <= |sched|
    ensures Moved(c, run, sched, k, i) == run[i].mem.At(k).log
  {
    hide Inv, Step;
    if i > 0 {
      MovedIsLog(c, run, sched, k, i - 1);
      RunKeepsInv(c, run, sched, i - 1);
      RunStep(c, run, sched, i - 1);
      StepLogs(c, run[i - 1], sched[i - 1].0, sched[i - 1].1, run[i], k);
    }
  }

  /** Over every run the delivered objects are a prefix of the enqueued objects: none lost,
      duplicated, reordered or invented, and never more than `mask` waiting. */
  lemma ExactlyOnceFifo<T>(c: Config, run: seq<Sys<T>>, sched: seq<(Tid, Action<T>)>, i: nat)
    requires IsRun(c, run, sched) && i <= |sched|
    ensures Moved(c, run, sched, Cons, i) <= Moved(c, run, sched, Prod, i)
    ensures |Moved(c, run, sched, Prod, i)| <= |Moved(c, run, sched, Cons, i)| + c.Mask()
  {
    MovedIsLog(c, run, sched, Prod, i);
    MovedIsLog(c, run, sched, Cons, i);
    RunKeepsInv(c, run, sched, i);
  }

  /** A value published but not yet delivered is still in its slot, whatever the producers do. */
  lemma NeverOverwritten<T>(c: Config, run: seq<Sys<T>>, sched: seq<(Tid, Action<T>)>, i: nat, p: nat)
    requires IsRun(c, run, sched) && i <= |sched|
    requires |Moved(c, run, sched, Cons, i)| <= p < |Moved(c, run, sched, Prod, i)|
    ensures c.Slot(p % U32) < |run[i].mem.slots|
    ensures run[i].mem.slots[c.Slot(p % U32)] == Moved(c, run, sched, Prod, i)[p]
  {
    MovedIsLog(c, run, sched, Prod, i);
    MovedIsLog(c, run, sched, Cons, i);
    RunKeepsInv(c, run, sched, i);
    StoredAt(c, run[i].mem, p);
  }

  lemma StoredAt<T>(c: Config, m: Mem<T>, p: nat)
    requires MemOk(c, m) && |m.cons.log| <= p < |m.prod.log|
    ensures c.Slot(p % U32) < |m.slots| && m.slots[c.Slot(p % U32)] == m.prod.log[p]
  {
    hide Config.Slot, Fifo, Wrapped;
    SlotOf(c, p, 0);
    assert (p % U32 + 0) % U32 == p % U32;
  }

  // ---------- Honest failure ----------

  /** A call gives up exactly when its snapshot leaves too little room, and then the ring
      really had fewer than n free slots (or entries) at that tail load. Needs fewer than
      2^32 - size reservations between the call's head snapshot and this load. */
  lemma HonestFailure<T>(c: Config, run: seq<Sys<T>>, sched: seq<(Tid, Action<T>)>, i: nat)
    requires IsRun(c, run, sched) && i < |sched| && sched[i].1.LoadTail? && run[i].OpOf(sched[i].0).Check?
    requires |run[i].mem.At(run[i].OpOf(sched[i].0).req.Kind()).owner| <= run[i].SnapOf(sched[i].0) + U32 - c.Size()
    ensures var s, t := run[i], sched[i].0;
            var req := s.OpOf(t).req;
            && (run[i + 1].OpOf(t).Idle? <==> req.N() > Limit(c, s.mem, req.Kind()) - s.SnapOf(t))
            && (run[i + 1].OpOf(t).Idle? ==> req.N() > Limit(c, s.mem, req.Kind()) - |s.mem.At(req.Kind()).owner|)
  {
    hide Inv, Pow2;
    RunKeepsInv(c, run, sched, i);
    RoomUnwrapped(c, run[i], sched[i].0);
    OpAt(c, run[i], sched[i].0);
    SizeBound(c);
  }

  // ---------- Progress ----------

  /** The step a thread that owns slots takes next. */
  ghost function NextOwn<T>(s: Sys<T>, t: Tid): Action<T> {
    var op := s.OpOf(t);
    if op.Publish? then StoreTail else if op.Copy? && |op.copied| < op.req.N() then CopySlot else AwaitTurn
  }

  ghost function StepsLeft<T>(s: Sys<T>, t: Tid): nat {
    var op := s.OpOf(t);
    if op.Copy? && |op.copied| <= op.req.N() then op.req.N() - |op.copied| + 2 else 1
  }

  /** The holder at the tail never waits: each of its own steps brings it closer to publishing. */
  lemma TailHolderAdvances<T>(c: Config, s: Sys<T>, t: Tid, k: Kind, s': Sys<T>)
    requires Inv(c, s) && Holding(s, t, k) && s.SnapOf(t) == |s.mem.At(k).log|
    requires Enabled(c, s, t, NextOwn(s, t)) && Step(c, s, t, NextOwn(s, t), s')
    ensures Inv(c, s') && s'.mem.At(k).owner == s.mem.At(k).owner
    ensures s.OpOf(t).Publish? ==> |s'.mem.At(k).log| == |s.mem.At(k).log| + s.OpOf(t).req.N()
    ensures s.OpOf(t).Copy? ==>
              && Holding(s', t, k) && s'.SnapOf(t) == |s'.mem.At(k).log| && s'.mem.At(k).log == s.mem.At(k).log
              && StepsLeft(s', t) < StepsLeft(s, t) && s'.OpOf(t).req == s.OpOf(t).req
  {
    OpAt(c, s, t);
    StepKeeps(c, s, t, NextOwn(s, t), s');
  }

  lemma OwnStepEnabled<T>(c: Config, s: Sys<T>, t: Tid, k: Kind)
    requires Inv(c, s) && Holding(s, t, k)
    ensures Enabled(c, s, t, NextOwn(s, t)) && InBounds(c, s, t, NextOwn(s, t))
  {
    OpAt(c, s, t);
    if s.OpOf(t).Copy? {
      CopyInBounds(c, s, t);
    }
  }

  /** The wait for predecessors cannot deadlock: from any reachable state the threads already
      holding slots can, on their own, publish every outstanding reservation of a side. */
  lemma {:induction false} CanDrain<T>(c: Config, s: Sys<T>, k: Kind)
      returns (run: seq<Sys<T>>, sched: seq<(Tid, Action<T>)>)
    requires Inv(c, s)
    ensures IsPath(c, run, sched) && run[0] == s
    ensures forall i | 0 <= i < |sched| :: !sched[i].1.Call? && !sched[i].1.MoveHead?
    ensures run[|sched|].mem.At(k).owner == s.mem.At(k).owner
    ensures |run[|sched|].mem.At(k).log| == |s.mem.At(k).owner|
    decreases |s.mem.At(k).owner| - |s.mem.At(k).log|,
              if |s.mem.At(k).log| < |s.mem.At(k).owner| then StepsLeft(s, s.mem.At(k).owner[|s.mem.At(k).log|]) else 0
  {
    if |s.mem.At(k).log| == |s.mem.At(k).owner| {
      run, sched := [s], [];
    } else {
      var t := s.mem.At(k).owner[|s.mem.At(k).log|];
      TailHolder(c, s, k);
      OwnStepEnabled(c, s, t, k);
      var a := NextOwn(s, t);
      var s' := Next(c, s, t, a);
      OpAt(c, s, t);
      TailHolderAdvances(c, s, t, k, s');
      var run', sched' := CanDrain(c, s', k);
      hide Inv, Step, StepsLeft, NextOwn, Next;
      PathCons(c, s, t, a, run', sched');
      run, sched := [s] + run', [(t, a)] + sched';
    }
  }

  lemma PathCons<T>(c: Config, s: Sys<T>, t: Tid, a: Action<T>, run: seq<Sys<T>>, sched: seq<(Tid, Action<T>)>)
    requires IsPath(c, run, sched) && Step(c, s, t, a, run[0])
    ensures IsPath(c, [s] + run, [(t, a)] + sched)
  {
    hide Step;
  }
}
