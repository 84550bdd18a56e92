/** What a bulk call achieves. In any interleaving it ends only by moving all its objects or by finding
    too little room; and when it runs alone it ends, with exactly the outcome its size and the room call
    for. */
module RingSolo {
  import opened Words
  import opened RingSystem
  import opened RingProof
  import opened RingTheorems

  // ---------- Any interleaving ----------

  /** A thread inside a call stays with its request until it is out of it. */
  lemma SameRequest<T>(c: Config, s: Sys<T>, t: Tid, a: Action<T>, s': Sys<T>, u: Tid)
    requires Inv(c, s) && Step(c, s, t, a, s') && !s.OpOf(u).Idle?
    ensures s'.OpOf(u).Idle? || s'.OpOf(u).req == s.OpOf(u).req
    ensures s'.OpOf(u).Idle? ==> t == u && (a.LoadTail? || a.StoreTail?)
  {
    hide Inv, Config.Slot, Room;
    if a.CopySlot? {
      CopyInBounds(c, s, t);
    }
  }

  lemma {:induction false} InsideCall<T>(c: Config, run: seq<Sys<T>>, sched: seq<(Tid, Action<T>)>, t: Tid, req: Req<T>,
                                         i: nat, j: nat)
    requires IsRun(c, run, sched) && i < j <= |sched| && sched[i] == (t, Call(req)) && req.N() > 0
    requires forall k | i < k < j :: !run[k].OpOf(t).Idle?
    ensures run[j].OpOf(t).Idle? ==> j > i + 1
    ensures !run[j].OpOf(t).Idle? ==> run[j].OpOf(t).req == req
    decreases j
  {
    hide Inv, Step;
    RunStep(c, run, sched, j - 1);
    if j == i + 1 {
      CalledIsBusy(c, run[i], t, req, run[j]);
    } else {
      InsideCall(c, run, sched, t, req, i, j - 1);
      RunKeepsInv(c, run, sched, j - 1);
      SameRequest(c, run[j - 1], sched[j - 1].0, sched[j - 1].1, run[j], t);
    }
  }

  lemma CalledIsBusy<T>(c: Config, s: Sys<T>, t: Tid, req: Req<T>, s': Sys<T>)
    requires Step(c, s, t, Call(req), s') && req.N() > 0
    ensures !s'.OpOf(t).Idle? && s'.OpOf(t).req == req
  {
  }

  /** In every run, a call of at least one object that has ended did so in one of two ways: at a tail
      load that left it too little room, or by publishing all its objects (for a dequeue, the n it
      hands back), with nothing moved before. */
  lemma CallMovesAllOrFails<T>(c: Config, run: seq<Sys<T>>, sched: seq<(Tid, Action<T>)>, t: Tid, req: Req<T>, i: nat, j: nat)
    requires IsRun(c, run, sched) && i < j <= |sched| && sched[i] == (t, Call(req)) && req.N() > 0
    requires run[j].OpOf(t).Idle? && forall k | i < k < j :: !run[k].OpOf(t).Idle?
    ensures i < j - 1 && sched[j - 1].0 == t && run[j - 1].OpOf(t).req == req
    ensures sched[j - 1].1.LoadTail? || sched[j - 1].1.StoreTail?
    ensures sched[j - 1].1.LoadTail? ==> run[j].mem == run[j - 1].mem
    ensures sched[j - 1].1.StoreTail? ==>
              var before, after := run[j - 1].mem.At(req.Kind()).log, run[j].mem.At(req.Kind()).log;
              && before <= after && |after| == |before| + req.N()
              && (req.Enqueue? ==> after == before + req.objs)
              && (req.Dequeue? ==> after <= run[j].mem.prod.log)
  {
    InsideCall(c, run, sched, t, req, i, j);
    InsideCall(c, run, sched, t, req, i, j - 1);
    RunKeepsInv(c, run, sched, j - 1);
    RunKeepsInv(c, run, sched, j);
    LogIsPrefix(c, run[j]);
    hide Inv, Step;
    RunStep(c, run, sched, j - 1);
    SameRequest(c, run[j - 1], sched[j - 1].0, sched[j - 1].1, run[j], t);
    LastStep(c, run[j - 1], t, sched[j - 1].1, run[j]);
  }

  lemma LogIsPrefix<T>(c: Config, s: Sys<T>)
    requires Inv(c, s)
    ensures s.mem.cons.log <= s.mem.prod.log
  {
  }

  lemma LastStep<T>(c: Config, s: Sys<T>, t: Tid, a: Action<T>, s': Sys<T>)
    requires Inv(c, s) && Step(c, s, t, a, s') && (a.LoadTail? || a.StoreTail?) && !s.OpOf(t).Idle?
    ensures a.LoadTail? ==> s'.mem == s.mem
    ensures a.StoreTail? ==>
              && s.OpOf(t).Publish? && |s.OpOf(t).copied| == s.OpOf(t).req.N()
              && s'.mem.At(s.OpOf(t).req.Kind()).log == s.mem.At(s.OpOf(t).req.Kind()).log + s.OpOf(t).copied
              && (s.OpOf(t).req.Enqueue? ==> s.OpOf(t).copied == s.OpOf(t).req.objs)
  {
    OpAt(c, s, t);
    hide Inv, Config.Slot, Room;
    if a.StoreTail? && s.OpOf(t).req.Enqueue? {
      PublishedObjs(c, s, t);
    }
  }

  // ---------- Alone ----------

  /** No call is under way. */
  ghost predicate Quiet<T>(s: Sys<T>) {
    forall u :: s.OpOf(u).Idle?
  }

  /** There is room for the objects, or there are that many entries. */
  predicate Fits<T>(c: Config, m: Mem<T>, req: Req<T>) {
    match req
    case Enqueue(objs) => |m.prod.log| + |objs| <= |m.cons.log| + c.Mask()
    case Dequeue(n) => |m.cons.log| + n <= |m.prod.log|
  }

  /** The objects to enqueue, or the oldest entries. */
  function Moves<T>(c: Config, m: Mem<T>, req: Req<T>): seq<T>
    requires Fits(c, m, req)
  {
    match req
    case Enqueue(objs) => objs
    case Dequeue(n) => m.prod.log[|m.cons.log|..|m.cons.log| + n]
  }

  /** All of it, or nothing when it does not fit. */
  ghost predicate Outcome<T>(c: Config, m: Mem<T>, m': Mem<T>, req: Req<T>) {
    && (req.Enqueue? ==> m'.cons.log == m.cons.log) && (req.Dequeue? ==> m'.prod.log == m.prod.log)
    && m'.At(req.Kind()).log == m.At(req.Kind()).log + if Fits(c, m, req) then Moves(c, m, req) else []
  }

  lemma QuietTails<T>(c: Config, s: Sys<T>, k: Kind)
    requires Inv(c, s) && Quiet(s)
    ensures |s.mem.At(k).owner| == |s.mem.At(k).log|
  {
    if |s.mem.At(k).log| < |s.mem.At(k).owner| {
      CoveredAt(c, s, k, |s.mem.At(k).log|);
    }
  }

  /** Thread t is inside its call `req`, begun when the memory was m, and no other call is under way. */
  ghost predicate Solo<T>(c: Config, m: Mem<T>, s: Sys<T>, t: Tid, req: Req<T>) {
    var op, k := s.OpOf(t), req.Kind();
    && (forall u | u != t :: s.OpOf(u).Idle?)
    && (op.Idle? ==> Outcome(c, m, s.mem, req))
    && (!op.Idle? ==> op.req == req && s.mem.prod.log == m.prod.log && s.mem.cons.log == m.cons.log)
    && (op.Start? ==> |s.mem.At(k).owner| == |m.At(k).log|)
    && (op.Check? || op.Reserve? ==> |s.mem.At(k).owner| == s.SnapOf(t) == |m.At(k).log|)
    && (op.Reserve? ==> Fits(c, m, req))
    && (op.Copy? || op.Publish? ==> Fits(c, m, req) && s.SnapOf(t) == |m.At(k).log|)
  }

  lemma SoloInside<T>(c: Config, m: Mem<T>, s: Sys<T>, t: Tid, req: Req<T>, a: Action<T>, s': Sys<T>)
    requires Inv(c, s) && Solo(c, m, s, t, req) && Step(c, s, t, a, s') && !s.OpOf(t).Idle?
    ensures (a.MoveHead? ==> NotLapped(s, t)) && Inv(c, s') && Solo(c, m, s', t, req)
  {
    StepKeeps(c, s, t, a, s');
    if a.LoadTail? {
      SoloLoad(c, m, s, t, req, s');
    } else if a.StoreTail? {
      SoloStore(c, m, s, t, req, s');
    } else {
      SoloOther(c, m, s, t, req, a, s');
    }
  }

  lemma SoloOther<T>(c: Config, m: Mem<T>, s: Sys<T>, t: Tid, req: Req<T>, a: Action<T>, s': Sys<T>)
    requires Inv(c, s) && Solo(c, m, s, t, req) && Step(c, s, t, a, s') && !s.OpOf(t).Idle?
    requires !a.LoadTail? && !a.StoreTail?
    ensures Solo(c, m, s', t, req)
  {
    if a.CopySlot? {
      CopyInBounds(c, s, t);
    }
    OthersStay(c, s, t, a, s');
  }

  lemma OthersStay<T>(c: Config, s: Sys<T>, t: Tid, a: Action<T>, s': Sys<T>)
    requires Enabled(c, s, t, a) && InBounds(c, s, t, a) && s' == Next(c, s, t, a)
    ensures forall u | u != t :: s'.OpOf(u) == s.OpOf(u)
  {
    hide Config.Slot, Room;
  }

  lemma SoloLoad<T>(c: Config, m: Mem<T>, s: Sys<T>, t: Tid, req: Req<T>, s': Sys<T>)
    requires Inv(c, s) && Solo(c, m, s, t, req) && Step(c, s, t, LoadTail, s') && !s.OpOf(t).Idle?
    ensures Solo(c, m, s', t, req)
  {
    LoadExact(c, m, s, t, req);
    hide Inv, Room, Fits;
    OthersStay(c, s, t, LoadTail, s');
  }

  /** The call gives up exactly when it does not fit. */
  lemma LoadExact<T>(c: Config, m: Mem<T>, s: Sys<T>, t: Tid, req: Req<T>)
    requires Inv(c, s) && Solo(c, m, s, t, req) && s.OpOf(t).Check?
    ensures req.N() <= Room(c, s.mem, req.Kind(), s.OpOf(t).head) <==> Fits(c, m, req)
  {
    ConfigOf(c, s);
    RoomUnwrapped(c, s, t);
    SizeBound(c);
    hide Inv, Room, Pow2;
    SmallWord(Limit(c, s.mem, req.Kind()) - s.SnapOf(t));
  }

  lemma ConfigOf<T>(c: Config, s: Sys<T>)
    requires Inv(c, s)
    ensures c.Valid()
  {
  }

  lemma SmallWord(x: nat)
    requires x < U32
    ensures x % U32 == x
  {
  }

  lemma SoloStore<T>(c: Config, m: Mem<T>, s: Sys<T>, t: Tid, req: Req<T>, s': Sys<T>)
    requires Inv(c, s) && Solo(c, m, s, t, req) && Step(c, s, t, StoreTail, s') && !s.OpOf(t).Idle?
    ensures Solo(c, m, s', t, req)
  {
    OpAt(c, s, t);
    assert SegmentOk(c, s.mem, t, req, s.SnapOf(t), s.OpOf(t).copied);
    assert CopiedOk(c, s.mem, req, s.SnapOf(t), s.OpOf(t).copied);
    OthersStay(c, s, t, StoreTail, s');
  }

  /** The first step of the call. */
  lemma SoloStart<T>(c: Config, s: Sys<T>, t: Tid, req: Req<T>, s': Sys<T>)
    requires Inv(c, s) && Quiet(s) && req.N() > 0 && Step(c, s, t, Call(req), s')
    ensures Inv(c, s') && Solo(c, s.mem, s', t, req) && !s'.OpOf(t).Idle?
  {
    StepKeeps(c, s, t, Call(req), s');
    QuietTails(c, s, req.Kind());
    hide Inv;
    OthersStay(c, s, t, Call(req), s');
  }

  lemma CallEnabled<T>(c: Config, s: Sys<T>, t: Tid, req: Req<T>)
    requires Quiet(s) && req.N() < U32
    ensures Enabled(c, s, t, Call(req)) && InBounds(c, s, t, Call(req))
  {
  }

  // ---------- It ends ----------

  /** The next step of the thread, the compare-exchange not failing spuriously. */
  ghost function Onward<T>(s: Sys<T>, t: Tid): Action<T> {
    match s.OpOf(t)
    case Start(_) => LoadHead
    case Check(_, _) => LoadTail
    case Reserve(_, _) => MoveHead(false)
    case _ => NextOwn(s, t)
  }

  /** How many steps are left. */
  ghost function Left<T>(s: Sys<T>, t: Tid): nat {
    match s.OpOf(t)
    case Idle => 0
    case Start(req) => req.N() + 5
    case Check(req, _) => req.N() + 4
    case Reserve(req, _) => req.N() + 3
    case Copy(req, _, copied) => if |copied| <= req.N() then req.N() - |copied| + 2 else 1
    case Publish(_, _, _) => 1
  }

  lemma SoloNearer<T>(c: Config, m: Mem<T>, s: Sys<T>, t: Tid, req: Req<T>)
    requires Inv(c, s) && Solo(c, m, s, t, req) && !s.OpOf(t).Idle?
    ensures var a := Onward(s, t);
            Enabled(c, s, t, a) && InBounds(c, s, t, a) && !a.Call? && Left(Next(c, s, t, a), t) < Left(s, t)
  {
    OpAt(c, s, t);
    if s.OpOf(t).Copy? {
      CopyInBounds(c, s, t);
      SoloTurn(c, m, s, t, req);
    }
    hide Config.Slot, Room, Stored, Fifo, Pow2;
  }

  /** Alone, a holder is first in line. */
  lemma SoloTurn<T>(c: Config, m: Mem<T>, s: Sys<T>, t: Tid, req: Req<T>)
    requires Inv(c, s) && Solo(c, m, s, t, req) && s.OpOf(t).Copy?
    ensures s.mem.At(req.Kind()).tail == s.OpOf(t).head && |s.OpOf(t).copied| <= req.N()
  {
    OpAt(c, s, t);
  }

  ghost predicate Alone<T>(sched: seq<(Tid, Action<T>)>, t: Tid) {
    forall i | 0 <= i < |sched| :: sched[i].0 == t && !sched[i].1.Call?
  }

  lemma {:induction false} SoloFinish<T>(c: Config, m: Mem<T>, s: Sys<T>, t: Tid, req: Req<T>)
      returns (run: seq<Sys<T>>, sched: seq<(Tid, Action<T>)>)
    requires Inv(c, s) && Solo(c, m, s, t, req)
    ensures IsPath(c, run, sched) && run[0] == s && Alone(sched, t)
    ensures Quiet(run[|sched|]) && Outcome(c, m, run[|sched|].mem, req)
    decreases Left(s, t)
  {
    if s.OpOf(t).Idle? {
      run, sched := [s], [];
    } else {
      var a := Onward(s, t);
      SoloNearer(c, m, s, t, req);
      var s' := Next(c, s, t, a);
      SoloInside(c, m, s, t, req, a, s');
      var run', sched' := SoloFinish(c, m, s', t, req);
      hide Inv, Step, Solo, Onward, Next, Outcome, Quiet;
      PathCons(c, s, t, a, run', sched');
      run, sched := [s] + run', [(t, a)] + sched';
    }
  }

  /** From every reachable state with no call under way, for every number of objects: the steps of one
      thread, beginning with its call, end the call, with everything moved if it fits and nothing
      otherwise. */
  lemma SoloCompletes<T>(c: Config, run: seq<Sys<T>>, sched: seq<(Tid, Action<T>)>, i: nat, t: Tid, req: Req<T>)
      returns (rest: seq<Sys<T>>, path: seq<(Tid, Action<T>)>)
    requires IsRun(c, run, sched) && i < |run| && Quiet(run[i]) && 0 < req.N() < U32
    ensures IsPath(c, rest, path) && rest[0] == run[i] && path != [] && path[0] == (t, Call(req)) && Alone(path[1..], t)
    ensures Quiet(rest[|path|]) && Outcome(c, run[i].mem, rest[|path|].mem, req)
  {
    RunKeepsInv(c, run, sched, i);
    var s := run[i];
    CallEnabled(c, s, t, req);
    var s' := Next(c, s, t, Call(req));
    SoloStart(c, s, t, req, s');
    rest, path := SoloFinish(c, s.mem, s', t, req);
    hide Inv, Step, Solo, Next, Outcome, Quiet, Alone;
    PathCons(c, s, t, Call(req), rest, path);
    rest, path := [s] + rest, [(t, Call(req))] + path;
  }

  lemma {:induction false} SoloAlong<T>(c: Config, m: Mem<T>, run: seq<Sys<T>>, sched: seq<(Tid, Action<T>)>, t: Tid, req: Req<T>)
    requires IsPath(c, run, sched) && Alone(sched, t) && Inv(c, run[0]) && Solo(c, m, run[0], t, req)
    ensures Inv(c, run[|sched|]) && Solo(c, m, run[|sched|], t, req)
    decreases |sched|
  {
    if sched != [] {
      var n := |sched| - 1;
      var run', sched' := run[..n + 1], sched[..n];
      SoloAlong(c, m, run', sched', t, req);
      var s, a := run[n], sched[n].1;
      RunStep(c, run, sched, n);
      hide Inv, Step, Solo;
      NotIdle(c, s, t, a, run[n + 1]);
      SoloInside(c, m, s, t, req, a, run[n + 1]);
    }
  }

  lemma NotIdle<T>(c: Config, s: Sys<T>, t: Tid, a: Action<T>, s': Sys<T>)
    requires Step(c, s, t, a, s') && !a.Call?
    ensures !s.OpOf(t).Idle?
  {
  }

  /** And whichever of its own steps it takes, spurious failures of the compare-exchange included, once
      the call has ended that is the outcome. */
  lemma SoloExact<T>(c: Config, run: seq<Sys<T>>, sched: seq<(Tid, Action<T>)>, i: nat, t: Tid, req: Req<T>,
                     rest: seq<Sys<T>>, path: seq<(Tid, Action<T>)>)
    requires IsRun(c, run, sched) && i < |run| && Quiet(run[i]) && req.N() > 0
    requires IsPath(c, rest, path) && rest[0] == run[i] && path != [] && path[0] == (t, Call(req)) && Alone(path[1..], t)
    ensures rest[|path|].OpOf(t).Idle? ==> |path| > 1 && Outcome(c, run[i].mem, rest[|path|].mem, req)
  {
    RunKeepsInv(c, run, sched, i);
    RunStep(c, rest, path, 0);
    hide Inv, Step, Quiet, Outcome;
    SoloStart(c, run[i], t, req, rest[1]);
    SoloAlong(c, run[i].mem, rest[1..], path[1..], t, req);
  }
}
