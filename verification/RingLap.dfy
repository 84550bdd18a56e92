/** Why the runs of the ring carry a lap hypothesis: a two-slot ring reaches, step by step from
    its initial state, a full state in which one thread holds a head snapshot 2^32 positions old. */
module RingLap {
  import opened Words
  import opened RingSystem
  import opened RingProof
  import opened RingTheorems

  const C := Config(1, false)

  /** n positions taken and published, and none in between. */
  ghost predicate Quiet(side: Side<int>, n: nat) {
    side.head == side.tail == n % U32 && |side.owner| == |side.log| == n
  }

  /** Thread 1 waits before its compare-exchange, with the snapshot it took of the empty ring;
      e objects were enqueued since and d dequeued, and no other call is under way. */
  ghost predicate Parked(s: Sys<int>, e: nat, d: nat) {
    && Quiet(s.mem.prod, e) && Quiet(s.mem.cons, d)
    && |s.mem.slots| == 2 && s.OpOf(0).Idle?
    && s.OpOf(1) == Reserve(Enqueue([7]), 0) && s.SnapOf(1) == 0
  }

  ghost predicate Ends(run: seq<Sys<int>>, sched: seq<(Tid, Action<int>)>, s: Sys<int>) {
    IsRun(C, run, sched) && run[|sched|] == s
  }

  /** Some run in which nobody is lapped ends in s. */
  ghost predicate Reached(s: Sys<int>) {
    exists run, sched :: Ends(run, sched, s)
  }

  lemma RunSnoc(run: seq<Sys<int>>, sched: seq<(Tid, Action<int>)>, t: Tid, a: Action<int>, s: Sys<int>)
    requires IsRun(C, run, sched) && Step(C, run[|sched|], t, a, s) && (a.MoveHead? ==> NotLapped(run[|sched|], t))
    ensures IsRun(C, run + [s], sched + [(t, a)])
  {
    hide Step, NotLapped, Init;
  }

  lemma ReachedStep(s: Sys<int>, t: Tid, a: Action<int>, s': Sys<int>)
    requires Reached(s) && Step(C, s, t, a, s') && (a.MoveHead? ==> NotLapped(s, t))
    ensures Reached(s')
  {
    hide Step, NotLapped;
    var run, sched :| Ends(run, sched, s);
    RunSnoc(run, sched, t, a, s');
    assert Ends(run + [s'], sched + [(t, a)], s');
  }

  /** Positions e and d are the next ones of the two sides; a call on side k takes one of them. */
  function Position(k: Kind, e: nat, d: nat): nat {
    if k.Prod? then e else d
  }

  ghost predicate Fits(k: Kind, e: nat, d: nat) {
    if k.Prod? then e == d else e == d + 1
  }

  lemma OneSlot(m: Mem<int>, k: Kind, e: nat, d: nat)
    requires Fits(k, e, d) && m.prod.tail == e % U32 && m.cons.tail == d % U32
    ensures Room(C, m, k, Position(k, e, d) % U32) == 1
  {
    assert C.Mask() == 1;
    if k.Cons? {
      NextWord(d);
    }
  }

  lemma NextWord(d: nat)
    ensures ((d + 1) % U32 - d % U32) % U32 == 1
  {
  }

  ghost predicate Took(s: Sys<int>, s': Sys<int>, req: Req<int>, e: nat, d: nat) {
    && s'.mem == Reserved(s.mem, 0, req, Position(req.Kind(), e, d) % U32)
    && s'.OpOf(0) == Copy(req, Position(req.Kind(), e, d) % U32, [])
    && s'.OpOf(1) == s.OpOf(1) && s'.SnapOf(1) == s.SnapOf(1)
  }

  /** Thread 0 starts a call of one object and takes its position. */
  lemma Take(s: Sys<int>, req: Req<int>, e: nat, d: nat) returns (s': Sys<int>)
    requires Reached(s) && Parked(s, e, d) && req.N() == 1 && Fits(req.Kind(), e, d)
    ensures Reached(s') && Took(s, s', req, e, d)
  {
    hide Reached, Room;
    var head := Position(req.Kind(), e, d) % U32;
    var s1 := DoCall(s, 0, req);
    ReachedStep(s, 0, Call(req), s1);
    var s2 := TakeSnapshot(s1, 0, req);
    ReachedStep(s1, 0, LoadHead, s2);
    OneSlot(s2.mem, req.Kind(), e, d);
    var s3 := DoLoadTail(C, s2, 0, req, head);
    ReachedStep(s2, 0, LoadTail, s3);
    s' := DoMoveHead(C, s3, 0, req, head, false);
    ReachedStep(s3, 0, MoveHead(false), s');
  }

  lemma SlotInside(cursor: nat)
    ensures C.Slot(cursor) < 2
  {
    assert C.Mask() == 1;
    AndMask(cursor, 1);
  }

  ghost predicate Copied(s: Sys<int>, s': Sys<int>, req: Req<int>, e: nat, d: nat) {
    && s'.mem.prod == s.mem.prod && s'.mem.cons == s.mem.cons && |s'.mem.slots| == |s.mem.slots|
    && s'.OpOf(0).Publish? && s'.OpOf(0).req == req && s'.OpOf(0).head == Position(req.Kind(), e, d) % U32
    && |s'.OpOf(0).copied| == 1 && s'.OpOf(1) == s.OpOf(1) && s'.SnapOf(1) == s.SnapOf(1)
  }

  /** It copies the object and finds no predecessor. */
  lemma CopyOne(s: Sys<int>, s': Sys<int>, req: Req<int>, e: nat, d: nat) returns (s'': Sys<int>)
    requires Parked(s, e, d) && req.N() == 1 && Fits(req.Kind(), e, d) && Reached(s') && Took(s, s', req, e, d)
    ensures Reached(s'') && Copied(s', s'', req, e, d)
  {
    hide Reached, Config.Slot;
    var head := Position(req.Kind(), e, d) % U32;
    SlotInside((head + 0) % U32);
    var s1 := DoCopySlot(C, s', 0, req, head, []);
    ReachedStep(s', 0, CopySlot, s1);
    s'' := DoAwaitTurn(C, s1, 0, req, head, s1.OpOf(0).copied);
    ReachedStep(s1, 0, AwaitTurn, s'');
  }

  /** A position taken and published moves a quiet side on by one. */
  lemma QuietAgain(m: Mem<int>, m': Mem<int>, req: Req<int>, copied: seq<int>, e: nat, d: nat)
    requires Quiet(m.prod, e) && Quiet(m.cons, d) && req.N() == 1 && |copied| == 1
    requires var r := Reserved(m, 0, req, Position(req.Kind(), e, d) % U32); m'.prod == r.prod && m'.cons == r.cons
    ensures var p := Published(m', req, Position(req.Kind(), e, d) % U32, copied);
            Quiet(p.prod, e + if req.Enqueue? then 1 else 0) && Quiet(p.cons, d + if req.Enqueue? then 0 else 1)
    ensures Reserved(m, 0, req, Position(req.Kind(), e, d) % U32).slots == m.slots
  {
    SuccWord(e);
    SuccWord(d);
  }

  lemma SuccWord(n: nat)
    ensures (n % U32 + 1) % U32 == (n + 1) % U32
  {
  }

  /** It publishes, and the ring is quiet again. */
  lemma PublishOne(s: Sys<int>, s': Sys<int>, s'': Sys<int>, req: Req<int>, e: nat, d: nat) returns (r: Sys<int>)
    requires Parked(s, e, d) && req.N() == 1 && Took(s, s', req, e, d)
    requires Reached(s'') && Copied(s', s'', req, e, d)
    ensures Reached(r) && Parked(r, e + if req.Enqueue? then 1 else 0, d + if req.Enqueue? then 0 else 1)
  {
    hide Reached, Quiet, Position, Reserved;
    var head := Position(req.Kind(), e, d) % U32;
    QuietAgain(s.mem, s''.mem, req, s''.OpOf(0).copied, e, d);
    r := DoStoreTail(s'', 0, req, head, s''.OpOf(0).copied);
    ReachedStep(s'', 0, StoreTail, r);
  }

  lemma OneCall(s: Sys<int>, req: Req<int>, e: nat, d: nat) returns (s': Sys<int>)
    requires Reached(s) && Parked(s, e, d) && req.N() == 1 && Fits(req.Kind(), e, d)
    ensures Reached(s') && Parked(s', e + if req.Enqueue? then 1 else 0, d + if req.Enqueue? then 0 else 1)
  {
    hide Reached, Parked, Took, Copied;
    var took := Take(s, req, e, d);
    var copied := CopyOne(s, took, req, e, d);
    s' := PublishOne(s, took, copied, req, e, d);
  }

  lemma Park() returns (s: Sys<int>)
    ensures Reached(s) && Parked(s, 0, 0)
  {
    var empty := Side(0, 0, [], []);
    var s0: Sys<int> := Sys(Mem(empty, empty, [0, 0]), map[], map[]);
    assert C.Size() == 2;
    assert Ends([s0], [], s0);
    hide Reached, Room;
    var req := Enqueue([7]);
    var s1 := DoCall(s0, 1, req);
    ReachedStep(s0, 1, Call(req), s1);
    var s2 := TakeSnapshot(s1, 1, req);
    ReachedStep(s1, 1, LoadHead, s2);
    OneSlot(s2.mem, Prod, 0, 0);
    s := DoLoadTail(C, s2, 1, req, 0);
    ReachedStep(s2, 1, LoadTail, s);
  }

  /** Thread 0 passes n objects through the ring, one at a time. */
  lemma {:induction false} Laps(n: nat) returns (s: Sys<int>)
    ensures Reached(s) && Parked(s, n, n)
  {
    hide Reached, Parked;
    if n == 0 {
      s := Park();
    } else {
      var before := Laps(n - 1);
      var full := OneCall(before, Enqueue([0]), n - 1, n - 1);
      s := OneCall(full, Dequeue(1), n, n - 1);
    }
  }

  /** Without the hypothesis the theorems fail: after 2^32 reservations by one thread the
      compare-exchange of another mistakes the lapped head for its own and overfills the ring. */
  lemma LappedReserveOverfills() returns (run: seq<Sys<int>>, sched: seq<(Tid, Action<int>)>)
    ensures IsRun(C, run, sched) && Inv(C, run[|sched|])
    ensures var s := run[|sched|];
            && !NotLapped(s, 1) && Enabled(C, s, 1, MoveHead(false))
            && !Ordered(C, Next(C, s, 1, MoveHead(false)).mem)
  {
    var before := Laps(U32 - 1);
    var s := OneCall(before, Enqueue([0]), U32 - 1, U32 - 1);
    run, sched :| Ends(run, sched, s);
    RunKeepsInv(C, run, sched, |sched|);
    hide Inv, IsRun;
    assert C.Mask() == 1;
  }
}
