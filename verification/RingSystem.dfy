/** The lock-free ring as a transition system: any number of threads, one atomic access
    (or one slot access) per step, and a weak compare-exchange that may fail spuriously.

    The producer and the consumer side run the same protocol: snapshot the side's head,
    load the other side's tail, reserve by compare-exchange, copy the slots, wait for the
    predecessors, publish the tail. They differ only in how much room there is, so each
    step is written once for both sides.

    The guards read only what the code reads: the four cursors modulo 2^32, the slots and
    the thread's own variables. `owner`, `log` and `snap` are history: |owner| and |log| are
    the unwrapped head and tail, owner[p] is the thread that reserved position p, the two
    logs are the published and the delivered values, and snap[t] is the unwrapped head
    behind the snapshot thread t holds. */
module RingSystem {
  import opened Words

  type Tid = nat

  datatype Config = Config(logSize: nat, single: bool) {
    ghost predicate Valid() {
      1 <= logSize <= 31
    }

    function Size(): nat {
      Pow2(logSize)
    }

    function Mask(): nat {
      Size() - 1
    }

    /** `cursor & mask_`. */
    function Slot(cursor: nat): nat {
      And(cursor, Mask())
    }
  }

  datatype Kind = Prod | Cons

  datatype Req<T> = Enqueue(objs: seq<T>) | Dequeue(n: nat) {
    function N(): nat {
      if Enqueue? then |objs| else n
    }

    function Kind(): Kind {
      if Enqueue? then Prod else Cons
    }
  }

  /** Where a thread stands inside enqueue_bulk or dequeue_bulk. */
  datatype Op<T> =
    | Idle
    | Start(req: Req<T>)                               // about to load its side's head
    | Check(req: Req<T>, head: nat)                    // about to load the other tail
    | Reserve(req: Req<T>, head: nat)                  // there is room: about to move the head
    | Copy(req: Req<T>, head: nat, copied: seq<T>)     // owns its slots
    | Publish(req: Req<T>, head: nat, copied: seq<T>)  // its turn: about to store the tail

  datatype Side<T> = Side(head: nat, tail: nat, owner: seq<Tid>, log: seq<T>)

  datatype Mem<T> = Mem(prod: Side<T>, cons: Side<T>, slots: seq<T>) {
    function At(k: Kind): Side<T> {
      if k.Prod? then prod else cons
    }

    function With(k: Kind, side: Side<T>): Mem<T> {
      if k.Prod? then this.(prod := side) else this.(cons := side)
    }
  }

  datatype Sys<T> = Sys(mem: Mem<T>, ops: map<Tid, Op<T>>, snap: map<Tid, nat>) {
    function OpOf(t: Tid): Op<T> {
      if t in ops then ops[t] else Idle
    }

    function SnapOf(t: Tid): nat {
      if t in snap then snap[t] else 0
    }

    function Goto(t: Tid, op: Op<T>): Sys<T> {
      this.(ops := ops[t := op])
    }
  }

  datatype Action<T> =
    | Call(req: Req<T>)
    | LoadHead
    | LoadTail
    | MoveHead(spurious: bool)
    | CopySlot
    | AwaitTurn
    | StoreTail

  ghost predicate Init<T>(c: Config, s: Sys<T>) {
    && s.mem.prod == Side(0, 0, [], []) && s.mem.cons == Side(0, 0, [], [])
    && |s.mem.slots| == c.Size() && s.ops == map[] && s.snap == map[]
  }

  // ---------- Steps ----------

  /** mask + cons_tail - head for producers, prod_tail - head for consumers, in uint32_t. */
  function Room<T>(c: Config, m: Mem<T>, k: Kind, head: nat): nat {
    ((if k.Prod? then c.Mask() + m.cons.tail else m.prod.tail) - head) % U32
  }

  /** Thread t is inside a call on side k. */
  ghost predicate Busy<T>(s: Sys<T>, t: Tid, k: Kind) {
    !s.OpOf(t).Idle? && s.OpOf(t).req.Kind() == k
  }

  ghost predicate Enabled<T>(c: Config, s: Sys<T>, t: Tid, a: Action<T>) {
    var op := s.OpOf(t);
    match a
    case Call(req) =>
      // A single-producer single-consumer ring demands one caller per side.
      && op.Idle? && req.N() < U32
      && (c.single ==> forall u :: !Busy(s, u, req.Kind()))
    case LoadHead => op.Start?
    case LoadTail => op.Check?
    case MoveHead(_) => op.Reserve?
    case CopySlot => op.Copy? && |op.copied| < op.req.N()
    case AwaitTurn => op.Copy? && |op.copied| == op.req.N()
    case StoreTail => op.Publish?
  }

  function DoCall<T>(s: Sys<T>, t: Tid, req: Req<T>): Sys<T> {
    if req.N() == 0 then s else s.Goto(t, Start(req))
  }

  function TakeSnapshot<T>(s: Sys<T>, t: Tid, req: Req<T>): Sys<T> {
    var side := s.mem.At(req.Kind());
    s.Goto(t, Check(req, side.head)).(snap := s.snap[t := |side.owner|])
  }

  /** The call that finds too little room gives up and returns 0. */
  function DoLoadTail<T>(c: Config, s: Sys<T>, t: Tid, req: Req<T>, head: nat): Sys<T> {
    if req.N() > Room(c, s.mem, req.Kind(), head) then s.Goto(t, Idle) else s.Goto(t, Reserve(req, head))
  }

  function Reserved<T>(m: Mem<T>, t: Tid, req: Req<T>, head: nat): Mem<T> {
    var side := m.At(req.Kind());
    m.With(req.Kind(), side.(head := (head + req.N()) % U32, owner := side.owner + seq(req.N(), _ => t)))
  }

  function DoMoveHead<T>(c: Config, s: Sys<T>, t: Tid, req: Req<T>, head: nat, spurious: bool): Sys<T> {
    if c.single || (s.mem.At(req.Kind()).head == head && !spurious)
    then s.(mem := Reserved(s.mem, t, req, head)).Goto(t, Copy(req, head, []))
    else TakeSnapshot(s, t, req)
  }

  function DoCopySlot<T>(c: Config, s: Sys<T>, t: Tid, req: Req<T>, head: nat, copied: seq<T>): Sys<T>
    requires |copied| < req.N() && c.Slot((head + |copied|) % U32) < |s.mem.slots|
  {
    var i := c.Slot((head + |copied|) % U32);
    match req
    case Enqueue(objs) =>
      s.(mem := s.mem.(slots := s.mem.slots[i := objs[|copied|]])).Goto(t, Copy(req, head, copied + [objs[|copied|]]))
    case Dequeue(_) =>
      s.Goto(t, Copy(req, head, copied + [s.mem.slots[i]]))
  }

  function DoAwaitTurn<T>(c: Config, s: Sys<T>, t: Tid, req: Req<T>, head: nat, copied: seq<T>): Sys<T> {
    if c.single || s.mem.At(req.Kind()).tail == head then s.Goto(t, Publish(req, head, copied)) else s
  }

  function Published<T>(m: Mem<T>, req: Req<T>, head: nat, copied: seq<T>): Mem<T> {
    var side := m.At(req.Kind());
    m.With(req.Kind(), side.(tail := (head + req.N()) % U32, log := side.log + copied))
  }

  function DoStoreTail<T>(s: Sys<T>, t: Tid, req: Req<T>, head: nat, copied: seq<T>): Sys<T> {
    s.(mem := Published(s.mem, req, head, copied)).Goto(t, Idle)
  }

  ghost function Next<T>(c: Config, s: Sys<T>, t: Tid, a: Action<T>): Sys<T>
    requires Enabled(c, s, t, a)
    requires a.CopySlot? ==> c.Slot((s.OpOf(t).head + |s.OpOf(t).copied|) % U32) < |s.mem.slots|
  {
    var op := s.OpOf(t);
    match a
    case Call(req) => DoCall(s, t, req)
    case LoadHead => TakeSnapshot(s, t, op.req)
    case LoadTail => DoLoadTail(c, s, t, op.req, op.head)
    case MoveHead(spurious) => DoMoveHead(c, s, t, op.req, op.head, spurious)
    case CopySlot => DoCopySlot(c, s, t, op.req, op.head, op.copied)
    case AwaitTurn => DoAwaitTurn(c, s, t, op.req, op.head, op.copied)
    case StoreTail => DoStoreTail(s, t, op.req, op.head, op.copied)
  }

  // ---------- The invariant ----------

  /** The highest unwrapped head a side may reach. */
  function Limit<T>(c: Config, m: Mem<T>, k: Kind): nat {
    if k.Prod? then |m.cons.log| + c.Mask() else |m.prod.log|
  }

  /** cons_tail <= cons_head <= prod_tail <= prod_head <= cons_tail + mask, unwrapped. */
  ghost predicate Ordered<T>(c: Config, m: Mem<T>) {
    |m.cons.log| <= |m.cons.owner| <= |m.prod.log| <= |m.prod.owner| <= |m.cons.log| + c.Mask()
  }

  ghost predicate Wrapped<T>(m: Mem<T>) {
    && m.prod.head == |m.prod.owner| % U32 && m.prod.tail == |m.prod.log| % U32
    && m.cons.head == |m.cons.owner| % U32 && m.cons.tail == |m.cons.log| % U32
  }

  /** Every entry between the tails sits untouched in its slot. */
  ghost predicate Stored<T>(c: Config, m: Mem<T>)
    requires |m.slots| == c.Size() && Ordered(c, m)
  {
    forall p | |m.cons.log| <= p < |m.prod.log| :: m.slots[p % c.Size()] == m.prod.log[p]
  }

  /** What was delivered is a prefix of what was published. */
  ghost predicate Fifo<T>(m: Mem<T>) {
    m.cons.log <= m.prod.log
  }

  ghost predicate MemOk<T>(c: Config, m: Mem<T>) {
    c.Valid() && |m.slots| == c.Size() && Ordered(c, m) && Wrapped(m) && Stored(c, m) && Fifo(m)
  }

  ghost predicate CopiedOk<T>(c: Config, m: Mem<T>, req: Req<T>, lo: nat, copied: seq<T>)
    requires MemOk(c, m) && |copied| <= req.N() && lo + |copied| <= |m.At(req.Kind()).owner|
  {
    match req
    case Enqueue(objs) =>
      && copied == objs[..|copied|]
      && forall j | 0 <= j < |copied| :: m.slots[(lo + j) % c.Size()] == copied[j]
    case Dequeue(_) => copied == m.prod.log[lo..lo + |copied|]
  }

  /** Positions [lo, lo + n) are thread t's, unpublished, and copied up to |copied|. */
  ghost predicate SegmentOk<T>(c: Config, m: Mem<T>, t: Tid, req: Req<T>, lo: nat, copied: seq<T>)
    requires MemOk(c, m)
  {
    var side := m.At(req.Kind());
    && |side.log| <= lo && lo + req.N() <= |side.owner|
    && (forall p | lo <= p < lo + req.N() :: side.owner[p] == t)
    && |copied| <= req.N() && CopiedOk(c, m, req, lo, copied)
  }

  ghost predicate OpOk<T>(c: Config, m: Mem<T>, t: Tid, op: Op<T>, lo: nat)
    requires MemOk(c, m)
  {
    op.Idle? ||
    (&& 0 < op.req.N() < U32
     && (op.Start? ||
         (&& op.head == lo % U32
          && match op
             case Check(req, _) => lo <= |m.At(req.Kind()).owner|
             case Reserve(req, _) => lo <= |m.At(req.Kind()).owner| && lo + req.N() <= Limit(c, m, req.Kind())
             case Copy(req, _, copied) => SegmentOk(c, m, t, req, lo, copied)
             case Publish(req, _, copied) =>
               SegmentOk(c, m, t, req, lo, copied) && |copied| == req.N() && lo == |m.At(req.Kind()).log|)))
  }

  ghost predicate Holding<T>(s: Sys<T>, t: Tid, k: Kind) {
    (s.OpOf(t).Copy? || s.OpOf(t).Publish?) && s.OpOf(t).req.Kind() == k
  }

  /** Position p belongs to the reservation of a thread that has not published it yet. */
  ghost predicate Covers<T>(s: Sys<T>, t: Tid, k: Kind, p: nat) {
    Holding(s, t, k) && s.SnapOf(t) <= p < s.SnapOf(t) + s.OpOf(t).req.N()
  }

  ghost predicate Tiled<T>(s: Sys<T>, k: Kind) {
    forall p | |s.mem.At(k).log| <= p < |s.mem.At(k).owner| :: Covers(s, s.mem.At(k).owner[p], k, p)
  }

  ghost predicate OnePerSide<T>(s: Sys<T>) {
    && (forall t, u, k | Busy(s, t, k) && Busy(s, u, k) :: t == u)
    && (forall t, k | Busy(s, t, k) && (s.OpOf(t).Check? || s.OpOf(t).Reserve?) :: s.SnapOf(t) == |s.mem.At(k).owner|)
  }

  ghost predicate Inv<T>(c: Config, s: Sys<T>) {
    && MemOk(c, s.mem)
    && (forall t :: OpOk(c, s.mem, t, s.OpOf(t), s.SnapOf(t)))
    && Tiled(s, Prod) && Tiled(s, Cons)
    && (c.single ==> OnePerSide(s))
  }
}
