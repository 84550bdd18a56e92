/** The worker loop of the RDMA bench: posted work requests, and receive buffers that are held
    until the GPU event recorded after their read is done. The GPU stream, the transport and the
    peer are inputs. */
module RdmaWindow {
  import opened Words

  const MAX_WORKLOAD_INFLIGHT: nat := 63
  const EVENT_POOL_SIZE: nat := 64

  /** The in-flight cap for a requested value (0: none requested) and a receive depth. */
  function InflightCap(requested: nat, rxDepth: nat): nat {
    var cap := if requested > 0 then requested else Min(rxDepth / 2, 32);
    Max(1, Min(Min(cap, MAX_WORKLOAD_INFLIGHT), rxDepth))
  }

  /** The cap stays below the event pool and, for any real depth, within the posted receives; short of
      that it is what was requested, or half the depth but at most 32. */
  lemma CapBelowPool(requested: nat, rxDepth: nat)
    ensures 1 <= InflightCap(requested, rxDepth) < EVENT_POOL_SIZE
    ensures rxDepth >= 1 ==> InflightCap(requested, rxDepth) <= rxDepth
    ensures 1 <= requested < EVENT_POOL_SIZE && requested <= rxDepth ==> InflightCap(requested, rxDepth) == requested
    ensures requested >= EVENT_POOL_SIZE && rxDepth >= EVENT_POOL_SIZE ==> InflightCap(requested, rxDepth) == EVENT_POOL_SIZE - 1
    ensures requested > rxDepth && 1 <= rxDepth < EVENT_POOL_SIZE ==> InflightCap(requested, rxDepth) == rxDepth
    ensures requested == 0 && 2 <= rxDepth <= 64 ==> InflightCap(requested, rxDepth) == rxDepth / 2
    ensures requested == 0 && rxDepth >= 64 ==> InflightCap(requested, rxDepth) == 32
  {
  }

  // ---------- State ----------

  /** A receive completion and the event recorded after its read. Buffers are numbered in the
      order their completions arrive, events by their place in the pool. */
  datatype Held = Held(buf: nat, event: nat)

  /** A freed buffer, and how much of the GPU stream had finished when it was freed. */
  datatype Freed = Freed(buf: nat, at: nat)

  function FreedBufs(freed: seq<Freed>): (r: seq<nat>)
    ensures |r| == |freed|
  {
    seq(|freed|, i requires 0 <= i < |freed| => freed[i].buf)
  }

  function Bufs(held: seq<Held>): (r: seq<nat>)
    ensures |r| == |held|
  {
    seq(|held|, i requires 0 <= i < |held| => held[i].buf)
  }

  function Events(held: seq<Held>): (r: seq<nat>)
    ensures |r| == |held|
  {
    seq(|held|, i requires 0 <= i < |held| => held[i].event)
  }

  function Upto(n: nat): (r: seq<nat>)
    ensures |r| == n
  {
    seq(n, i requires 0 <= i => i)
  }

  /** Every event of the pool is free or held, and only once. */
  predicate EventsOk(free: seq<nat>, held: seq<Held>, pool: nat) {
    multiset(free) + multiset(Events(held)) == multiset(Upto(pool))
  }

  /** Every completion received so far is freed or held, and only once. */
  predicate BuffersOk(freed: seq<Freed>, held: seq<Held>, received: nat) {
    multiset(FreedBufs(freed)) + multiset(Bufs(held)) == multiset(Upto(received))
  }

  /** The event of a held buffer marks the end of the GPU work that reads it. Work items are
      numbered in stream order. */
  predicate ReadsOk(held: seq<Held>, recorded: map<nat, nat>, readBy: map<nat, nat>) {
    forall i | 0 <= i < |held| ::
      held[i].event in recorded && held[i].buf in readBy && recorded[held[i].event] == readBy[held[i].buf]
  }

  /** At the moment each buffer was freed, the GPU had finished the work that reads it. */
  predicate FreedOk(freed: seq<Freed>, readBy: map<nat, nat>, completed: nat) {
    forall i | 0 <= i < |freed| ::
      freed[i].at <= completed && (freed[i].buf in readBy ==> readBy[freed[i].buf] < freed[i].at)
  }

  /** GPU work reads every receive taken under the workload, except those that completed while no
      receive was outstanding. */
  ghost predicate ReadExactly(readBy: map<nat, nat>, received: nat, unmatched: set<nat>, runWorkload: bool) {
    forall b: nat :: b in readBy <==> runWorkload && b < received && b !in unmatched
  }

  /** Each work item reads one buffer, and buffers are read in the order they arrived. */
  predicate InStreamOrder(readBy: map<nat, nat>, issued: nat) {
    && |readBy| == issued && (forall b | b in readBy :: readBy[b] < issued)
    && (forall b, c | b in readBy && c in readBy && b < c :: readBy[b] < readBy[c])
  }

  lemma NextInOrder(readBy: map<nat, nat>, issued: nat, received: nat)
    requires InStreamOrder(readBy, issued) && forall b | b in readBy :: b < received
    ensures InStreamOrder(readBy[received := issued], issued + 1)
  {
  }

  ghost predicate MatchedOk(received: nat, matched: nat, unmatched: set<nat>) {
    received == matched + |unmatched| && forall b | b in unmatched :: b < received
  }

  /** The first k of `held` were freed in order, each after its own event. */
  predicate FreedInOrder(before: seq<Freed>, after: seq<Freed>, held: seq<Held>, k: nat, recorded: map<nat, nat>)
    requires k <= |held|
  {
    && before <= after && |after| == |before| + k
    && forall j | 0 <= j < k ::
         && after[|before| + j].buf == held[j].buf && held[j].event in recorded
         && recorded[held[j].event] < after[|before| + j].at
  }

  // ---------- Lemmas about the window ----------

  lemma FreedMore(before: seq<Freed>, after: seq<Freed>, held: seq<Held>, k: nat, recorded: map<nat, nat>, f: Freed)
    requires k < |held| && FreedInOrder(before, after, held, k, recorded)
    requires f.buf == held[k].buf && held[k].event in recorded && recorded[held[k].event] < f.at
    ensures FreedInOrder(before, after + [f], held, k + 1, recorded)
  {
  }

  lemma FreedPrefix(before: seq<Freed>, after: seq<Freed>, held: seq<Held>, k: nat, recorded: map<nat, nat>)
    requires k <= |held| && FreedInOrder(before, after, held, k, recorded)
    ensures before <= after
  {
  }

  lemma FreedNone(freed: seq<Freed>, held: seq<Held>, recorded: map<nat, nat>)
    ensures FreedInOrder(freed, freed, held, 0, recorded)
  {
  }

  lemma {:induction false} UptoOnce(n: nat, x: nat)
    ensures multiset(Upto(n))[x] <= 1
    ensures multiset(Upto(n))[x] == 1 <==> x < n
  {
    if n > 0 {
      UptoOnce(n - 1, x);
      assert Upto(n) == Upto(n - 1) + [n - 1];
    }
  }

  lemma UptoNext(n: nat)
    ensures multiset(Upto(n + 1)) == multiset(Upto(n)) + multiset{n}
  {
    assert Upto(n + 1) == Upto(n) + [n];
  }

  lemma HeldNext(held: seq<Held>, h: Held)
    ensures multiset(Bufs(held + [h])) == multiset(Bufs(held)) + multiset{h.buf}
    ensures multiset(Events(held + [h])) == multiset(Events(held)) + multiset{h.event}
  {
    assert Bufs(held + [h]) == Bufs(held) + [h.buf];
    assert Events(held + [h]) == Events(held) + [h.event];
  }

  lemma HeldPop(held: seq<Held>)
    requires held != []
    ensures multiset(Bufs(held)) == multiset{held[0].buf} + multiset(Bufs(held[1..]))
    ensures multiset(Events(held)) == multiset{held[0].event} + multiset(Events(held[1..]))
  {
    assert Bufs(held) == [held[0].buf] + Bufs(held[1..]);
    assert Events(held) == [held[0].event] + Events(held[1..]);
  }

  /** A free event is not held, so recording it again leaves every held one's mark alone. */
  lemma FreeNotHeld(free: seq<nat>, held: seq<Held>, pool: nat, ev: nat)
    requires EventsOk(free, held, pool) && ev in free
    ensures forall i | 0 <= i < |held| :: held[i].event != ev
  {
    UptoOnce(pool, ev);
    assert multiset(free)[ev] >= 1;
    assert multiset(Events(held))[ev] == 0;
    forall i | 0 <= i < |held|
      ensures held[i].event != ev
    {
      assert Events(held)[i] in multiset(Events(held));
    }
  }

  lemma FreedNext(freed: seq<Freed>, f: Freed)
    ensures multiset(FreedBufs(freed + [f])) == multiset(FreedBufs(freed)) + multiset{f.buf}
  {
    assert FreedBufs(freed + [f]) == FreedBufs(freed) + [f.buf];
  }

  /** The next completion has not been seen before. */
  lemma NextIsNew(freed: seq<Freed>, held: seq<Held>, received: nat)
    requires BuffersOk(freed, held, received)
    ensures forall i | 0 <= i < |freed| :: freed[i].buf != received
    ensures forall i | 0 <= i < |held| :: held[i].buf != received
  {
    UptoOnce(received, received);
    assert multiset(FreedBufs(freed))[received] == 0;
    forall i | 0 <= i < |freed|
      ensures freed[i].buf != received
    {
      assert FreedBufs(freed)[i] in multiset(FreedBufs(freed));
    }
    assert multiset(Bufs(held))[received] == 0;
    forall i | 0 <= i < |held|
      ensures held[i].buf != received
    {
      assert Bufs(held)[i] in multiset(Bufs(held));
    }
  }

  lemma FreeCount(free: seq<nat>, held: seq<Held>, pool: nat)
    requires EventsOk(free, held, pool)
    ensures |free| + |held| == pool
  {
    assert |multiset(free) + multiset(Events(held))| == |multiset(free)| + |multiset(Events(held))|;
  }

  // ---------- The window as a value ----------

  /** The GPU stream (work items launched and finished, the item each event was recorded after), the
      free events, the held buffers, and the history: completions taken, buffers freed in order, and
      the work item that reads each buffer. */
  datatype Window = Window(issued: nat, completed: nat, recorded: map<nat, nat>, free: seq<nat>, held: seq<Held>,
                           received: nat, freed: seq<Freed>, readBy: map<nat, nat>)

  predicate Good(w: Window, pool: nat) {
    && EventsOk(w.free, w.held, pool) && BuffersOk(w.freed, w.held, w.received)
    && ReadsOk(w.held, w.recorded, w.readBy) && FreedOk(w.freed, w.readBy, w.completed)
    && w.completed <= w.issued
    && (forall e | e in w.recorded :: w.recorded[e] < w.issued)
    && (forall b | b in w.readBy :: b < w.received) && InStreamOrder(w.readBy, w.issued)
  }

  /** History is only added to, and the stream only advances. */
  predicate Grows(w: Window, w': Window) {
    && w.freed <= w'.freed && w.completed <= w'.completed && w.received <= w'.received
    && forall b | b in w.readBy :: b in w'.readBy && w'.readBy[b] == w.readBy[b]
  }

  lemma GrowsOn(a: Window, b: Window, c: Window)
    requires Grows(a, b) && Grows(b, c)
    ensures Grows(a, c)
  {
  }

  /** The oldest held buffer is freed once its event is done. */
  function Popped(w: Window): Window
    requires w.held != []
  {
    w.(held := w.held[1..], free := w.free + [w.held[0].event], freed := w.freed + [Freed(w.held[0].buf, w.completed)])
  }

  lemma PoppedGood(w: Window, pool: nat)
    requires Good(w, pool) && w.held != [] && w.recorded[w.held[0].event] < w.completed
    ensures Good(Popped(w), pool)
  {
    hide Bufs, Events, Upto, FreedBufs;
    HeldPop(w.held);
    FreedNext(w.freed, Freed(w.held[0].buf, w.completed));
    var p := Popped(w);
    assert EventsOk(p.free, p.held, pool);
    assert BuffersOk(p.freed, p.held, p.received);
  }

  /** A new completion is held under a freshly recorded event. */
  function Holding(w: Window): Window
    requires w.free != []
  {
    var event := w.free[|w.free| - 1];
    Window(w.issued + 1, w.completed, w.recorded[event := w.issued], w.free[..|w.free| - 1],
           w.held + [Held(w.received, event)], w.received + 1, w.freed, w.readBy[w.received := w.issued])
  }

  lemma HoldingEvents(free: seq<nat>, held: seq<Held>, pool: nat, buf: nat)
    requires EventsOk(free, held, pool) && free != []
    ensures EventsOk(free[..|free| - 1], held + [Held(buf, free[|free| - 1])], pool)
  {
    hide Bufs, Events, Upto;
    var event := free[|free| - 1];
    assert free == free[..|free| - 1] + [event];
    HeldNext(held, Held(buf, event));
  }

  lemma HoldingBuffers(freed: seq<Freed>, held: seq<Held>, received: nat, event: nat)
    requires BuffersOk(freed, held, received)
    ensures BuffersOk(freed, held + [Held(received, event)], received + 1)
  {
    hide Bufs, Events, Upto, FreedBufs;
    HeldNext(held, Held(received, event));
    UptoNext(received);
  }

  lemma HoldingGood(w: Window, pool: nat)
    requires Good(w, pool) && w.free != []
    ensures Good(Holding(w), pool)
  {
    hide EventsOk, BuffersOk, InStreamOrder;
    var event := w.free[|w.free| - 1];
    NextInOrder(w.readBy, w.issued, w.received);
    FreeNotHeld(w.free, w.held, pool, event);
    NextIsNew(w.freed, w.held, w.received);
    HoldingEvents(w.free, w.held, pool, w.received);
    HoldingBuffers(w.freed, w.held, w.received, event);
  }

  /** A new completion is freed after the whole stream has been waited for. */
  function Synced(w: Window): Window {
    w.(issued := w.issued + 1, completed := w.issued + 1, received := w.received + 1,
       freed := w.freed + [Freed(w.received, w.issued + 1)], readBy := w.readBy[w.received := w.issued])
  }

  lemma SyncedGood(w: Window, pool: nat)
    requires Good(w, pool)
    ensures Good(Synced(w), pool)
  {
    hide Bufs, Events, Upto, FreedBufs, InStreamOrder;
    NextInOrder(w.readBy, w.issued, w.received);
    NextIsNew(w.freed, w.held, w.received);
    UptoNext(w.received);
    FreedNext(w.freed, Freed(w.received, w.issued + 1));
    assert BuffersOk(Synced(w).freed, w.held, w.received + 1);
  }

  /** A new completion that no GPU work reads is freed at once. */
  function Unread(w: Window): Window {
    w.(received := w.received + 1, freed := w.freed + [Freed(w.received, w.completed)])
  }

  lemma UnreadGood(w: Window, pool: nat)
    requires Good(w, pool)
    ensures Good(Unread(w), pool)
  {
    hide Bufs, Events, Upto, FreedBufs;
    UptoNext(w.received);
    FreedNext(w.freed, Freed(w.received, w.completed));
    assert BuffersOk(Unread(w).freed, w.held, w.received + 1);
  }

  // ---------- The worker ----------

  /** What polling for a completion may return. */
  datatype Completion = SendDone | RecvDone | OtherDone

  /** A polled completion, whether recording its event succeeds, and how far the GPU gets meanwhile. */
  datatype Poll = Poll(what: Completion, recordOk: bool, gpu: nat -> nat, gpu': nat -> nat)

  /** What the outside world does in one turn of the loop. */
  datatype Env = Env(stopped: bool, accepts: nat, completions: seq<Poll>, acceptsAgain: nat, sendAccepts: nat)

  datatype Depths = Depths(tx: nat, rx: nat, receives: bool, sends: bool)

  // ---------- What a run of the outside world amounts to ----------

  /** Outstanding requests and the completions so far: sends and receives that answered a request,
      receives in all, those among them that answered none, and the others, which are freed at once. */
  datatype Flow = Flow(outSend: nat, outRecv: nat, sent: nat, matched: nat, received: nat, unmatched: set<nat>, others: nat)

  function Taken(f: Flow, c: Completion): Flow {
    match c
    case SendDone =>
      if f.outSend > 0 then f.(outSend := f.outSend - 1, sent := f.sent + 1, others := f.others + 1)
      else f.(others := f.others + 1)
    case RecvDone =>
      if f.outRecv > 0 then f.(outRecv := f.outRecv - 1, matched := f.matched + 1, received := f.received + 1)
      else f.(received := f.received + 1, unmatched := f.unmatched + {f.received})
    case OtherDone => f.(others := f.others + 1)
  }

  function TakenAll(f: Flow, polls: seq<Poll>): Flow {
    if polls == [] then f else Taken(TakenAll(f, polls[..|polls| - 1]), polls[|polls| - 1].what)
  }

  /** Receives are posted up to the depth, as far as the transport accepts them. */
  function Refilled(f: Flow, accepts: nat, d: Depths): Flow {
    if d.receives && f.outRecv < d.rx then f.(outRecv := f.outRecv + Min(accepts, d.rx - f.outRecv)) else f
  }

  /** Sends too, unless receives are wanted and none is posted. */
  function Sent(f: Flow, accepts: nat, d: Depths): Flow {
    if d.sends && (!d.receives || f.outRecv > 0) && f.outSend < d.tx
    then f.(outSend := f.outSend + Min(accepts, d.tx - f.outSend)) else f
  }

  function AfterTurn(f: Flow, t: Env, d: Depths): Flow {
    if t.stopped then TakenAll(f, t.completions)
    else Sent(Refilled(TakenAll(Refilled(f, t.accepts, d), t.completions), t.acceptsAgain, d), t.sendAccepts, d)
  }

  function AfterTurns(f: Flow, turns: seq<Env>, d: Depths): Flow {
    if turns == [] then f else AfterTurn(AfterTurns(f, turns[..|turns| - 1], d), turns[|turns| - 1], d)
  }

  /** Completions of one kind among those polled, and over a whole run. */
  function Polled(polls: seq<Poll>, c: Completion): nat {
    if polls == [] then 0 else Polled(polls[..|polls| - 1], c) + if polls[|polls| - 1].what == c then 1 else 0
  }

  function Reported(turns: seq<Env>, c: Completion): nat {
    if turns == [] then 0 else Reported(turns[..|turns| - 1], c) + Polled(turns[|turns| - 1].completions, c)
  }

  function Between(lo: nat, hi: nat): (r: set<nat>)
    ensures forall b: nat :: b in r <==> lo <= b < hi
  {
    if lo >= hi then {} else Between(lo, hi - 1) + {hi - 1}
  }

  /** The receives among those polled that find no posted one to answer. */
  function Excess(f: Flow, polls: seq<Poll>): set<nat> {
    Between(f.received + Min(f.outRecv, Polled(polls, RecvDone)), f.received + Polled(polls, RecvDone))
  }

  /** Polling counts a send for every send reported, as long as one is outstanding, and releases its
      place; the same for receives, the first of which answer the posted ones and the rest none. */
  lemma {:induction false} PolledFlow(f: Flow, polls: seq<Poll>)
    ensures var g := TakenAll(f, polls);
            && g.sent == f.sent + Min(f.outSend, Polled(polls, SendDone))
            && g.outSend == f.outSend - Min(f.outSend, Polled(polls, SendDone))
            && g.matched == f.matched + Min(f.outRecv, Polled(polls, RecvDone))
            && g.outRecv == f.outRecv - Min(f.outRecv, Polled(polls, RecvDone))
            && g.received == f.received + Polled(polls, RecvDone)
            && g.unmatched == f.unmatched + Excess(f, polls)
            && g.others == f.others + Polled(polls, SendDone) + Polled(polls, OtherDone)
  {
    if polls != [] {
      PolledFlow(f, polls[..|polls| - 1]);
    }
  }

  /** Up to the depth every receive the transport accepts is posted, and every send unless receives are
      wanted and none is posted; nothing else changes. */
  lemma PostedFlow(f: Flow, accepts: nat, d: Depths)
    ensures var g := Refilled(f, accepts, d);
            && g == f.(outRecv := g.outRecv)
            && (f.outRecv <= d.rx ==> g.outRecv == if d.receives then Min(f.outRecv + accepts, d.rx) else f.outRecv)
    ensures var g := Sent(f, accepts, d);
            && g == f.(outSend := g.outSend)
            && (f.outSend <= d.tx ==>
                  g.outSend == if d.sends && (d.receives ==> f.outRecv > 0) then Min(f.outSend + accepts, d.tx) else f.outSend)
  {
  }

  /** While the transport accepts, every turn leaves both queues full, until the worker is stopped. */
  lemma TurnFills(f: Flow, t: Env, d: Depths)
    requires f.outSend <= d.tx && f.outRecv <= d.rx
    ensures var g := AfterTurn(f, t, d);
            && g.outSend <= d.tx && g.outRecv <= d.rx
            && (!t.stopped && d.receives && t.acceptsAgain >= d.rx ==> g.outRecv == d.rx)
            && (!t.stopped && d.sends && t.sendAccepts >= d.tx && (d.receives ==> g.outRecv > 0) ==> g.outSend == d.tx)
  {
    hide TakenAll, Polled, Refilled, Sent, Excess;
    PolledFlow(f, t.completions);
    var filled := Refilled(f, t.accepts, d);
    PostedFlow(f, t.accepts, d);
    PolledFlow(filled, t.completions);
    var taken := TakenAll(filled, t.completions);
    PostedFlow(taken, t.acceptsAgain, d);
    PostedFlow(Refilled(taken, t.acceptsAgain, d), t.sendAccepts, d);
  }

  /** What is outstanding when the completions of a turn are polled. */
  function AtPoll(f: Flow, t: Env, d: Depths): Flow {
    if t.stopped then f else Refilled(f, t.accepts, d)
  }

  /** The transport never reports more than is posted and unanswered. */
  ghost predicate NeverAhead(f: Flow, turns: seq<Env>, d: Depths) {
    forall k | 0 <= k < |turns| ::
      var g := AtPoll(AfterTurns(f, turns[..k], d), turns[k], d);
      Polled(turns[k].completions, SendDone) <= g.outSend && Polled(turns[k].completions, RecvDone) <= g.outRecv
  }

  lemma AheadPrefix(f: Flow, turns: seq<Env>, d: Depths)
    requires turns != [] && NeverAhead(f, turns, d)
    ensures NeverAhead(f, turns[..|turns| - 1], d)
  {
    hide AfterTurns, AtPoll, Polled;
    var init := turns[..|turns| - 1];
    forall k | 0 <= k < |init|
      ensures var g := AtPoll(AfterTurns(f, init[..k], d), init[k], d);
              Polled(init[k].completions, SendDone) <= g.outSend && Polled(init[k].completions, RecvDone) <= g.outRecv
    {
      assert init[..k] == turns[..k] && init[k] == turns[k];
    }
  }

  lemma TurnFlow(f: Flow, t: Env, d: Depths)
    ensures var g, p := AfterTurn(f, t, d), AtPoll(f, t, d);
            && g.received == f.received + Polled(t.completions, RecvDone)
            && g.others == f.others + Polled(t.completions, SendDone) + Polled(t.completions, OtherDone)
            && g.sent == f.sent + Min(p.outSend, Polled(t.completions, SendDone))
            && g.matched == f.matched + Min(p.outRecv, Polled(t.completions, RecvDone))
            && g.unmatched == f.unmatched + Excess(p, t.completions)
  {
    hide TakenAll, Polled, Refilled, Sent, Excess;
    PostedFlow(f, t.accepts, d);
    var taken := TakenAll(AtPoll(f, t, d), t.completions);
    PolledFlow(AtPoll(f, t, d), t.completions);
    PostedFlow(taken, t.acceptsAgain, d);
    PostedFlow(Refilled(taken, t.acceptsAgain, d), t.sendAccepts, d);
  }

  lemma NoExcess(f: Flow, polls: seq<Poll>)
    requires Polled(polls, RecvDone) <= f.outRecv
    ensures Excess(f, polls) == {}
  {
    hide Polled;
  }

  /** Over a run every receive completion that was reported is taken and every other one is freed. If
      the transport never reports more than was posted, each one reported is counted as sent or
      received, and no receive is left without a posted one. */
  lemma {:induction false} ReportedFlow(f: Flow, turns: seq<Env>, d: Depths)
    ensures var g := AfterTurns(f, turns, d);
            && g.received == f.received + Reported(turns, RecvDone)
            && g.others == f.others + Reported(turns, SendDone) + Reported(turns, OtherDone)
            && f.sent <= g.sent <= f.sent + Reported(turns, SendDone)
            && f.matched <= g.matched <= f.matched + Reported(turns, RecvDone)
            && (NeverAhead(f, turns, d) ==>
                  && g.sent == f.sent + Reported(turns, SendDone) && g.matched == f.matched + Reported(turns, RecvDone)
                  && g.unmatched == f.unmatched)
  {
    hide AfterTurn, Polled, Excess, AtPoll;
    if turns != [] {
      var n := |turns| - 1;
      var last, before := turns[n], AfterTurns(f, turns[..n], d);
      ReportedFlow(f, turns[..n], d);
      TurnFlow(before, last, d);
      if NeverAhead(f, turns, d) {
        AheadPrefix(f, turns, d);
        NoExcess(AtPoll(before, last, d), last.completions);
      }
    }
  }

  class RdmaWorker {
    const cap: nat
    const pool: nat
    const txDepth: nat
    const rxDepth: nat
    const receives: bool
    const sends: bool
    const runWorkload: bool

    // The GPU stream: work items launched and finished, and the item each event was recorded after.
    var issued: nat
    var completed: nat
    var recorded: map<nat, nat>
    var freeEvents: seq<nat>
    var held: seq<Held>
    var received: nat   // receive completions taken so far; the next one gets this number

    var outSend: nat
    var outRecv: nat
    var sendCompletions: nat
    var recvCompletions: nat

    ghost var sendPosts: nat
    ghost var recvPosts: nat
    ghost var freed: seq<Freed>
    ghost var readBy: map<nat, nat>
    ghost var unmatched: set<nat>   // receives that completed while none was outstanding
    ghost var others: nat           // other completions, freed at once

    ghost function Depth(): Depths {
      Depths(txDepth, rxDepth, receives, sends)
    }

    ghost function Counts(): Flow
      reads `outSend, `outRecv, `sendCompletions, `recvCompletions, `received, `unmatched, `others
    {
      Flow(outSend, outRecv, sendCompletions, recvCompletions, received, unmatched, others)
    }

    ghost predicate CountsOk()
      reads `sendPosts, `recvPosts, `sendCompletions, `recvCompletions, `outSend, `outRecv, `received, `unmatched
    {
      && sendPosts == sendCompletions + outSend && outSend <= txDepth
      && recvPosts == recvCompletions + outRecv && outRecv <= rxDepth
      && MatchedOk(received, recvCompletions, unmatched)
    }

    ghost function Win(): Window
      reads `issued, `completed, `recorded, `freeEvents, `held, `received, `freed, `readBy
    {
      Window(issued, completed, recorded, freeEvents, held, received, freed, readBy)
    }

    ghost predicate WindowOk()
      reads `issued, `completed, `recorded, `freeEvents, `held, `received, `freed, `readBy
    {
      Good(Win(), pool)
    }

    /** Holds whenever the next completion is polled. */
    ghost predicate Valid()
      reads this
    {
      && CountsOk() && WindowOk() && cap >= 1 && |held| < cap
      && ReadExactly(readBy, received, unmatched, runWorkload)
    }

    constructor (requested: nat, pool: nat, txDepth: nat, rxDepth: nat, receives: bool, sends: bool, runWorkload: bool)
      requires txDepth >= 1 && rxDepth >= 1
      ensures Valid() && cap == InflightCap(requested, rxDepth) && this.pool == pool
      ensures Counts() == Flow(0, 0, 0, 0, 0, {}, 0) && held == [] && freed == []
    {
      CapBelowPool(requested, rxDepth);
      cap := InflightCap(requested, rxDepth);
      this.pool, this.txDepth, this.rxDepth := pool, txDepth, rxDepth;
      this.receives, this.sends, this.runWorkload := receives, sends, runWorkload;
      issued, completed, recorded, freeEvents, held := 0, 0, map[], Upto(pool), [];
      outSend, outRecv, sendCompletions, recvCompletions := 0, 0, 0, 0;
      sendPosts, recvPosts, received, freed, readBy, unmatched, others := 0, 0, 0, [], map[], {}, 0;
    }

    /** free_tx_burst and release_event of the oldest held buffer, whose event is done. */
    method FreeFront()
      requires WindowOk() && held != [] && held[0].event in recorded && recorded[held[0].event] < completed
      modifies `held, `freeEvents, `freed
      ensures WindowOk() && held == old(held)[1..]
      ensures freed == old(freed) + [Freed(old(held)[0].buf, completed)]
    {
      hide Good;
      PoppedGood(Win(), pool);
      freed := freed + [Freed(held[0].buf, completed)];
      freeEvents := freeEvents + [held[0].event];
      held := held[1..];
    }

    /** event_done, while the GPU may advance by any amount of finished work. */
    method EventDone(event: nat, advance: nat) returns (done: bool)
      requires WindowOk() && event in recorded
      modifies `completed
      ensures WindowOk() && old(completed) <= completed
      ensures done <==> recorded[event] < completed
    {
      completed := Min(issued, completed + advance);
      done := recorded[event] < completed;
    }

    /** reclaim_completed: frees held buffers from the front, in order and each after its event,
        until the front's event is not done. */
    method ReclaimCompleted(gpu: nat -> nat)
      requires WindowOk()
      modifies `completed, `held, `freeEvents, `freed
      ensures WindowOk() && completed >= old(completed)
      ensures |held| <= |old(held)| && held == old(held)[|old(held)| - |held|..]
      ensures FreedInOrder(old(freed), freed, old(held), |old(held)| - |held|, recorded) && Grows(old(Win()), Win())
      ensures held != [] ==> held[0].event in recorded && recorded[held[0].event] >= completed
      ensures old(held) != [] && recorded[old(held)[0].event] < old(completed) ==> |held| < |old(held)|
    {
      hide WindowOk, ReadsOk, FreedInOrder, Grows;
      ghost var w := Win();
      FreedNone(freed, held, recorded);
      var i := 0;
      while held != []
        invariant WindowOk() && completed >= old(completed)
        invariant |held| <= |old(held)| && held == old(held)[|old(held)| - |held|..]
        invariant FreedInOrder(old(freed), freed, old(held), |old(held)| - |held|, recorded)
        decreases |held|
      {
        MarkOf(0);
        var done := EventDone(held[0].event, gpu(i));
        if !done {
          break;
        }
        FreedMore(old(freed), freed, old(held), |old(held)| - |held|, recorded, Freed(held[0].buf, completed));
        FreeFront();
        i := i + 1;
      }
      FreedPrefix(old(freed), freed, old(held), |old(held)| - |held|, recorded);
      FreedOnly(w, Win());
    }

    /** record_event: the most recently freed event, unless none is free or recording fails. */
    method RecordEvent(recordOk: bool) returns (ok: bool, event: nat)
      requires issued > 0
      modifies `recorded, `freeEvents
      ensures ok <==> recordOk && old(freeEvents) != []
      ensures !ok ==> recorded == old(recorded) && freeEvents == old(freeEvents)
      ensures ok ==> event == old(freeEvents)[|old(freeEvents)| - 1]
      ensures ok ==> freeEvents == old(freeEvents)[..|old(freeEvents)| - 1] && recorded == old(recorded)[event := issued - 1]
    {
      if freeEvents == [] {
        return false, 0;
      }
      event := freeEvents[|freeEvents| - 1];
      freeEvents := freeEvents[..|freeEvents| - 1];
      if !recordOk {
        freeEvents := freeEvents + [event];
        return false, 0;
      }
      recorded := recorded[event := issued - 1];
      return true, event;
    }

    /** The GPU part of a receive completion: hold its buffer until its event is done, or wait for
        the whole stream and free it at once when no event could be recorded. */
    method HoldReceive(recordOk: bool) returns (holding: bool)
      requires WindowOk()
      modifies `issued, `completed, `recorded, `freeEvents, `held, `received, `freed, `readBy
      ensures WindowOk() && received == old(received) + 1
      ensures holding <==> recordOk && old(freeEvents) != []
      ensures readBy == old(readBy)[old(received) := old(issued)]
      ensures holding ==> |held| == |old(held)| + 1 && held[..|old(held)|] == old(held) && freed == old(freed)
      ensures holding ==> held[|old(held)|].buf == old(received) && completed == old(completed)
      ensures !holding ==> held == old(held) && completed > old(issued) && completed >= old(completed)
      ensures !holding ==> freed == old(freed) + [Freed(old(received), completed)]
      ensures Grows(old(Win()), Win())
    {
      hide Good;
      NotReadYet();
      Bounded(Win(), pool);
      ghost var w := Win();
      SyncedGood(w, pool);
      if freeEvents != [] {
        HoldingGood(w, pool);
      }
      var buf := received;
      received, issued := received + 1, issued + 1;
      readBy := readBy[buf := issued - 1];
      var event;
      holding, event := RecordEvent(recordOk);
      if holding {
        held := held + [Held(buf, event)];
      } else {
        completed := issued;
        freed := freed + [Freed(buf, completed)];
      }
    }

    lemma EnoughEvents()
      requires WindowOk()
      ensures |held| < cap <= pool ==> freeEvents != []
    {
      FreeCount(freeEvents, held, pool);
    }

    /** wait_event on the oldest held buffer. */
    method WaitFront()
      requires WindowOk() && held != []
      modifies `completed
      ensures WindowOk() && held[0].event in recorded && recorded[held[0].event] < completed
      ensures completed >= old(completed)
    {
      MarkOf(0);
      completed := Max(completed, recorded[held[0].event] + 1);
    }

    /** A receive completion that no GPU work reads is freed at once. */
    method FreeUnread()
      requires WindowOk()
      modifies `received, `freed
      ensures WindowOk() && received == old(received) + 1
      ensures freed == old(freed) + [Freed(old(received), completed)]
    {
      hide Good;
      UnreadGood(Win(), pool);
      freed := freed + [Freed(received, completed)];
      received := received + 1;
    }

    /** A matched receive under the workload: launch its read, hold or free it, reclaim what is done,
        and wait for the oldest when the window is full. */
    method TakeReceive(recordOk: bool, gpu: nat -> nat, gpu': nat -> nat) returns (synced: bool)
      requires WindowOk() && cap >= 1 && |held| < cap
      modifies `issued, `completed, `recorded, `freeEvents, `held, `received, `freed, `readBy
      ensures WindowOk() && |held| < cap && Grows(old(Win()), Win())
      ensures received == old(received) + 1 && readBy == old(readBy)[old(received) := old(issued)]
      ensures synced && pool >= cap ==> !recordOk
    {
      hide WindowOk, Grows, FreedInOrder;
      EnoughEvents();
      ghost var w := Win();
      var holding := HoldReceive(recordOk);
      synced := !holding;
      ghost var v := Win();
      ReclaimCompleted(gpu);
      GrowsOn(w, v, Win());
      if |held| >= cap {
        v := Win();
        WaitFront();
        FreedOnly(v, Win());
        GrowsOn(w, v, Win());
        v := Win();
        ReclaimCompleted(gpu');
        GrowsOn(w, v, Win());
      }
    }

    /** A receive completion while receives are outstanding. */
    method MatchReceive(recordOk: bool, gpu: nat -> nat, gpu': nat -> nat) returns (synced: bool)
      requires Valid() && outRecv > 0
      modifies this
      ensures Valid() && Grows(old(Win()), Win()) && received == old(received) + 1
      ensures unchanged(`unmatched, `outSend, `sendPosts, `recvPosts, `sendCompletions, `others)
      ensures recvCompletions == old(recvCompletions) + 1 && outRecv == old(outRecv) - 1
      ensures synced && pool >= cap ==> !recordOk
    {
      hide WindowOk, Grows, ReadExactly, MatchedOk;
      ghost var w := Win();
      ReadMatched(readBy, received, recvCompletions, unmatched, runWorkload, issued);
      outRecv, recvCompletions := outRecv - 1, recvCompletions + 1;
      synced := false;
      if runWorkload {
        synced := TakeReceive(recordOk, gpu, gpu');
      } else {
        FreeUnread();
        FreedOnly(w, Win());
      }
    }

    /** A receive completion while none is outstanding: freed without being counted. */
    method DropReceive()
      requires Valid()
      modifies `unmatched, `received, `freed
      ensures Valid() && Grows(old(Win()), Win()) && received == old(received) + 1
      ensures unmatched == old(unmatched) + {old(received)}
    {
      hide WindowOk, Grows, ReadExactly, MatchedOk;
      ghost var w := Win();
      ReadUnmatched(readBy, received, recvCompletions, unmatched, runWorkload);
      unmatched := unmatched + {received};
      FreeUnread();
      FreedOnly(w, Win());
    }

    /** One completion. Between completions fewer than `cap` buffers are held, so a pool of at
        least `cap` events always has a free one. */
    method HandleCompletion(c: Completion, recordOk: bool, gpu: nat -> nat, gpu': nat -> nat) returns (synced: bool)
      requires Valid()
      modifies this
      ensures Valid() && Grows(old(Win()), Win())
      ensures Counts() == Taken(old(Counts()), c) && sendPosts == old(sendPosts) && recvPosts == old(recvPosts)
      ensures synced && pool >= cap ==> !recordOk
    {
      hide WindowOk, Grows, ReadExactly, MatchedOk;
      StaysSame(Win());
      synced := false;
      if c.SendDone? && outSend > 0 {
        outSend, sendCompletions, others := outSend - 1, sendCompletions + 1, others + 1;
      } else if c.RecvDone? && outRecv > 0 {
        synced := MatchReceive(recordOk, gpu, gpu');
      } else if c.RecvDone? {
        DropReceive();
      } else {
        others := others + 1;
      }
    }

    lemma NotReadYet()
      requires WindowOk()
      ensures received !in readBy
    {
    }

    lemma MarkOf(i: nat)
      requires WindowOk() && i < |held|
      ensures held[i].event in recorded && held[i].buf in readBy && recorded[held[i].event] == readBy[held[i].buf]
      ensures recorded[held[i].event] < issued
    {
    }

    /** post_req: one more outstanding request when there is room and the transport takes it. */
    method PostSend(accepted: bool) returns (posted: bool)
      requires Valid()
      modifies `outSend, `sendPosts
      ensures Valid()
      ensures posted <==> accepted && old(outSend) < txDepth
      ensures sendPosts == old(sendPosts) + if posted then 1 else 0
      ensures outSend == old(outSend) + if posted then 1 else 0
    {
      hide Good;
      if outSend >= txDepth || !accepted {
        return false;
      }
      outSend, sendPosts := outSend + 1, sendPosts + 1;
      return true;
    }

    method PostRecv(accepted: bool) returns (posted: bool)
      requires Valid()
      modifies `outRecv, `recvPosts
      ensures Valid()
      ensures posted <==> accepted && old(outRecv) < rxDepth
      ensures recvPosts == old(recvPosts) + if posted then 1 else 0
      ensures outRecv == old(outRecv) + if posted then 1 else 0
    {
      hide Good;
      if outRecv >= rxDepth || !accepted {
        return false;
      }
      outRecv, recvPosts := outRecv + 1, recvPosts + 1;
      return true;
    }

    /** refill_receives, the transport accepting the first `accepts` requests. */
    method RefillReceives(accepts: nat)
      requires Valid()
      modifies `outRecv, `recvPosts
      ensures Valid() && Counts() == Refilled(old(Counts()), accepts, Depth())
    {
      hide Good;
      var left: nat, more := accepts, true;
      while receives && outRecv < rxDepth && more
        invariant Valid() && outRecv >= old(outRecv) && (!more ==> left == 0)
        invariant accepts == left + (outRecv - old(outRecv)) && (!receives ==> outRecv == old(outRecv))
        decreases rxDepth - outRecv, more
      {
        more := PostRecv(left > 0);
        left := if more then left - 1 else left;
      }
    }

    /** drain_held_recv: wait for every held buffer's event, front to back, and free it. */
    method DrainHeld()
      requires WindowOk()
      modifies `completed, `held, `freeEvents, `freed
      ensures WindowOk() && held == [] && completed >= old(completed)
      ensures FreedInOrder(old(freed), freed, old(held), |old(held)|, recorded)
    {
      hide Good;
      while held != []
        invariant WindowOk() && completed >= old(completed)
        invariant |held| <= |old(held)| && held == old(held)[|old(held)| - |held|..]
        invariant FreedInOrder(old(freed), freed, old(held), |old(held)| - |held|, recorded)
        decreases |held|
      {
        WaitFront();
        FreeFront();
      }
    }

    /** The sends of one turn, the transport accepting the first `accepts` requests. */
    method PostSends(accepts: nat)
      requires Valid()
      modifies `outSend, `sendPosts
      ensures Valid() && Counts() == Sent(old(Counts()), accepts, Depth())
    {
      hide Good;
      if sends && (!receives || outRecv > 0) {
        var left: nat, more := accepts, true;
        while outSend < txDepth && more
          invariant Valid() && outSend >= old(outSend) && (!more ==> left == 0)
          invariant accepts == left + (outSend - old(outSend))
          decreases txDepth - outSend, more
        {
          more := PostSend(left > 0);
          left := if more then left - 1 else left;
        }
      }
    }

    /** The completions polled in one turn. */
    method TakeCompletions(polls: seq<Poll>)
      requires Valid()
      modifies this
      ensures Valid() && Grows(old(Win()), Win())
      ensures Counts() == TakenAll(old(Counts()), polls)
      ensures sendPosts == old(sendPosts) && recvPosts == old(recvPosts)
    {
      hide Valid, Grows, Taken;
      ghost var w := Win();
      StaysSame(w);
      assert polls[..0] == [];
      for i := 0 to |polls|
        invariant Valid() && Grows(w, Win()) && Counts() == TakenAll(old(Counts()), polls[..i])
        invariant sendPosts == old(sendPosts) && recvPosts == old(recvPosts)
      {
        assert polls[..i + 1][..i] == polls[..i];
        var p := polls[i];
        ghost var v := Win();
        var synced := HandleCompletion(p.what, p.recordOk, p.gpu, p.gpu');
        GrowsOn(w, v, Win());
      }
      assert polls[..|polls|] == polls;
    }

    /** One turn of the worker loop: refill, completions, refill, sends. */
    method Turn(t: Env)
      requires Valid()
      modifies this
      ensures Valid() && Grows(old(Win()), Win())
      ensures Counts() == AfterTurn(old(Counts()), t, Depth())
    {
      hide Valid, Grows, TakenAll, Refilled, Sent;
      if !t.stopped {
        RefillReceives(t.accepts);
      }
      TakeCompletions(t.completions);
      if !t.stopped {
        RefillReceives(t.acceptsAgain);
        PostSends(t.sendAccepts);
      }
    }

    /** The worker loop, whatever happens in each turn and whenever it ends, and the drain after it.
        Every receive completion the transport reported has been freed exactly once, every other one
        at once; when a buffer was freed the GPU had finished the work that reads it, which there is
        exactly for the receives that answered a posted one. */
    method Work(turns: seq<Env>)
      requires Valid()
      modifies this
      ensures WindowOk() && CountsOk() && held == [] && Grows(old(Win()), Win())
      ensures Counts() == AfterTurns(old(Counts()), turns, Depth())
      ensures received == old(received) + Reported(turns, RecvDone)
      ensures others == old(others) + Reported(turns, SendDone) + Reported(turns, OtherDone)
      ensures NeverAhead(old(Counts()), turns, Depth()) ==>
                && sendCompletions == old(sendCompletions) + Reported(turns, SendDone)
                && recvCompletions == old(recvCompletions) + Reported(turns, RecvDone) && unmatched == old(unmatched)
                && outSend == old(outSend) + (sendPosts - old(sendPosts)) - Reported(turns, SendDone)
                && outRecv == old(outRecv) + (recvPosts - old(recvPosts)) - Reported(turns, RecvDone)
      ensures multiset(FreedBufs(freed)) == multiset(Upto(received))
      ensures FreedOk(freed, readBy, completed)
      ensures ReadExactly(readBy, received, unmatched, runWorkload)
    {
      hide Good, Grows, AfterTurn, Reported, NeverAhead;
      ghost var w := Win();
      StaysSame(w);
      assert turns[..0] == [];
      for i := 0 to |turns|
        invariant Valid() && Grows(w, Win()) && Counts() == AfterTurns(old(Counts()), turns[..i], Depth())
      {
        assert turns[..i + 1][..i] == turns[..i];
        ghost var v := Win();
        Turn(turns[i]);
        GrowsOn(w, v, Win());
      }
      assert turns[..|turns|] == turns;
      ReportedFlow(old(Counts()), turns, Depth());
      ghost var v := Win();
      DrainHeld();
      FreedOnly(v, Win());
      GrowsOn(w, v, Win());
      Drained(Win(), pool);
    }
  }

  lemma ReadMatched(readBy: map<nat, nat>, received: nat, matched: nat, unmatched: set<nat>, runWorkload: bool, item: nat)
    requires ReadExactly(readBy, received, unmatched, runWorkload) && MatchedOk(received, matched, unmatched)
    ensures ReadExactly(if runWorkload then readBy[received := item] else readBy, received + 1, unmatched, runWorkload)
    ensures MatchedOk(received + 1, matched + 1, unmatched)
  {
  }

  lemma ReadUnmatched(readBy: map<nat, nat>, received: nat, matched: nat, unmatched: set<nat>, runWorkload: bool)
    requires ReadExactly(readBy, received, unmatched, runWorkload) && MatchedOk(received, matched, unmatched)
    ensures ReadExactly(readBy, received + 1, unmatched + {received}, runWorkload)
    ensures MatchedOk(received + 1, matched, unmatched + {received})
  {
  }

  lemma StaysSame(w: Window)
    ensures Grows(w, w)
  {
  }

  lemma FreedOnly(w: Window, w': Window)
    requires w.freed <= w'.freed && w.completed <= w'.completed && w.received <= w'.received && w.readBy == w'.readBy
    ensures Grows(w, w')
  {
  }

  lemma Bounded(w: Window, pool: nat)
    requires Good(w, pool)
    ensures w.completed <= w.issued
  {
  }

  lemma Drained(w: Window, pool: nat)
    requires Good(w, pool) && w.held == []
    ensures multiset(FreedBufs(w.freed)) == multiset(Upto(w.received)) && FreedOk(w.freed, w.readBy, w.completed)
  {
    assert Bufs(w.held) == [];
  }
}
