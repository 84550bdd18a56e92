/** Completion accounting of a GPUDirect Storage write. Each device segment is one queued
    entry with a cookie; the driver reports completion events in any order, in batches, and
    possibly more than once. */
module GdsLedger {
  import opened Counting

  datatype CuStatus = Waiting | Pending | Invalid | Canceled | Complete | Timeout | Failed

  predicate Terminal(st: CuStatus) {
    st.Complete? || Failure(st)
  }

  predicate Failure(st: CuStatus) {
    st.Failed? || st.Invalid? || st.Canceled? || st.Timeout?
  }

  datatype Cookie = Cookie(packet: nat, expected: nat)

  /** A reported event; `named` is false for a null cookie pointer. */
  datatype Event = Event(named: bool, cookie: nat, status: CuStatus, ret: nat)

  /** The accounting fields of FileWriteHandle. */
  datatype Ledger = Ledger(
    cookies: seq<Cookie>,
    seen: seq<bool>,
    pending: seq<nat>,
    failed: seq<bool>,
    packetDone: seq<bool>,
    completedPackets: nat,
    failedPackets: nat,
    bytes: nat,
    completedEntries: nat)

  predicate Shaped(l: Ledger) {
    && |l.seen| == |l.cookies| && |l.failed| == |l.packetDone| == |l.pending|
    && forall i | 0 <= i < |l.cookies| :: l.cookies[i].packet < |l.pending|
  }

  /** complete_packet_if_ready. */
  function CompletePacket(l: Ledger, p: nat): Ledger
    requires |l.failed| == |l.packetDone| == |l.pending|
  {
    if p >= |l.pending| || l.packetDone[p] || l.pending[p] != 0 then l
    else if l.failed[p] then l.(packetDone := l.packetDone[p := true], failedPackets := l.failedPackets + 1)
    else l.(packetDone := l.packetDone[p := true], completedPackets := l.completedPackets + 1)
  }

  /** Whether the event settles its entry for the first time. */
  predicate Settles(l: Ledger, e: Event)
    requires Shaped(l)
  {
    e.named && e.cookie < |l.seen| && !l.seen[e.cookie] && Terminal(e.status)
  }

  predicate Bad(e: Event, expected: nat) {
    Failure(e.status) || (e.status.Complete? && e.ret != expected)
  }

  /** The event loop's bookkeeping for the entry itself. */
  function Settle(l: Ledger, e: Event): Ledger
    requires Shaped(l) && Settles(l, e)
  {
    var cookie := l.cookies[e.cookie];
    var p := cookie.packet;
    var bad := Bad(e, cookie.expected);
    l.(seen := l.seen[e.cookie := true],
       completedEntries := l.completedEntries + 1,
       failed := if bad then l.failed[p := true] else l.failed,
       bytes := if bad then l.bytes else l.bytes + e.ret,
       pending := if l.pending[p] > 0 then l.pending[p := l.pending[p] - 1] else l.pending)
  }

  /** The body of poll_handle's event loop. */
  function Apply(l: Ledger, e: Event): Ledger
    requires Shaped(l)
  {
    if Settles(l, e) then CompletePacket(Settle(l, e), l.cookies[e.cookie].packet) else l
  }

  // ---------- What the events mean ----------

  datatype Verdict = Open | Good | Spoiled

  /** What one report of a driver says about a write of `expected` bytes: while it waits or is under way
      nothing is decided, a completion is good if all bytes were written, and everything else is bad. */
  function Meaning(status: CuStatus, ret: nat, expected: nat): Verdict {
    match status
    case Waiting => Open
    case Pending => Open
    case Complete => if ret == expected then Good else Spoiled
    case Invalid => Spoiled
    case Canceled => Spoiled
    case Timeout => Spoiled
    case Failed => Spoiled
  }

  /** The first event that decides an entry is the one that counts. */
  function VerdictOf(cookies: seq<Cookie>, events: seq<Event>, i: nat): Verdict
    requires i < |cookies|
  {
    if events == [] then Open
    else
      var before := VerdictOf(cookies, events[..|events| - 1], i);
      var e := events[|events| - 1];
      if before.Open? && e.named && e.cookie == i then Meaning(e.status, e.ret, cookies[i].expected) else before
  }

  /** The event names entry i and ends it, with constructors spelled out. */
  predicate Ends(e: Event, i: nat) {
    && e.named && e.cookie == i
    && (e.status == Complete || e.status == Failed || e.status == Invalid || e.status == Canceled || e.status == Timeout)
  }

  /** Event j is the first that ends entry i. */
  predicate FirstEnd(events: seq<Event>, i: nat, j: nat) {
    j < |events| && Ends(events[j], i) && forall k | 0 <= k < j :: !Ends(events[k], i)
  }

  lemma {:induction false} FindFirst(events: seq<Event>, i: nat, n: nat) returns (j: nat)
    requires n < |events| && Ends(events[n], i)
    ensures FirstEnd(events, i, j)
  {
    if k: nat :| k < n && Ends(events[k], i) {
      j := FindFirst(events, i, k);
    } else {
      j := n;
    }
  }

  lemma {:induction false} OpenExact(cookies: seq<Cookie>, events: seq<Event>, i: nat)
    requires i < |cookies|
    ensures VerdictOf(cookies, events, i).Open? <==> forall k | 0 <= k < |events| :: !Ends(events[k], i)
  {
    if events != [] {
      var n := |events| - 1;
      OpenExact(cookies, events[..n], i);
      assert forall k | 0 <= k < n :: events[k] == events[..n][k];
    }
  }

  lemma {:induction false} FirstDecides(cookies: seq<Cookie>, events: seq<Event>, i: nat, j: nat)
    requires i < |cookies| && FirstEnd(events, i, j)
    ensures VerdictOf(cookies, events, i) == if events[j].status == Complete && events[j].ret == cookies[i].expected then Good else Spoiled
    decreases |events|
  {
    var n := |events| - 1;
    if j < n {
      FirstDecides(cookies, events[..n], i, j);
    } else {
      OpenExact(cookies, events[..n], i);
    }
  }

  /** An entry is settled if and only if some event that names it is terminal, and good if and only if the
      first such event is a completion with exactly the expected bytes. */
  lemma VerdictExact(cookies: seq<Cookie>, events: seq<Event>, i: nat)
    requires i < |cookies|
    ensures VerdictOf(cookies, events, i).Open? <==> forall k | 0 <= k < |events| :: !Ends(events[k], i)
    ensures VerdictOf(cookies, events, i).Good? <==>
            exists j: nat :: FirstEnd(events, i, j) && events[j].status == Complete && events[j].ret == cookies[i].expected
  {
    hide VerdictOf, Ends, FirstEnd;
    OpenExact(cookies, events, i);
    forall j: nat | FirstEnd(events, i, j)
      ensures j < |events| &&
              VerdictOf(cookies, events, i) == if events[j].status == Complete && events[j].ret == cookies[i].expected then Good else Spoiled
    {
      FirstInside(events, i, j);
      FirstDecides(cookies, events, i, j);
    }
    if k: nat :| k < |events| && Ends(events[k], i) {
      var j := FindFirst(events, i, k);
    }
  }

  lemma FirstInside(events: seq<Event>, i: nat, j: nat)
    requires FirstEnd(events, i, j)
    ensures j < |events| && Ends(events[j], i)
  {
  }

  /** A report that a write waits or is under way changes nothing in the books. */
  lemma UnderWayChangesNothing(l: Ledger, e: Event)
    requires Shaped(l) && (e.status == Waiting || e.status == Pending)
    ensures Apply(l, e) == l
  {
  }

  /** Nor does an event for an entry that has ended, or without a cookie. */
  lemma RepeatChangesNothing(l: Ledger, e: Event)
    requires Shaped(l) && (!e.named || (e.cookie < |l.seen| && l.seen[e.cookie]))
    ensures Apply(l, e) == l
  {
  }

  function Verdicts(cookies: seq<Cookie>, events: seq<Event>): seq<Verdict> {
    seq(|cookies|, i requires 0 <= i < |cookies| => VerdictOf(cookies, events, i))
  }

  /** Entries of packet p that are still open. */
  function OpenFlags(cookies: seq<Cookie>, v: seq<Verdict>, p: nat): seq<bool>
    requires |v| == |cookies|
  {
    seq(|v|, i requires 0 <= i < |v| => cookies[i].packet == p && v[i].Open?)
  }

  ghost predicate AnySpoiled(cookies: seq<Cookie>, v: seq<Verdict>, p: nat)
    requires |v| == |cookies|
  {
    exists i | 0 <= i < |v| :: cookies[i].packet == p && v[i].Spoiled?
  }

  function GoodBytes(cookies: seq<Cookie>, v: seq<Verdict>): nat
    requires |v| == |cookies|
  {
    if v == [] then 0
    else
      var n := |v| - 1;
      (if v[n].Good? then cookies[n].expected else 0) + GoodBytes(cookies[..n], v[..n])
  }

  function Both(a: seq<bool>, b: seq<bool>, sense: bool): seq<bool>
    requires |a| == |b|
  {
    seq(|a|, i requires 0 <= i < |a| => a[i] && b[i] == sense)
  }

  /** The per-entry and per-packet fields are what the verdicts say. */
  ghost predicate EntriesOk(l: Ledger, v: seq<Verdict>) {
    && Shaped(l) && |v| == |l.cookies|
    && (forall i | 0 <= i < |v| :: l.seen[i] <==> !v[i].Open?)
    && (forall p | 0 <= p < |l.pending| :: l.pending[p] == Count(OpenFlags(l.cookies, v, p)))
    && (forall p | 0 <= p < |l.pending| :: l.failed[p] <==> AnySpoiled(l.cookies, v, p))
  }

  /** Every field is what the entries' verdicts say, given `host` bytes written directly. */
  ghost predicate Balanced(l: Ledger, v: seq<Verdict>, host: nat) {
    && EntriesOk(l, v)
    && (forall p | 0 <= p < |l.pending| :: l.packetDone[p] <==> l.pending[p] == 0)
    && CountersOk(l)
    && l.completedEntries == Count(l.seen)
    && l.bytes == host + GoodBytes(l.cookies, v)
  }

  /** The verdicts after one more event. */
  function Judge(cookies: seq<Cookie>, v: seq<Verdict>, e: Event): seq<Verdict>
    requires |v| == |cookies|
  {
    if e.named && e.cookie < |v| && v[e.cookie].Open?
    then v[e.cookie := Meaning(e.status, e.ret, cookies[e.cookie].expected)]
    else v
  }

  lemma VerdictsSnoc(cookies: seq<Cookie>, events: seq<Event>, e: Event)
    ensures Verdicts(cookies, events + [e]) == Judge(cookies, Verdicts(cookies, events), e)
  {
    assert (events + [e])[..|events|] == events;
  }

  // ---------- One event keeps the books balanced ----------

  lemma OpenFlagsAfter(cookies: seq<Cookie>, v: seq<Verdict>, i: nat, x: Verdict, p: nat)
    requires |v| == |cookies| && i < |v| && v[i].Open? && !x.Open?
    ensures Count(OpenFlags(cookies, v[i := x], p)) == Count(OpenFlags(cookies, v, p)) - if cookies[i].packet == p then 1 else 0
  {
    if cookies[i].packet == p {
      CountClear(OpenFlags(cookies, v, p), i);
      assert OpenFlags(cookies, v, p)[i := false] == OpenFlags(cookies, v[i := x], p);
    } else {
      assert OpenFlags(cookies, v, p) == OpenFlags(cookies, v[i := x], p);
    }
  }

  lemma {:induction false} GoodBytesAfter(cookies: seq<Cookie>, v: seq<Verdict>, i: nat, x: Verdict)
    requires |v| == |cookies| && i < |v| && v[i].Open? && !x.Open?
    ensures GoodBytes(cookies, v[i := x]) == GoodBytes(cookies, v) + if x.Good? then cookies[i].expected else 0
  {
    var n := |v| - 1;
    if i == n {
      assert v[i := x][..n] == v[..n];
    } else {
      GoodBytesAfter(cookies[..n], v[..n], i, x);
      assert v[i := x][..n] == v[..n][i := x];
    }
  }

  ghost predicate CountersOk(l: Ledger) {
    && |l.failed| == |l.packetDone|
    && l.completedPackets == Count(Both(l.packetDone, l.failed, false))
    && l.failedPackets == Count(Both(l.packetDone, l.failed, true))
  }

  /** Failing a packet that is not done yet moves no counter. */
  lemma SettleCounters(l: Ledger, e: Event)
    requires Shaped(l) && CountersOk(l) && Settles(l, e) && !l.packetDone[l.cookies[e.cookie].packet]
    ensures CountersOk(Settle(l, e))
  {
    var m := Settle(l, e);
    assert Both(m.packetDone, m.failed, false) == Both(l.packetDone, l.failed, false);
    assert Both(m.packetDone, m.failed, true) == Both(l.packetDone, l.failed, true);
  }

  lemma CompleteCounters(l: Ledger, p: nat)
    requires Shaped(l) && CountersOk(l) && p < |l.pending|
    ensures CountersOk(CompletePacket(l, p))
  {
    var m := CompletePacket(l, p);
    if m != l {
      var side := l.failed[p];
      CountSet(Both(l.packetDone, l.failed, side), p);
      assert Both(m.packetDone, m.failed, side) == Both(l.packetDone, l.failed, side)[p := true];
      assert Both(m.packetDone, m.failed, !side) == Both(l.packetDone, l.failed, !side);
    }
  }

  /** An unsettled entry keeps its packet pending. */
  lemma StillPending(l: Ledger, v: seq<Verdict>, i: nat)
    requires EntriesOk(l, v) && i < |v| && v[i].Open?
    ensures l.pending[l.cookies[i].packet] > 0
  {
    assert OpenFlags(l.cookies, v, l.cookies[i].packet)[i];
    CountNone(OpenFlags(l.cookies, v, l.cookies[i].packet));
  }

  lemma SettleEntries(l: Ledger, v: seq<Verdict>, e: Event)
    requires EntriesOk(l, v) && Settles(l, e)
    ensures EntriesOk(Settle(l, e), Judge(l.cookies, v, e))
  {
    var i := e.cookie;
    var x := if Bad(e, l.cookies[i].expected) then Spoiled else Good;
    var m := Settle(l, e);
    StillPending(l, v, i);
    hide Count, OpenFlags, AnySpoiled;
    forall q | 0 <= q < |m.pending|
      ensures m.pending[q] == Count(OpenFlags(l.cookies, v[i := x], q))
      ensures m.failed[q] <==> AnySpoiled(l.cookies, v[i := x], q)
    {
      OpenFlagsAfter(l.cookies, v, i, x, q);
      SpoiledAfter(l.cookies, v, i, x, q);
    }
  }

  lemma SettleKeeps(l: Ledger, v: seq<Verdict>, host: nat, e: Event)
    requires Balanced(l, v, host) && Settles(l, e)
    ensures Balanced(Apply(l, e), Judge(l.cookies, v, e), host)
  {
    hide Count, OpenFlags, AnySpoiled, GoodBytes, Both, CountersOk;
    var i := e.cookie;
    SettleEntries(l, v, e);
    StillPending(l, v, i);
    CountSet(l.seen, i);
    GoodBytesAfter(l.cookies, v, i, if Bad(e, l.cookies[i].expected) then Spoiled else Good);
    SettleCounters(l, e);
    CompleteCounters(Settle(l, e), l.cookies[i].packet);
  }

  lemma SpoiledAfter(cookies: seq<Cookie>, v: seq<Verdict>, i: nat, x: Verdict, p: nat)
    requires |v| == |cookies| && i < |v| && v[i].Open? && !x.Open?
    ensures AnySpoiled(cookies, v[i := x], p) <==> AnySpoiled(cookies, v, p) || (cookies[i].packet == p && x.Spoiled?)
  {
    var v' := v[i := x];
    if AnySpoiled(cookies, v, p) {
      var k :| 0 <= k < |v| && cookies[k].packet == p && v[k].Spoiled?;
      assert v'[k].Spoiled?;
    }
    if cookies[i].packet == p && x.Spoiled? {
      assert v'[i].Spoiled?;
    }
  }

  function ApplyAll(l: Ledger, events: seq<Event>): Ledger
    requires Shaped(l)
    ensures Shaped(ApplyAll(l, events)) && ApplyAll(l, events).cookies == l.cookies
  {
    if events == [] then l else Apply(ApplyAll(l, events[..|events| - 1]), events[|events| - 1])
  }

  lemma ApplyKeeps(l: Ledger, v: seq<Verdict>, host: nat, e: Event)
    requires Balanced(l, v, host)
    ensures Balanced(Apply(l, e), Judge(l.cookies, v, e), host)
  {
    if Settles(l, e) {
      SettleKeeps(l, v, host, e);
    } else {
      assert Judge(l.cookies, v, e) == v;
    }
  }

  /** For every sequence of events, however ordered, batched or repeated, the books agree with
      the first terminal event of each entry: pending counts are the unsettled entries, a
      packet is failed exactly when one of its entries was spoiled, and each packet is counted
      once, when its last entry settles. */
  lemma {:induction false} BooksFollowEvents(l: Ledger, host: nat, events: seq<Event>)
    requires Balanced(l, Verdicts(l.cookies, []), host)
    ensures Balanced(ApplyAll(l, events), Verdicts(l.cookies, events), host)
  {
    if events != [] {
      var n := |events| - 1;
      BooksFollowEvents(l, host, events[..n]);
      ApplyKeeps(ApplyAll(l, events[..n]), Verdicts(l.cookies, events[..n]), host, events[n]);
      VerdictsSnoc(l.cookies, events[..n], events[n]);
      assert events[..n] + [events[n]] == events;
    }
  }

  /** Two event histories that settle the entries alike leave identical books. */
  lemma OrderDoesNotMatter(l: Ledger, host: nat, a: seq<Event>, b: seq<Event>)
    requires Balanced(l, Verdicts(l.cookies, []), host)
    requires forall i: nat | i < |l.cookies| :: VerdictOf(l.cookies, a, i) == VerdictOf(l.cookies, b, i)
    ensures ApplyAll(l, a) == ApplyAll(l, b)
  {
    BooksFollowEvents(l, host, a);
    BooksFollowEvents(l, host, b);
    SamePackets(l, a);
    SamePackets(l, b);
    assert Verdicts(l.cookies, a) == Verdicts(l.cookies, b);
    SameBooks(ApplyAll(l, a), ApplyAll(l, b), Verdicts(l.cookies, a), host);
  }

  lemma {:induction false} SamePackets(l: Ledger, events: seq<Event>)
    requires Shaped(l)
    ensures |ApplyAll(l, events).pending| == |l.pending|
  {
    if events != [] {
      SamePackets(l, events[..|events| - 1]);
    }
  }

  lemma SameBooks(x: Ledger, y: Ledger, v: seq<Verdict>, host: nat)
    requires Balanced(x, v, host) && Balanced(y, v, host) && x.cookies == y.cookies && |x.pending| == |y.pending|
    ensures x == y
  {
    assert x.seen == y.seen && x.pending == y.pending;
    assert x.failed == y.failed && x.packetDone == y.packetDone;
  }

  /** Once every entry has settled, each packet has been counted exactly once. */
  lemma DrainedCountsEveryPacket(l: Ledger, v: seq<Verdict>, host: nat)
    requires Balanced(l, v, host) && l.completedEntries == |l.cookies|
    ensures forall i | 0 <= i < |v| :: !v[i].Open?
    ensures l.completedPackets + l.failedPackets == |l.pending|
    ensures forall p | 0 <= p < |l.pending| :: l.packetDone[p]
  {
    CountBounds(l.seen, |l.seen|);
    forall p | 0 <= p < |l.pending| ensures l.packetDone[p] {
      CountNone(OpenFlags(l.cookies, v, p));
    }
    CountSplit(l.packetDone, Both(l.packetDone, l.failed, false), Both(l.packetDone, l.failed, true));
    CountBounds(l.packetDone, |l.packetDone|);
  }
}
