/** The file-write handle of common_gds: built from a burst, submitted in batches, polled. */
module GdsHandle {
  import opened Words
  import opened Counting
  import opened GdsLedger
  import opened SegmentWalk

  const MAX_BATCH: nat := 128

  datatype Status = Success | NotReady | GenericFailure | NullPointer

  datatype Batch = Batch(begin: nat, count: nat, done: bool)

  /** What cuFileBatchIOGetStatus returns for a batch. */
  datatype Report = DriverError | Events(events: seq<Event>)

  /** Batches of 1 to 128 entries, one after the other, over entries [0, total). */
  ghost predicate BatchesTile(batches: seq<Batch>, total: nat) {
    if batches == [] then total == 0
    else
      var b := batches[|batches| - 1];
      0 < b.count <= MAX_BATCH && b.begin + b.count == total && BatchesTile(batches[..|batches| - 1], b.begin)
  }

  /** The driver reports a batch's events with the batch's own cookies. */
  ghost predicate EventsOf(b: Batch, reported: seq<Event>) {
    forall e | e in reported && e.named :: b.begin <= e.cookie < b.begin + b.count
  }

  /** Batches whose extents did not change. */
  ghost predicate SameBatches(a: seq<Batch>, b: seq<Batch>) {
    |a| == |b| && forall k | 0 <= k < |a| :: a[k].begin == b[k].begin && a[k].count == b[k].count
  }

  /** Every entry of the batch has settled. */
  predicate AllSeen(b: Batch, seen: seq<bool>) {
    b.begin + b.count <= |seen| && forall x | b.begin <= x < b.begin + b.count :: seen[x]
  }

  /** Only entries of the batch may have changed. */
  predicate SeenWithin(b: Batch, before: seq<bool>, after: seq<bool>) {
    |before| == |after| && forall x | 0 <= x < |before| && !(b.begin <= x < b.begin + b.count) :: before[x] == after[x]
  }

  /** Settling entries of one batch leaves the others as they are. */
  lemma OthersSeen(batches: seq<Batch>, total: nat, j: nat, k: nat, before: seq<bool>, after: seq<bool>)
    requires BatchesTile(batches, total) && j < |batches| && k < |batches| && j != k
    requires SeenWithin(batches[k], before, after)
    ensures AllSeen(batches[j], before) <==> AllSeen(batches[j], after)
  {
    BatchesApart(batches, total, Min(j, k), Max(j, k));
  }

  /** The batches marked done are exactly those whose entries have all settled. */
  ghost predicate Flagged(batches: seq<Batch>, seen: seq<bool>) {
    forall k | 0 <= k < |batches| :: batches[k].done <==> AllSeen(batches[k], seen)
  }

  lemma {:induction false} BatchesApart(batches: seq<Batch>, total: nat, j: nat, k: nat)
    requires BatchesTile(batches, total) && j < k < |batches|
    ensures batches[j].begin + batches[j].count <= batches[k].begin
  {
    var n := |batches| - 1;
    if k < n {
      BatchesApart(batches[..n], batches[n].begin, j, k);
    } else {
      BatchInside(batches[..n], batches[n].begin, j);
    }
  }

  /** The first batch from k on that is not done and whose status the driver fails to give. */
  function Stop(batches: seq<Batch>, reports: seq<Report>, k: nat): (stop: nat)
    requires k <= |batches| == |reports|
    ensures k <= stop <= |batches| && (stop < |batches| ==> !batches[stop].done && reports[stop].DriverError?)
    ensures forall i | k <= i < stop :: batches[i].done || reports[i].Events?
    decreases |batches| - k
  {
    if k == |batches| || (!batches[k].done && reports[k].DriverError?) then k else Stop(batches, reports, k + 1)
  }

  /** The events reported for the first n batches, leaving out those already done. */
  function Gathered(batches: seq<Batch>, reports: seq<Report>, n: nat): seq<Event>
    requires n <= |batches| == |reports|
  {
    if n == 0 then []
    else
      Gathered(batches, reports, n - 1) +
      if batches[n - 1].done || reports[n - 1].DriverError? then [] else reports[n - 1].events
  }

  lemma {:induction false} BatchInside(batches: seq<Batch>, total: nat, k: nat)
    requires BatchesTile(batches, total) && k < |batches|
    ensures batches[k].begin + batches[k].count <= total
  {
    if k < |batches| - 1 {
      BatchInside(batches[..|batches| - 1], batches[|batches| - 1].begin, k);
    }
  }

  lemma {:induction false} MarkBatch(batches: seq<Batch>, total: nat, k: nat, done: bool)
    requires BatchesTile(batches, total) && k < |batches|
    ensures BatchesTile(batches[k := batches[k].(done := done)], total)
  {
    var n := |batches| - 1;
    var b' := batches[k := batches[k].(done := done)];
    if k < n {
      MarkBatch(batches[..n], batches[n].begin, k, done);
      assert b'[..n] == batches[..n][k := batches[k].(done := done)];
    } else {
      assert b'[..n] == batches[..n];
    }
  }

  // ---------- Building ----------

  /** Nothing has completed yet and the first k packets are finalized. */
  ghost predicate Building(l: Ledger, k: nat, host: nat) {
    && EntriesOk(l, Verdicts(l.cookies, [])) && k <= |l.pending|
    && (forall p | 0 <= p < |l.pending| :: l.packetDone[p] <==> p < k && l.pending[p] == 0)
    && (forall p | k < p < |l.pending| :: l.pending[p] == 0)
    && CountersOk(l) && l.completedEntries == Count(l.seen) && l.bytes == host
  }

  /** queue_device_write's bookkeeping. */
  function Enqueue(l: Ledger, p: nat, len: nat): Ledger
    requires p < |l.pending|
  {
    l.(cookies := l.cookies + [Cookie(p, len)], seen := l.seen + [false], pending := l.pending[p := l.pending[p] + 1])
  }

  /** finalize_completed_host_only_packet. */
  function FinalizeHostOnly(l: Ledger, p: nat): Ledger
    requires p < |l.pending| == |l.packetDone|
  {
    if l.pending[p] == 0 then l.(packetDone := l.packetDone[p := true], completedPackets := l.completedPackets + 1) else l
  }

  lemma OpenSnoc(cookies: seq<Cookie>, c: Cookie, p: nat)
    ensures OpenFlags(cookies + [c], Verdicts(cookies + [c], []), p)
         == OpenFlags(cookies, Verdicts(cookies, []), p) + [c.packet == p]
  {
  }

  lemma NoneSpoiled(cookies: seq<Cookie>, p: nat)
    ensures !AnySpoiled(cookies, Verdicts(cookies, []), p)
  {
  }

  lemma EnqueueKeeps(l: Ledger, k: nat, host: nat, len: nat)
    requires Building(l, k, host) && k < |l.pending|
    ensures Building(Enqueue(l, k, len), k, host)
  {
    var m := Enqueue(l, k, len);
    CountSnoc(l.seen, false);
    FreshVerdicts(l.cookies);
    FreshVerdicts(m.cookies);
    hide Count, OpenFlags, AnySpoiled, Verdicts, Both;
    forall p | 0 <= p < |m.pending|
      ensures Count(OpenFlags(m.cookies, Verdicts(m.cookies, []), p)) ==
              Count(OpenFlags(l.cookies, Verdicts(l.cookies, []), p)) + if k == p then 1 else 0
      ensures !AnySpoiled(m.cookies, Verdicts(m.cookies, []), p) && !AnySpoiled(l.cookies, Verdicts(l.cookies, []), p)
    {
      OpenOneMore(l.cookies, Cookie(k, len), p);
      NoneSpoiled(l.cookies, p);
      NoneSpoiled(m.cookies, p);
    }
  }

  lemma FreshVerdicts(cookies: seq<Cookie>)
    ensures |Verdicts(cookies, [])| == |cookies|
    ensures forall i | 0 <= i < |cookies| :: Verdicts(cookies, [])[i].Open?
  {
  }

  lemma OpenOneMore(cookies: seq<Cookie>, c: Cookie, p: nat)
    ensures Count(OpenFlags(cookies + [c], Verdicts(cookies + [c], []), p)) ==
            Count(OpenFlags(cookies, Verdicts(cookies, []), p)) + if c.packet == p then 1 else 0
  {
    OpenSnoc(cookies, c, p);
    CountSnoc(OpenFlags(cookies, Verdicts(cookies, []), p), c.packet == p);
  }

  lemma HostWriteKeeps(l: Ledger, k: nat, host: nat, len: nat)
    requires Building(l, k, host)
    ensures Building(l.(bytes := l.bytes + len), k, host + len)
  {
  }

  lemma BuildingShape(l: Ledger, k: nat, host: nat)
    requires Building(l, k, host)
    ensures |l.packetDone| == |l.pending| && l.bytes == host
  {
  }

  lemma FinalizeKeeps(l: Ledger, k: nat, host: nat)
    requires Building(l, k, host) && k < |l.pending|
    ensures Building(FinalizeHostOnly(l, k), k + 1, host)
  {
    NoneSpoiled(l.cookies, k);
    var m := FinalizeHostOnly(l, k);
    if m != l {
      CountSet(Both(l.packetDone, l.failed, false), k);
      assert Both(m.packetDone, m.failed, false) == Both(l.packetDone, l.failed, false)[k := true];
      assert Both(m.packetDone, m.failed, true) == Both(l.packetDone, l.failed, true);
    }
  }

  lemma {:induction false} NoGoodBytes(cookies: seq<Cookie>, v: seq<Verdict>)
    requires |v| == |cookies| && forall i | 0 <= i < |v| :: v[i].Open?
    ensures GoodBytes(cookies, v) == 0
  {
    if v != [] {
      NoGoodBytes(cookies[..|v| - 1], v[..|v| - 1]);
    }
  }

  lemma Built(l: Ledger, host: nat)
    requires Building(l, |l.pending|, host)
    ensures Balanced(l, Verdicts(l.cookies, []), host)
  {
    NoGoodBytes(l.cookies, Verdicts(l.cookies, []));
  }

  /** One cookie per write left to the driver, in write order. */
  function CookiesFor(ws: seq<Write>, p: nat): seq<Cookie> {
    var q := Queued(ws);
    seq(|q|, i requires 0 <= i < |q| => Cookie(p, |q[i].data|))
  }

  /** The bytes of the writes done at once. */
  function HostBytes(ws: seq<Write>): nat {
    if ws == [] then 0
    else HostBytes(ws[..|ws| - 1]) + if ws[|ws| - 1].device then 0 else |ws[|ws| - 1].data|
  }

  lemma NothingQueued(p: nat)
    ensures CookiesFor([], p) == [] && HostBytes([]) == 0
  {
    QueuedNone();
  }

  lemma HostBytesSnoc(ws: seq<Write>, w: Write)
    ensures HostBytes(ws + [w]) == HostBytes(ws) + if w.device then 0 else |w.data|
  {
    assert (ws + [w])[..|ws|] == ws;
  }

  /** The cookies of a burst, packet after packet. */
  function AllCookies(layout: seq<seq<Write>>): seq<Cookie> {
    if layout == [] then []
    else AllCookies(layout[..|layout| - 1]) + CookiesFor(layout[|layout| - 1], |layout| - 1)
  }

  function AllHostBytes(layout: seq<seq<Write>>): nat {
    if layout == [] then 0 else AllHostBytes(layout[..|layout| - 1]) + HostBytes(layout[|layout| - 1])
  }

  lemma LayoutSnoc(layout: seq<seq<Write>>, ws: seq<Write>)
    ensures AllCookies(layout + [ws]) == AllCookies(layout) + CookiesFor(ws, |layout|)
    ensures AllHostBytes(layout + [ws]) == AllHostBytes(layout) + HostBytes(ws)
  {
    assert (layout + [ws])[..|layout|] == layout;
  }

  /** The writes of each packet spell it from the offset on, the driver's those in device memory. */
  ghost predicate LaidOut(packets: seq<seq<Segment>>, offset: nat, layout: seq<seq<Write>>) {
    && |layout| <= |packets|
    && forall p | 0 <= p < |layout| ::
         && TileFrom(layout[p], 0) && Flatten(layout[p]) == Tail(Content(packets[p]), offset)
         && Drivers(layout[p]) == Tail(Origins(packets[p]), offset)
  }

  lemma CookiesSnoc(ws: seq<Write>, w: Write, p: nat)
    ensures CookiesFor(ws + [w], p) == CookiesFor(ws, p) + if w.device then [Cookie(p, |w.data|)] else []
  {
    QueuedSnoc(ws, w);
  }

  /** The books agree with the events reported so far, only submitted entries have settled,
      and a batch marked done has nothing left to settle. */
  ghost predicate Sound(l: Ledger, events: seq<Event>, host: nat, batches: seq<Batch>, total: nat) {
    && Balanced(l, Verdicts(l.cookies, events), host)
    && BatchesTile(batches, total) && total <= |l.cookies|
    && (forall i | total <= i < |l.cookies| :: !l.seen[i])
    && (forall k | 0 <= k < |batches| && batches[k].done :: AllSeen(batches[k], l.seen))
  }

  lemma SoundShape(l: Ledger, events: seq<Event>, host: nat, batches: seq<Batch>, total: nat)
    requires Sound(l, events, host, batches, total)
    ensures Shaped(l) && total <= |l.cookies| && BatchesTile(batches, total)
  {
  }

  lemma EventKeepsSound(l: Ledger, events: seq<Event>, host: nat, batches: seq<Batch>, total: nat, e: Event)
    requires Sound(l, events, host, batches, total) && (e.named ==> e.cookie < total)
    ensures Sound(Apply(l, e), events + [e], host, batches, total) && |Apply(l, e).pending| == |l.pending|
  {
    hide Verdicts, Judge, Balanced, BatchesTile;
    BalancedShape(l, Verdicts(l.cookies, events), host);
    ApplyKeeps(l, Verdicts(l.cookies, events), host, e);
    VerdictsSnoc(l.cookies, events, e);
    var m := Apply(l, e);
    assert m.cookies == l.cookies && |m.seen| == |l.seen|;
    assert forall i | 0 <= i < |l.seen| :: l.seen[i] ==> m.seen[i];
    assert forall i | total <= i < |l.seen| :: m.seen[i] == l.seen[i];
  }

  lemma MarkKeepsSound(l: Ledger, events: seq<Event>, host: nat, batches: seq<Batch>, total: nat, k: nat, done: bool)
    requires Sound(l, events, host, batches, total) && k < |batches|
    requires done ==> AllSeen(batches[k].(done := done), l.seen)
    ensures Sound(l, events, host, batches[k := batches[k].(done := done)], total)
  {
    MarkBatch(batches, total, k, done);
    hide Balanced, BatchesTile, Verdicts;
  }

  lemma BalancedShape(l: Ledger, v: seq<Verdict>, host: nat)
    requires Balanced(l, v, host)
    ensures Shaped(l) && l.completedEntries == Count(l.seen)
  {
  }

  class FileWriteHandle {
    var cookies: seq<Cookie>
    var seen: seq<bool>
    var pending: seq<nat>
    var failed: seq<bool>
    var packetDone: seq<bool>
    var completedPackets: nat
    var failedPackets: nat
    var bytes: nat
    var completedEntries: nat
    var totalEntries: nat
    var batches: seq<Batch>
    var done: bool
    var finalStatus: Status
    ghost var events: seq<Event>
    ghost var host: nat

    function View(): Ledger
      reads this
    {
      Ledger(cookies, seen, pending, failed, packetDone, completedPackets, failedPackets, bytes, completedEntries)
    }

    ghost predicate Valid()
      reads this
    {
      Sound(View(), events, host, batches, totalEntries)
    }

    constructor (numPackets: nat)
      ensures Building(View(), 0, 0) && |pending| == numPackets && cookies == []
      ensures batches == [] && totalEntries == 0 && !done && events == [] && host == 0
    {
      cookies, seen, batches, events := [], [], [], [];
      pending := seq(numPackets, _ => 0);
      failed, packetDone := seq(numPackets, _ => false), seq(numPackets, _ => false);
      completedPackets, failedPackets, bytes, completedEntries, totalEntries, host := 0, 0, 0, 0, 0, 0;
      done, finalStatus := false, Success;
      new;
      CountNone(Both(packetDone, failed, false));
      CountNone(Both(packetDone, failed, true));
      forall p | 0 <= p < numPackets ensures failed[p] <==> AnySpoiled([], Verdicts([], []), p) {
        NoneSpoiled([], p);
      }
    }

    /** One write of queue_or_write_segment: queued for the driver, or done at once. */
    method QueueWrite(w: Write, p: nat)
      requires Building(View(), p, host) && p < |pending|
      modifies this
      ensures Building(View(), p, host) && |pending| == old(|pending|)
      ensures cookies == old(cookies) + (if w.device then [Cookie(p, |w.data|)] else [])
      ensures host == old(host) + (if w.device then 0 else |w.data|)
      ensures unchanged(`batches, `totalEntries, `done, `events)
    {
      hide Building;
      if w.device {
        EnqueueKeeps(View(), p, host, |w.data|);
        cookies := cookies + [Cookie(p, |w.data|)];
        seen := seen + [false];
        pending := pending[p := pending[p] + 1];
      } else {
        HostWriteKeeps(View(), p, host, |w.data|);
        bytes := bytes + |w.data|;
        host := host + |w.data|;
      }
    }

    /** One packet of build_raw_write_handle: its writes are queued for the driver or done at
        once, and a packet with nothing queued is complete. */
    method AddPacket(ws: seq<Write>, p: nat)
      requires Building(View(), p, host) && p < |pending|
      modifies this
      ensures Building(View(), p + 1, host) && |pending| == old(|pending|)
      ensures cookies == old(cookies) + CookiesFor(ws, p) && host == old(host) + HostBytes(ws)
      ensures unchanged(`batches, `totalEntries, `done, `events)
    {
      hide Building, CookiesFor, HostBytes, Queued;
      assert ws[..0] == [];
      NothingQueued(p);
      for j := 0 to |ws|
        invariant Building(View(), p, host) && |pending| == old(|pending|)
        invariant cookies == old(cookies) + CookiesFor(ws[..j], p) && host == old(host) + HostBytes(ws[..j])
        invariant unchanged(`batches, `totalEntries, `done, `events)
      {
        CookiesSnoc(ws[..j], ws[j], p);
        assert ws[..j + 1] == ws[..j] + [ws[j]];
        HostBytesSnoc(ws[..j], ws[j]);
        QueueWrite(ws[j], p);
      }
      assert ws[..|ws|] == ws;
      FinalizePacket(p);
    }

    /** finalize_completed_host_only_packet. */
    method FinalizePacket(p: nat)
      requires Building(View(), p, host) && p < |pending|
      modifies `packetDone, `completedPackets
      ensures Building(View(), p + 1, host)
    {
      hide Building;
      BuildingShape(View(), p, host);
      FinalizeKeeps(View(), p, host);
      if pending[p] == 0 {
        packetDone := packetDone[p := true];
        completedPackets := completedPackets + 1;
      }
    }

    /** submit_batches: entries go out in order, 128 at a time; accepted[k] says whether the
        driver took batch k. On refusal only the batches before it count. */
    method SubmitBatches(accepted: seq<bool>) returns (ok: bool)
      requires batches == [] && |cookies| <= |accepted| * MAX_BATCH
      modifies `batches, `totalEntries
      ensures BatchesTile(batches, totalEntries) && totalEntries <= |cookies|
      ensures ok ==> totalEntries == |cookies|
      ensures !ok ==> |batches| < |accepted| && !accepted[|batches|] && totalEntries == |batches| * MAX_BATCH < |cookies|
      ensures |batches| <= |accepted| && forall k | 0 <= k < |batches| :: accepted[k] && batches[k].begin == k * MAX_BATCH && !batches[k].done
    {
      totalEntries := |cookies|;
      var begin := 0;
      while begin < |cookies|
        invariant begin == |batches| * MAX_BATCH && totalEntries == |cookies| && |batches| <= |accepted|
        invariant BatchesTile(batches, if begin < |cookies| then begin else |cookies|)
        invariant forall k | 0 <= k < |batches| :: accepted[k] && batches[k].begin == k * MAX_BATCH && !batches[k].done
      {
        var count := if |cookies| - begin < MAX_BATCH then |cookies| - begin else MAX_BATCH;
        if !accepted[|batches|] {
          totalEntries := begin;
          return false;
        }
        var b := Batch(begin, count, false);
        assert (batches + [b])[..|batches|] == batches;
        batches := batches + [b];
        begin := begin + MAX_BATCH;
      }
      ok := true;
    }

    /** The body of the event loop, with complete_packet_if_ready. */
    method ApplyEvent(e: Event)
      requires Shaped(View()) && (e.named ==> e.cookie < |cookies|)
      modifies `seen, `completedEntries, `failed, `bytes, `pending, `packetDone, `failedPackets, `completedPackets
      ensures View() == Apply(old(View()), e)
    {
      if !e.named || seen[e.cookie] || !Terminal(e.status) {
        return;
      }
      var p := cookies[e.cookie].packet;
      seen := seen[e.cookie := true];
      completedEntries := completedEntries + 1;
      if Failure(e.status) || (e.status.Complete? && e.ret != cookies[e.cookie].expected) {
        failed := failed[p := true];
      } else {
        bytes := bytes + e.ret;
      }
      if pending[p] > 0 {
        pending := pending[p := pending[p] - 1];
      }
      if !packetDone[p] && pending[p] == 0 {
        packetDone := packetDone[p := true];
        if failed[p] {
          failedPackets := failedPackets + 1;
        } else {
          completedPackets := completedPackets + 1;
        }
      }
    }

    /** A batch marked done stays complete, so skipping it loses no event that matters. */
    method HandleEvent(e: Event)
      requires Valid() && (e.named ==> e.cookie < totalEntries)
      modifies this
      ensures Valid() && events == old(events) + [e] && |pending| == old(|pending|)
      ensures unchanged(`batches, `totalEntries, `done, `finalStatus, `cookies, `host)
      ensures e.named ==> SeenWithin(Batch(e.cookie, 1, false), old(seen), seen)
      ensures !e.named ==> seen == old(seen)
    {
      hide Sound, BatchesTile;
      SoundShape(View(), events, host, batches, totalEntries);
      EventKeepsSound(View(), events, host, batches, totalEntries, e);
      ApplyEvent(e);
      events := events + [e];
    }

    /** Reports of one batch: every event is handled, then the batch is done when all its
        entries have settled. */
    method PollBatch(k: nat, reported: seq<Event>)
      requires Valid() && k < |batches| && EventsOf(batches[k], reported)
      modifies this
      ensures Valid() && events == old(events) + reported && |pending| == old(|pending|)
      ensures unchanged(`totalEntries, `done, `finalStatus, `cookies, `host)
      ensures SameBatches(old(batches), batches) && forall j | 0 <= j < |batches| && j != k :: batches[j] == old(batches)[j]
      ensures batches[k].done <==> AllSeen(batches[k], seen)
      ensures SeenWithin(batches[k], old(seen), seen)
    {
      hide Sound, BatchesTile;
      SoundShape(View(), events, host, batches, totalEntries);
      BatchInside(batches, totalEntries, k);
      for j := 0 to |reported|
        invariant Valid() && events == old(events) + reported[..j] && |pending| == old(|pending|)
        invariant unchanged(`batches, `totalEntries, `done, `finalStatus, `cookies, `host)
        invariant SeenWithin(batches[k], old(seen), seen)
      {
        assert reported[j] in reported;
        HandleEvent(reported[j]);
        assert reported[..j + 1] == reported[..j] + [reported[j]];
      }
      var allSeen := true;
      SoundShape(View(), events, host, batches, totalEntries);
      for i := batches[k].begin to batches[k].begin + batches[k].count
        invariant allSeen <==> forall x | batches[k].begin <= x < i :: seen[x]
      {
        allSeen := allSeen && seen[i];
      }
      MarkKeepsSound(View(), events, host, batches, totalEntries, k, allSeen);
      batches := batches[k := batches[k].(done := allSeen)];
    }

    /** poll_handle. A finished handle only repeats its status. Otherwise the unfinished batches are
        read in order, until the driver fails to report one, which finishes the write as failed; and
        the write is finished when all submitted entries have settled. */
    method Poll(reports: seq<Report>) returns (status: Status)
      requires Valid() && |reports| == |batches|
      requires forall k | 0 <= k < |batches| && reports[k].Events? :: EventsOf(batches[k], reports[k].events)
      modifies this
      ensures Valid() && unchanged(`cookies, `totalEntries, `host) && |pending| == old(|pending|)
      ensures SameBatches(old(batches), batches)
      ensures old(done) ==> unchanged(this) && status == finalStatus
      ensures !old(done) ==> events == old(events) + Gathered(old(batches), reports, Stop(old(batches), reports, 0))
      ensures !old(done) ==> (done <==> status != NotReady) && (done ==> status == finalStatus)
      ensures !old(done) ==> forall k | Stop(old(batches), reports, 0) <= k < |batches| :: batches[k] == old(batches)[k]
      ensures !old(done) && Flagged(old(batches), old(seen)) ==> Flagged(batches, seen)
      ensures !old(done) && Stop(old(batches), reports, 0) < |reports| ==> status == GenericFailure
      ensures !old(done) && Stop(old(batches), reports, 0) == |reports| ==>
                && (done <==> completedEntries == totalEntries)
                && (done ==> status == if failedPackets == 0 then Success else GenericFailure)
      ensures !old(done) && done && completedEntries == totalEntries == |cookies| ==>
                completedPackets + failedPackets == |pending|
    {
      hide Sound, AllSeen, SeenWithin, BatchesTile, Flagged;
      if done {
        return finalStatus;
      }
      ghost var was := batches;
      for k := 0 to |batches|
        invariant Valid() && |pending| == old(|pending|) && !done && |reports| == |batches|
        invariant unchanged(`totalEntries, `done, `cookies, `host) && SameBatches(was, batches)
        invariant forall j | k <= j < |batches| :: batches[j] == was[j]
        invariant k <= Stop(was, reports, 0) && events == old(events) + Gathered(was, reports, k)
        invariant Flagged(was, old(seen)) ==> Flagged(batches, seen)
      {
        if batches[k].done {
          continue;
        }
        if reports[k].DriverError? {
          finalStatus, done := GenericFailure, true;
          Drained();
          return GenericFailure;
        }
        ghost var seen0, batches0 := seen, batches;
        PollBatch(k, reports[k].events);
        StillFlagged(k, batches0, seen0);
      }
      if completedEntries == totalEntries {
        done := true;
        finalStatus := if failedPackets == 0 then Success else GenericFailure;
        Drained();
        return finalStatus;
      }
      status := NotReady;
    }

    lemma StillFlagged(k: nat, batches0: seq<Batch>, seen0: seq<bool>)
      requires Valid() && k < |batches| == |batches0| && SeenWithin(batches[k], seen0, seen)
      requires batches[k].done <==> AllSeen(batches[k], seen)
      requires forall j | 0 <= j < |batches| && j != k :: batches[j] == batches0[j]
      ensures Flagged(batches0, seen0) ==> Flagged(batches, seen)
    {
      SoundShape(View(), events, host, batches, totalEntries);
      hide AllSeen, SeenWithin, Sound, BatchesTile;
      forall j | 0 <= j < |batches| && j != k ensures AllSeen(batches[j], seen0) <==> AllSeen(batches[j], seen) {
        OthersSeen(batches, totalEntries, j, k, seen0, seen);
      }
    }

    lemma Drained()
      requires Valid()
      ensures completedEntries == totalEntries == |cookies| ==> completedPackets + failedPackets == |pending|
    {
      if completedEntries == |cookies| {
        DrainedCountsEveryPacket(View(), Verdicts(cookies, events), host);
      }
    }

    /** finish_handle_submission: hand the queue to the driver, or finish at once when the
        whole burst went to the file directly. */
    method FinishSubmission(accepted: seq<bool>) returns (ok: bool)
      requires Building(View(), |pending|, host) && batches == [] && totalEntries == 0 && !done && events == []
      requires |cookies| <= |accepted| * MAX_BATCH
      modifies this
      ensures Valid() && unchanged(`cookies, `pending, `events, `host)
      ensures done ==> completedEntries == totalEntries && finalStatus == if failedPackets == 0 then Success else GenericFailure
      ensures |batches| <= |accepted| && forall k | 0 <= k < |batches| :: batches[k].begin == k * MAX_BATCH && !batches[k].done
      ensures Flagged(batches, seen)
      ensures ok ==> totalEntries == |cookies|
      ensures ok && cookies == [] ==> done && finalStatus == Success && completedPackets == |pending|
      ensures ok && cookies != [] ==> !done
    {
      Built(View(), host);
      NothingSeen(View());
      BalancedShape(View(), Verdicts(cookies, []), host);
      hide Balanced, Verdicts, Building;
      if cookies == [] {
        totalEntries := 0;
        done := true;
        Drained();
        NothingFailed(View(), host);
        finalStatus := if failedPackets == 0 then Success else GenericFailure;
        return true;
      }
      ok := SubmitBatches(accepted);
      NotSeen(batches, totalEntries, seen);
    }
  }

  lemma NotSeen(batches: seq<Batch>, total: nat, seen: seq<bool>)
    requires BatchesTile(batches, total) && total <= |seen| && (forall i | 0 <= i < |seen| :: !seen[i])
    requires forall k | 0 <= k < |batches| :: !batches[k].done
    ensures Flagged(batches, seen)
  {
    forall k | 0 <= k < |batches| ensures !AllSeen(batches[k], seen) {
      BatchCounts(batches, total, k);
      BatchInside(batches, total, k);
      assert !seen[batches[k].begin];
    }
  }

  lemma {:induction false} BatchCounts(batches: seq<Batch>, total: nat, k: nat)
    requires BatchesTile(batches, total) && k < |batches|
    ensures batches[k].count > 0
  {
    if k < |batches| - 1 {
      BatchCounts(batches[..|batches| - 1], batches[|batches| - 1].begin, k);
    }
  }

  lemma NothingSeen(l: Ledger)
    requires EntriesOk(l, Verdicts(l.cookies, []))
    ensures forall i | 0 <= i < |l.seen| :: !l.seen[i]
  {
  }

  lemma NothingFailed(l: Ledger, host: nat)
    requires Balanced(l, Verdicts(l.cookies, []), host)
    ensures l.failedPackets == 0
  {
    forall p | 0 <= p < |l.failed| ensures !l.failed[p] {
      NoneSpoiled(l.cookies, p);
    }
    CountNone(Both(l.packetDone, l.failed, true));
  }

  lemma CookiesCount(ws: seq<Write>, p: nat)
    ensures |CookiesFor(ws, p)| == |Queued(ws)|
  {
  }

  lemma QueueBound(p: nat, numSegs: nat)
    ensures (p + 1) * numSegs == p * numSegs + numSegs
  {
  }

  /** build_raw_write_handle's packet loop. Every packet is laid out or the burst is refused for
      an unflagged null pointer; the queue never outgrows packets x segments, the size reserved
      so that cookie addresses stay valid. */
  method BuildRaw(packets: seq<seq<Segment>>, numSegs: nat, offset: nat)
    returns (status: Status, handle: FileWriteHandle, layout: seq<seq<Write>>)
    requires forall p | 0 <= p < |packets| :: |packets[p]| == numSegs
    ensures status == Success || status == NullPointer
    ensures status == NullPointer <==> exists p, s | 0 <= p < |packets| && s in packets[p] :: s.Illegal()
    ensures fresh(handle)
    ensures status == Success ==>
              && Building(handle.View(), |packets|, handle.host) && |handle.pending| == |packets|
              && LaidOut(packets, offset, layout) && |layout| == |packets|
              && handle.cookies == AllCookies(layout) && handle.host == AllHostBytes(layout)
              && |handle.cookies| <= |packets| * numSegs
              && handle.batches == [] && handle.totalEntries == 0 && !handle.done && handle.events == []
  {
    hide Building, Content, Flatten, TileFrom, Queued, CookiesFor, Tail, HostBytes, Drivers, Origins;
    handle := new FileWriteHandle(|packets|);
    layout := [];
    for p := 0 to |packets|
      invariant fresh(handle) && Building(handle.View(), p, handle.host) && |handle.pending| == |packets|
      invariant forall q, s | 0 <= q < p && s in packets[q] :: !s.Illegal()
      invariant |handle.cookies| <= p * numSegs
      invariant |layout| == p && LaidOut(packets, offset, layout)
      invariant handle.cookies == AllCookies(layout) && handle.host == AllHostBytes(layout)
      invariant handle.batches == [] && handle.totalEntries == 0 && !handle.done && handle.events == []
    {
      var r := RawWrites(packets[p], offset);
      if r.NullPtr? {
        return NullPointer, handle, layout;
      }
      CookiesCount(r.value, p);
      QueueBound(p, numSegs);
      LayoutSnoc(layout, r.value);
      handle.AddPacket(r.value, p);
      layout := layout + [r.value];
    }
    status := Success;
  }
}
