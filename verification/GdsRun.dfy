/** A whole file write: built from a burst, submitted, and polled any number of times, against
    everything the driver reported. */
module GdsRun {
  import opened Counting
  import opened GdsLedger
  import opened SegmentWalk
  import opened GdsHandle

  // ---------- What the driver said ----------

  /** The events in the first n reports of one poll, whether or not the handle reads them. */
  function Told(reports: seq<Report>, n: nat): seq<Event>
    requires n <= |reports|
  {
    if n == 0 then [] else Told(reports, n - 1) + if reports[n - 1].Events? then reports[n - 1].events else []
  }

  /** The events of a sequence of polls. */
  function ToldAll(polls: seq<seq<Report>>): seq<Event> {
    if polls == [] then [] else ToldAll(polls[..|polls| - 1]) + Told(polls[|polls| - 1], |polls[|polls| - 1]|)
  }

  /** One report for each batch, with the batch's own cookies. */
  ghost predicate Fitting(batches: seq<Batch>, reports: seq<Report>) {
    |reports| == |batches| && forall k | 0 <= k < |batches| && reports[k].Events? :: EventsOf(batches[k], reports[k].events)
  }

  /** Every entry of the batch has a terminal event. */
  ghost predicate Settled(cookies: seq<Cookie>, events: seq<Event>, b: Batch) {
    b.begin + b.count <= |cookies| && forall i | b.begin <= i < b.begin + b.count :: !VerdictOf(cookies, events, i).Open?
  }

  // ---------- Events that change nothing ----------

  lemma {:induction false} SettledStays(cookies: seq<Cookie>, events: seq<Event>, more: seq<Event>, i: nat)
    requires i < |cookies| && !VerdictOf(cookies, events, i).Open?
    ensures VerdictOf(cookies, events + more, i) == VerdictOf(cookies, events, i)
  {
    if more == [] {
      assert events + more == events;
    } else {
      SettledStays(cookies, events, more[..|more| - 1], i);
      assert (events + more)[..|events + more| - 1] == events + more[..|more| - 1];
    }
  }

  lemma {:induction false} SameAppend(cookies: seq<Cookie>, a: seq<Event>, b: seq<Event>, more: seq<Event>)
    requires Verdicts(cookies, a) == Verdicts(cookies, b)
    ensures Verdicts(cookies, a + more) == Verdicts(cookies, b + more)
  {
    hide Verdicts, Judge;
    if more == [] {
      assert a + more == a && b + more == b;
    } else {
      var n := |more| - 1;
      SameAppend(cookies, a, b, more[..n]);
      VerdictsSnoc(cookies, a + more[..n], more[n]);
      VerdictsSnoc(cookies, b + more[..n], more[n]);
      assert a + more == a + more[..n] + [more[n]] && b + more == b + more[..n] + [more[n]];
    }
  }

  /** Events of a batch that has settled. */
  lemma {:induction false} SettledIgnores(cookies: seq<Cookie>, events: seq<Event>, b: Batch, more: seq<Event>)
    requires Settled(cookies, events, b) && EventsOf(b, more)
    ensures Verdicts(cookies, events + more) == Verdicts(cookies, events)
  {
    if more == [] {
      assert events + more == events;
    } else {
      var n := |more| - 1;
      SettledIgnores(cookies, events, b, more[..n]);
      VerdictsSnoc(cookies, events + more[..n], more[n]);
      assert events + more == events + more[..n] + [more[n]];
      assert more[n] in more;
    }
  }

  lemma BatchStays(cookies: seq<Cookie>, events: seq<Event>, more: seq<Event>, b: Batch)
    requires Settled(cookies, events, b)
    ensures Settled(cookies, events + more, b)
  {
    forall i | b.begin <= i < b.begin + b.count ensures !VerdictOf(cookies, events + more, i).Open? {
      SettledStays(cookies, events, more, i);
    }
  }

  lemma SettledSame(cookies: seq<Cookie>, a: seq<Event>, c: seq<Event>, b: Batch)
    requires Verdicts(cookies, a) == Verdicts(cookies, c)
    ensures Settled(cookies, a, b) <==> Settled(cookies, c, b)
  {
    hide VerdictOf;
    forall i: nat | i < |cookies| ensures VerdictOf(cookies, a, i) == VerdictOf(cookies, c, i) {
      assert Verdicts(cookies, a)[i] == Verdicts(cookies, c)[i];
    }
  }

  /** Skipping the batches already done loses no event that matters. */
  lemma {:induction false} SkipsNothing(cookies: seq<Cookie>, events: seq<Event>, told: seq<Event>,
                                        batches: seq<Batch>, reports: seq<Report>, n: nat)
    requires Fitting(batches, reports) && n <= |batches| && Verdicts(cookies, events) == Verdicts(cookies, told)
    requires forall k | 0 <= k < |batches| && batches[k].done :: Settled(cookies, events, batches[k])
    ensures Verdicts(cookies, events + Gathered(batches, reports, n)) == Verdicts(cookies, told + Told(reports, n))
  {
    hide Verdicts, Settled, EventsOf;
    if n == 0 {
      assert events + [] == events && told + [] == told;
    } else {
      var b, before, said := batches[n - 1], Gathered(batches, reports, n - 1), Told(reports, n - 1);
      SkipsNothing(cookies, events, told, batches, reports, n - 1);
      if reports[n - 1].DriverError? {
        assert before + [] == before && said + [] == said;
      } else {
        var more := reports[n - 1].events;
        SameAppend(cookies, events + before, told + said, more);
        assert (events + before) + more == events + (before + more) && (told + said) + more == told + (said + more);
        if b.done {
          BatchStays(cookies, events, before, b);
          SettledIgnores(cookies, events + before, b, more);
          assert before + [] == before;
        }
      }
    }
  }

  // ---------- Polling ----------

  lemma SeenIsSettled(h: FileWriteHandle, b: Batch)
    requires h.Valid()
    ensures AllSeen(b, h.seen) <==> Settled(h.cookies, h.events, b)
  {
    hide VerdictOf, Count, OpenFlags, AnySpoiled, GoodBytes, CountersOk, BatchesTile;
    assert EntriesOk(h.View(), Verdicts(h.cookies, h.events));
    forall i: nat | i < |h.cookies| ensures h.seen[i] <==> !VerdictOf(h.cookies, h.events, i).Open? {
      assert Verdicts(h.cookies, h.events)[i] == VerdictOf(h.cookies, h.events, i);
    }
  }

  lemma DoneSettled(h: FileWriteHandle)
    requires h.Valid() && Flagged(h.batches, h.seen)
    ensures forall k | 0 <= k < |h.batches| :: h.batches[k].done <==> Settled(h.cookies, h.events, h.batches[k])
  {
    hide Settled, AllSeen, Sound;
    forall k | 0 <= k < |h.batches| ensures h.batches[k].done <==> Settled(h.cookies, h.events, h.batches[k]) {
      SeenIsSettled(h, h.batches[k]);
    }
  }

  /** A handle that is finished has settled every submitted entry, and failed if a packet did. */
  ghost predicate FinishedOk(h: FileWriteHandle)
    reads h
  {
    h.done ==>
      && h.completedEntries == h.totalEntries
      && h.finalStatus == if h.failedPackets == 0 then Success else GenericFailure
  }

  lemma CompleteIsSettled(h: FileWriteHandle)
    requires h.Valid()
    ensures h.completedEntries == h.totalEntries <==> Settled(h.cookies, h.events, Batch(0, h.totalEntries, true))
  {
    hide VerdictOf, OpenFlags, AnySpoiled, GoodBytes, CountersOk, BatchesTile, Count;
    assert h.completedEntries == Count(h.seen) && |h.seen| == |h.cookies|;
    CountBounds(h.seen, h.totalEntries);
    SeenIsSettled(h, Batch(0, h.totalEntries, true));
  }

  lemma {:induction false} ToldFits(batches: seq<Batch>, total: nat, reports: seq<Report>, n: nat)
    requires BatchesTile(batches, total) && Fitting(batches, reports) && n <= |reports|
    ensures EventsOf(Batch(0, total, true), Told(reports, n))
  {
    if n > 0 {
      ToldFits(batches, total, reports, n - 1);
      BatchInside(batches, total, n - 1);
    }
  }

  lemma PartSettled(cookies: seq<Cookie>, events: seq<Event>, batches: seq<Batch>, total: nat, k: nat)
    requires BatchesTile(batches, total) && k < |batches| && Settled(cookies, events, Batch(0, total, true))
    ensures Settled(cookies, events, batches[k])
  {
    BatchInside(batches, total, k);
  }

  /** What is told to a handle that has everything already changes nothing. */
  lemma TooLate(h: FileWriteHandle, told: seq<Event>, reports: seq<Report>)
    requires h.Valid() && h.completedEntries == h.totalEntries && Fitting(h.batches, reports)
    requires Verdicts(h.cookies, h.events) == Verdicts(h.cookies, told)
    ensures Verdicts(h.cookies, h.events) == Verdicts(h.cookies, told + Told(reports, |reports|))
    ensures forall k | 0 <= k < |h.batches| :: Settled(h.cookies, h.events, h.batches[k])
  {
    var all := Batch(0, h.totalEntries, true);
    SoundShape(h.View(), h.events, h.host, h.batches, h.totalEntries);
    CompleteIsSettled(h);
    hide Settled, Sound, BatchesTile, Verdicts, Told, Fitting, EventsOf;
    SettledSame(h.cookies, h.events, told, all);
    ToldFits(h.batches, h.totalEntries, reports, |reports|);
    SettledIgnores(h.cookies, told, all, Told(reports, |reports|));
    forall k | 0 <= k < |h.batches| ensures Settled(h.cookies, h.events, h.batches[k]) {
      PartSettled(h.cookies, h.events, h.batches, h.totalEntries, k);
    }
  }

  lemma SettledExtent(cookies: seq<Cookie>, events: seq<Event>, a: Batch, b: Batch)
    requires a.begin == b.begin && a.count == b.count
    ensures Settled(cookies, events, a) <==> Settled(cookies, events, b)
  {
  }

  /** One poll, against everything told so far. `stop` is the report that failed, if one did. */
  method PollOnce(h: FileWriteHandle, reports: seq<Report>, ghost told: seq<Event>) returns (status: Status, stop: nat)
    requires h.Valid() && Flagged(h.batches, h.seen) && FinishedOk(h) && Fitting(h.batches, reports)
    requires Verdicts(h.cookies, h.events) == Verdicts(h.cookies, told)
    modifies h
    ensures h.Valid() && Flagged(h.batches, h.seen) && SameBatches(old(h.batches), h.batches)
    ensures unchanged(h`cookies, h`totalEntries, h`host) && |h.pending| == old(|h.pending|)
    ensures old(h.events) <= h.events
    ensures stop <= |reports| && Verdicts(h.cookies, h.events) == Verdicts(h.cookies, told + Told(reports, stop))
    ensures stop < |reports| ==>
              && reports[stop].DriverError? && !Settled(h.cookies, h.events, h.batches[stop])
              && h.done && h.finalStatus == GenericFailure
    ensures stop == |reports| ==>
              && FinishedOk(h) && (h.done <==> h.completedEntries == h.totalEntries)
              && forall k | 0 <= k < |reports| && reports[k].DriverError? :: Settled(h.cookies, h.events, h.batches[k])
    ensures (status == NotReady <==> !h.done) && (h.done ==> status == h.finalStatus)
  {
    hide Sound, Flagged, Settled, Verdicts, EventsOf, Gathered, Told, AllSeen;
    ghost var batches, events := h.batches, h.events;
    stop := if h.done then |reports| else Stop(h.batches, reports, 0);
    DoneSettled(h);
    SkipsNothing(h.cookies, events, told, batches, reports, stop);
    if h.done {
      TooLate(h, told, reports);
    }
    status := h.Poll(reports);
    DoneSettled(h);
    if stop == |reports| && h.events == events + Gathered(batches, reports, stop) {
      forall k | 0 <= k < |reports| && batches[k].done ensures Settled(h.cookies, h.events, h.batches[k]) {
        BatchStays(h.cookies, events, Gathered(batches, reports, stop), batches[k]);
        SettledExtent(h.cookies, h.events, batches[k], h.batches[k]);
      }
    }
  }

  /** What was told up to report k of poll j, or everything when there is no such report. */
  function Heard(polls: seq<seq<Report>>, j: nat, k: nat): seq<Event>
    requires j <= |polls| && (j < |polls| ==> k <= |polls[j]|)
  {
    if j < |polls| then ToldAll(polls[..j]) + Told(polls[j], k) else ToldAll(polls)
  }

  /** Every failed report concerned a batch that has settled. */
  ghost predicate LateErrors(cookies: seq<Cookie>, events: seq<Event>, batches: seq<Batch>, polls: seq<seq<Report>>, n: nat)
    requires n <= |polls|
  {
    forall p, k | 0 <= p < n && 0 <= k < |polls[p]| && k < |batches| && polls[p][k].DriverError? ::
      Settled(cookies, events, batches[k])
  }

  lemma ErrorsStayLate(cookies: seq<Cookie>, a: seq<Event>, b: seq<Event>, batches: seq<Batch>, batches': seq<Batch>,
                       polls: seq<seq<Report>>, n: nat)
    requires n < |polls| && LateErrors(cookies, a, batches, polls, n) && SameBatches(batches, batches')
    requires forall x | Settled(cookies, a, x) :: Settled(cookies, b, x)
    requires forall k | 0 <= k < |polls[n]| && k < |batches'| && polls[n][k].DriverError? :: Settled(cookies, b, batches'[k])
    ensures LateErrors(cookies, b, batches', polls, n + 1)
  {
    hide Settled;
    forall p, k | 0 <= p < n + 1 && 0 <= k < |polls[p]| && k < |batches'| && polls[p][k].DriverError?
      ensures Settled(cookies, b, batches'[k])
    {
      if p < n {
        assert Settled(cookies, a, batches[k]);
        SettledExtent(cookies, b, batches[k], batches'[k]);
      }
    }
  }

  lemma StaySettled(cookies: seq<Cookie>, a: seq<Event>, b: seq<Event>)
    requires a <= b
    ensures forall x | Settled(cookies, a, x) :: Settled(cookies, b, x)
  {
    hide Settled;
    assert b == a + b[|a|..];
    forall x | Settled(cookies, a, x) ensures Settled(cookies, b, x) {
      BatchStays(cookies, a, b[|a|..], x);
    }
  }

  lemma SameFits(a: seq<Batch>, b: seq<Batch>, reports: seq<Report>)
    requires SameBatches(a, b) && Fitting(a, reports)
    ensures Fitting(b, reports)
  {
  }

  /** A finished handle repeats its status. */
  method Repeats(h: FileWriteHandle, polls: seq<seq<Report>>, last: Status) returns (status: Status)
    requires h.Valid() && h.done && last == h.finalStatus
    requires forall p | 0 <= p < |polls| :: Fitting(h.batches, polls[p])
    modifies h
    ensures unchanged(h) && status == h.finalStatus
  {
    hide Sound;
    status := last;
    for i := 0 to |polls|
      invariant unchanged(h) && status == h.finalStatus
    {
      status := h.Poll(polls[i]);
    }
  }

  /** Polling any number of times. Either some report of an unfinished batch failed, and what counts
      is what was told before it; or everything told counts, and the write is finished exactly when
      every submitted entry has settled. */
  method PollAll(h: FileWriteHandle, polls: seq<seq<Report>>) returns (status: Status, ghost j: nat, ghost k: nat)
    requires h.Valid() && Flagged(h.batches, h.seen) && FinishedOk(h)
    requires forall p | 0 <= p < |polls| :: Fitting(h.batches, polls[p])
    modifies h
    ensures h.Valid() && SameBatches(old(h.batches), h.batches)
    ensures unchanged(h`cookies, h`totalEntries, h`host) && |h.pending| == old(|h.pending|)
    ensures j <= |polls| && (j < |polls| ==> k < |polls[j]| == |h.batches|)
    ensures Verdicts(h.cookies, h.events) == Verdicts(h.cookies, old(h.events) + Heard(polls, j, k))
    ensures j < |polls| ==>
              && polls[j][k].DriverError? && !Settled(h.cookies, h.events, h.batches[k])
              && h.done && h.finalStatus == GenericFailure
    ensures j == |polls| ==>
              && FinishedOk(h) && LateErrors(h.cookies, h.events, h.batches, polls, |polls|)
              && (polls != [] ==> (h.done <==> h.completedEntries == h.totalEntries))
    ensures polls == [] ==> unchanged(h)
    ensures polls != [] ==> (status == NotReady <==> !h.done) && (h.done ==> status == h.finalStatus)
  {
    hide Sound, Settled, Verdicts, Told, EventsOf, Flagged;
    ghost var was := h.batches;
    status, j, k := NotReady, |polls|, 0;
    assert polls[..0] == [] && h.events + [] == h.events;
    for i := 0 to |polls|
      invariant j == |polls| && h.Valid() && Flagged(h.batches, h.seen) && FinishedOk(h) && SameBatches(was, h.batches)
      invariant unchanged(h`cookies, h`totalEntries, h`host) && |h.pending| == old(|h.pending|)
      invariant Verdicts(h.cookies, h.events) == Verdicts(h.cookies, old(h.events) + ToldAll(polls[..i]))
      invariant LateErrors(h.cookies, h.events, h.batches, polls, i)
      invariant i == 0 ==> unchanged(h)
      invariant i > 0 ==> (h.done <==> h.completedEntries == h.totalEntries)
      invariant i > 0 ==> (status == NotReady <==> !h.done) && (h.done ==> status == h.finalStatus)
    {
      SameFits(was, h.batches, polls[i]);
      ghost var told, events, batches := old(h.events) + ToldAll(polls[..i]), h.events, h.batches;
      var stop;
      status, stop := PollOnce(h, polls[i], told);
      assert told + Told(polls[i], stop) == old(h.events) + (ToldAll(polls[..i]) + Told(polls[i], stop));
      if stop < |polls[i]| {
        j, k := i, stop;
        var rest := polls[i + 1..];
        forall p | 0 <= p < |rest| ensures Fitting(h.batches, rest[p]) {
          SameFits(was, h.batches, polls[i + 1 + p]);
        }
        status := Repeats(h, rest, status);
        return;
      }
      assert polls[..i + 1][..i] == polls[..i];
      StaySettled(h.cookies, events, h.events);
      ErrorsStayLate(h.cookies, events, h.events, batches, h.batches, polls, i);
    }
    assert polls[..|polls|] == polls;
  }

  // ---------- The whole write ----------

  /** The first terminal event of entry i is a completion with all its bytes. */
  ghost predicate CameBack(cookies: seq<Cookie>, events: seq<Event>, i: nat)
    requires i < |cookies|
  {
    exists j: nat :: FirstEnd(events, i, j) && events[j].status == Complete && events[j].ret == cookies[i].expected
  }

  /** Every queued write came back complete, with all its bytes. */
  ghost predicate AllGood(cookies: seq<Cookie>, events: seq<Event>) {
    forall i: nat | i < |cookies| :: CameBack(cookies, events, i)
  }

  lemma GoodVerdicts(cookies: seq<Cookie>, events: seq<Event>)
    ensures AllGood(cookies, events) <==> forall i | 0 <= i < |Verdicts(cookies, events)| :: Verdicts(cookies, events)[i].Good?
  {
    hide CameBack, VerdictOf;
    var v := Verdicts(cookies, events);
    forall i: nat | i < |cookies| ensures CameBack(cookies, events, i) <==> v[i].Good? {
      GoodVerdict(cookies, events, i);
    }
  }

  lemma GoodVerdict(cookies: seq<Cookie>, events: seq<Event>, i: nat)
    requires i < |cookies|
    ensures CameBack(cookies, events, i) <==> VerdictOf(cookies, events, i).Good?
  {
    hide VerdictOf, FirstEnd;
    VerdictExact(cookies, events, i);
  }

  function Expected(cookies: seq<Cookie>): nat {
    if cookies == [] then 0 else Expected(cookies[..|cookies| - 1]) + cookies[|cookies| - 1].expected
  }

  lemma {:induction false} ExpectedAppend(a: seq<Cookie>, b: seq<Cookie>)
    ensures Expected(a + b) == Expected(a) + Expected(b)
  {
    if b == [] {
      assert a + b == a;
    } else {
      ExpectedAppend(a, b[..|b| - 1]);
      assert (a + b)[..|a + b| - 1] == a + b[..|b| - 1];
    }
  }

  lemma {:induction false} GoodIsExpected(cookies: seq<Cookie>, v: seq<Verdict>)
    requires |v| == |cookies| && forall i | 0 <= i < |v| :: v[i].Good?
    ensures GoodBytes(cookies, v) == Expected(cookies)
  {
    if v != [] {
      GoodIsExpected(cookies[..|v| - 1], v[..|v| - 1]);
    }
  }

  lemma {:induction false} FlattenLength(ws: seq<Write>, w: Write)
    ensures |Flatten(ws + [w])| == |Flatten(ws)| + |w.data|
  {
    if ws != [] {
      FlattenLength(ws[1..], w);
      assert (ws + [w])[1..] == ws[1..] + [w];
    }
  }

  /** The bytes of a packet are those queued and those written at once. */
  lemma {:induction false} PacketBytes(ws: seq<Write>, p: nat)
    ensures Expected(CookiesFor(ws, p)) + HostBytes(ws) == |Flatten(ws)|
  {
    hide CookiesFor, Flatten;
    if ws == [] {
      NothingQueued(p);
      assert |Flatten([])| == 0 by { FlattenNone(); }
    } else {
      var init, w := ws[..|ws| - 1], ws[|ws| - 1];
      PacketBytes(init, p);
      assert ws == init + [w];
      CookiesSnoc(init, w, p);
      ExpectedAppend(CookiesFor(init, p), if w.device then [Cookie(p, |w.data|)] else []);
      ExpectedOne(Cookie(p, |w.data|));
      FlattenLength(init, w);
    }
  }

  lemma FlattenNone()
    ensures Flatten([]) == []
  {
  }

  lemma ExpectedOne(c: Cookie)
    ensures Expected([c]) == c.expected && Expected([]) == 0
  {
    assert [c][..0] == [];
  }

  function LayoutBytes(layout: seq<seq<Write>>): nat {
    if layout == [] then 0 else LayoutBytes(layout[..|layout| - 1]) + |Flatten(layout[|layout| - 1])|
  }

  lemma {:induction false} BurstBytes(layout: seq<seq<Write>>)
    ensures Expected(AllCookies(layout)) + AllHostBytes(layout) == LayoutBytes(layout)
  {
    hide CookiesFor, Flatten, HostBytes;
    if layout != [] {
      var n := |layout| - 1;
      BurstBytes(layout[..n]);
      PacketBytes(layout[n], n);
      ExpectedAppend(AllCookies(layout[..n]), CookiesFor(layout[n], n));
    }
  }

  /** The bytes of the burst from the offset on. */
  function TotalBytes(packets: seq<seq<Segment>>, offset: nat): nat {
    if packets == [] then 0
    else TotalBytes(packets[..|packets| - 1], offset) + |Tail(Content(packets[|packets| - 1]), offset)|
  }

  lemma {:induction false} SameTotal(packets: seq<seq<Segment>>, offset: nat, layout: seq<seq<Write>>)
    requires LaidOut(packets, offset, layout) && |layout| == |packets|
    ensures LayoutBytes(layout) == TotalBytes(packets, offset)
  {
    hide Content, Flatten, TileFrom, Tail;
    if packets != [] {
      var n := |packets| - 1;
      SameTotal(packets[..n], offset, layout[..n]);
    }
  }

  /** Everything settled and no packet failed, exactly when every entry is good; then all bytes count
      and every packet is complete. */
  lemma GoodResult(l: Ledger, events: seq<Event>, host: nat)
    requires Balanced(l, Verdicts(l.cookies, events), host)
    ensures l.completedEntries == |l.cookies| && l.failedPackets == 0 <==> AllGood(l.cookies, events)
    ensures AllGood(l.cookies, events) ==> l.bytes == host + Expected(l.cookies) && l.completedPackets == |l.pending|
  {
    var v := Verdicts(l.cookies, events);
    hide AllGood, OpenFlags, GoodBytes, Count, Verdicts;
    GoodVerdicts(l.cookies, events);
    CountBounds(l.seen, |l.seen|);
    CountNone(Both(l.packetDone, l.failed, true));
    if l.completedEntries == |l.cookies| {
      DrainedCountsEveryPacket(l, v, host);
      NoneFailed(l, v);
      assert forall p | 0 <= p < |l.pending| :: Both(l.packetDone, l.failed, true)[p] == l.failed[p];
    }
    if AllGood(l.cookies, events) {
      GoodIsExpected(l.cookies, v);
    }
  }

  lemma NoneFailed(l: Ledger, v: seq<Verdict>)
    requires EntriesOk(l, v) && forall i | 0 <= i < |v| :: !v[i].Open?
    ensures (forall p | 0 <= p < |l.pending| :: !l.failed[p]) <==> forall i | 0 <= i < |v| :: v[i].Good?
  {
    hide OpenFlags, Count;
    forall i | 0 <= i < |v| && v[i].Spoiled? ensures l.failed[l.cookies[i].packet] {
      assert AnySpoiled(l.cookies, v, l.cookies[i].packet);
    }
  }

  /** The handle's own events and everything heard settle the same entries. */
  lemma BooksOfHeard(h: FileWriteHandle, heard: seq<Event>)
    requires h.Valid() && Verdicts(h.cookies, h.events) == Verdicts(h.cookies, heard)
    ensures Balanced(h.View(), Verdicts(h.cookies, heard), h.host)
    ensures h.completedEntries == |h.cookies| && h.failedPackets == 0 <==> AllGood(h.cookies, heard)
    ensures AllGood(h.cookies, heard) ==> h.bytes == h.host + Expected(h.cookies) && h.completedPackets == |h.pending|
    ensures forall b :: Settled(h.cookies, h.events, b) <==> Settled(h.cookies, heard, b)
  {
    hide AllGood, Balanced, Verdicts, Settled;
    GoodResult(h.View(), heard, h.host);
    forall b ensures Settled(h.cookies, h.events, b) <==> Settled(h.cookies, heard, b) {
      SettledSame(h.cookies, h.events, heard, b);
    }
  }

  lemma AllBytes(packets: seq<seq<Segment>>, offset: nat, layout: seq<seq<Write>>)
    requires LaidOut(packets, offset, layout) && |layout| == |packets|
    ensures Expected(AllCookies(layout)) + AllHostBytes(layout) == TotalBytes(packets, offset)
  {
    hide LaidOut;
    BurstBytes(layout);
    SameTotal(packets, offset, layout);
  }

  /** A handle just submitted. */
  ghost predicate Fresh(h: FileWriteHandle)
    reads h
  {
    && h.Valid() && Flagged(h.batches, h.seen) && FinishedOk(h) && h.events == []
    && h.totalEntries == |h.cookies| && (h.cookies == [] ==> h.done)
  }

  /** A burst laid out, queued and submitted, or refused. */
  method Start(packets: seq<seq<Segment>>, numSegs: nat, offset: nat, accepted: seq<bool>)
    returns (status: Status, handle: FileWriteHandle, layout: seq<seq<Write>>)
    requires forall p | 0 <= p < |packets| :: |packets[p]| == numSegs
    requires |packets| * numSegs <= |accepted| * MAX_BATCH
    ensures fresh(handle) && (status == Success || status == NullPointer || status == GenericFailure)
    ensures status == NullPointer <==> exists p, s | 0 <= p < |packets| && s in packets[p] :: s.Illegal()
    ensures status == Success ==>
              && Fresh(handle) && LaidOut(packets, offset, layout) && |layout| == |packets| == |handle.pending|
              && handle.cookies == AllCookies(layout) && handle.host == AllHostBytes(layout)
  {
    hide Sound, LaidOut, AllCookies, AllHostBytes, Flagged, Building;
    status, handle, layout := BuildRaw(packets, numSegs, offset);
    if status == Success {
      var ok := handle.FinishSubmission(accepted);
      status := if ok then Success else GenericFailure;
    }
  }

  /** A submitted handle polled n times, with a driver that may report anything about each batch. */
  method Watch(h: FileWriteHandle, n: nat, driver: (nat, seq<Batch>) -> seq<Report>)
    returns (status: Status, polls: seq<seq<Report>>, ghost j: nat, ghost k: nat)
    requires Fresh(h) && forall i: nat, batches: seq<Batch> :: Fitting(batches, driver(i, batches))
    modifies h
    ensures unchanged(h`cookies, h`host) && |h.pending| == old(|h.pending|)
    ensures |polls| == n && j <= n && (j < n ==> k < |polls[j]| == |h.batches|)
    ensures Balanced(h.View(), Verdicts(h.cookies, Heard(polls, j, k)), h.host)
    ensures j < n ==>
              && polls[j][k].DriverError? && !Settled(h.cookies, Heard(polls, j, k), h.batches[k])
              && status == GenericFailure
    ensures j == n ==> LateErrors(h.cookies, Heard(polls, j, k), h.batches, polls, n)
    ensures status == Success ==> j == n && AllGood(h.cookies, Heard(polls, j, k))
    ensures (n > 0 || h.cookies == []) && j == n && AllGood(h.cookies, Heard(polls, j, k)) ==> status == Success
    ensures status == Success ==> h.bytes == h.host + Expected(h.cookies) && h.completedPackets == |h.pending|
  {
    hide Balanced, Verdicts, Settled, Sound, Fitting, Flagged, AllGood, Heard;
    var batches := h.batches;
    polls := seq(n, i requires 0 <= i < n => driver(i, batches));
    status, j, k := PollAll(h, polls);
    if n == 0 {
      status := if h.done then h.finalStatus else NotReady;
    }
    assert [] + Heard(polls, j, k) == Heard(polls, j, k);
    BooksOfHeard(h, Heard(polls, j, k));
  }

  /** A burst built, submitted and polled n times. The books are those of everything the driver told
      (up to a failed report of an unfinished batch), whichever polls, orders and repetitions it came
      in. The write succeeds exactly when every queued entry came back complete, and then all bytes of
      the burst are written. */
  method WriteBurst(packets: seq<seq<Segment>>, numSegs: nat, offset: nat, accepted: seq<bool>,
                    n: nat, driver: (nat, seq<Batch>) -> seq<Report>)
    returns (status: Status, submitted: bool, handle: FileWriteHandle, layout: seq<seq<Write>>,
             polls: seq<seq<Report>>, ghost j: nat, ghost k: nat)
    requires forall p | 0 <= p < |packets| :: |packets[p]| == numSegs
    requires |packets| * numSegs <= |accepted| * MAX_BATCH
    requires forall i: nat, batches: seq<Batch> :: Fitting(batches, driver(i, batches))
    ensures submitted ==>
              && LaidOut(packets, offset, layout) && |layout| == |packets| == |handle.pending|
              && handle.cookies == AllCookies(layout)
              && |polls| == n && j <= n && (j < n ==> k < |polls[j]| == |handle.batches|)
              && Balanced(handle.View(), Verdicts(AllCookies(layout), Heard(polls, j, k)), AllHostBytes(layout))
    ensures submitted && j < n ==>
              && polls[j][k].DriverError? && !Settled(AllCookies(layout), Heard(polls, j, k), handle.batches[k])
              && status == GenericFailure
    ensures submitted && j == n ==> LateErrors(AllCookies(layout), Heard(polls, j, k), handle.batches, polls, n)
    ensures submitted && (n > 0 || AllCookies(layout) == []) ==>
              (status == Success <==> j == n && AllGood(AllCookies(layout), Heard(polls, j, k)))
    ensures submitted && status == Success ==>
              handle.bytes == TotalBytes(packets, offset) && handle.completedPackets == |packets|
    ensures !submitted ==> status != Success
    ensures status == NullPointer && !submitted <==> exists p, s | 0 <= p < |packets| && s in packets[p] :: s.Illegal()
  {
    hide Balanced, Verdicts, Settled, LaidOut, AllCookies, AllHostBytes, Fresh, Fitting, AllGood, Heard, LateErrors, TotalBytes;
    submitted, polls, j, k := false, [], 0, 0;
    status, handle, layout := Start(packets, numSegs, offset, accepted);
    if status == Success {
      submitted := true;
      status, polls, j, k := Watch(handle, n, driver);
      AllBytes(packets, offset, layout);
    }
  }
}
