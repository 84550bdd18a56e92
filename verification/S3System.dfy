/** Every interleaving of the submitting thread, callback threads, duplicate completions and
    submission exceptions of one S3 write.

    A thread is a stack of calls: submit_ready_uploads, inside it PutObjectAsync or, after an
    exception, mark_upload_complete, which may call submit_ready_uploads again. Everything
    below the top is a suspended submit loop, so a depth is enough. */
module S3System {
  import opened Counting
  import opened S3Window

  datatype Frame = Loop | Put(index: nat) | Complete(index: nat, ok: bool)

  datatype Thread = Away | At(top: Frame, below: nat)

  /** The first completion of an entry. */
  datatype Outcome = Pending | Succeeded | Failed

  /** `accepted` are the uploads handed to the SDK whose callback is still to come. `outcome`
      and `taken` (the entries in the order they were taken for submission) are history. */
  datatype Sys = Sys(h: Handle, threads: map<Tid, Thread>, accepted: set<nat>, outcome: seq<Outcome>, taken: seq<nat>) {
    function ThreadOf(t: Tid): Thread {
      if t in threads then threads[t] else Away
    }

    function Move(t: Tid, th: Thread): Sys {
      this.(threads := threads[t := th])
    }
  }

  datatype Action =
    | Section                          // the critical section of the submit loop
    | Accept                           // PutObjectAsync returns
    | Throw                            // PutObjectAsync throws
    | Mark                             // the critical section of mark_upload_complete
    | Callback(index: nat, ok: bool)   // the SDK reports a submitted entry, perhaps again

  function Return(below: nat): Thread {
    if below == 0 then Away else At(Loop, below - 1)
  }

  ghost predicate Enabled(s: Sys, t: Tid, a: Action) {
    match a
    case Section => s.ThreadOf(t).At? && s.ThreadOf(t).top.Loop?
    case Accept => s.ThreadOf(t).At? && s.ThreadOf(t).top.Put?
    case Throw => s.ThreadOf(t).At? && s.ThreadOf(t).top.Put?
    case Mark => s.ThreadOf(t).At? && s.ThreadOf(t).top.Complete?
    case Callback(i, ok) => s.ThreadOf(t).Away? && i < |s.h.submitted| && s.h.submitted[i]
  }

  ghost predicate Shaped(h: Handle) {
    |h.size| == |h.done| == |h.submitted|
  }

  ghost function Next(s: Sys, t: Tid, a: Action): Sys
    requires Shaped(s.h) && Enabled(s, t, a)
  {
    match a
    case Section =>
      var (h, took, i) := Take(s.h);
      if took then s.(h := h, taken := s.taken + [i]).Move(t, At(Put(i), s.ThreadOf(t).below + 1))
      else s.Move(t, Return(s.ThreadOf(t).below))
    case Accept =>
      s.(accepted := s.accepted + {s.ThreadOf(t).top.index}).Move(t, Return(s.ThreadOf(t).below))
    case Throw =>
      s.Move(t, At(Complete(s.ThreadOf(t).top.index, false), s.ThreadOf(t).below))
    case Mark =>
      var i, ok := s.ThreadOf(t).top.index, s.ThreadOf(t).top.ok;
      var (h, more) := S3Window.Mark(s.h, i, ok);
      s.(h := h, outcome := if i < |s.outcome| && s.outcome[i].Pending? then s.outcome[i := if ok then Succeeded else Failed] else s.outcome)
       .Move(t, if more then At(Loop, s.ThreadOf(t).below) else Return(s.ThreadOf(t).below))
    case Callback(i, ok) =>
      s.(accepted := s.accepted - {i}).Move(t, At(Complete(i, ok), 0))
  }

  /** The calling thread is about to enter submit_ready_uploads with everything staged. */
  ghost predicate Init(s: Sys) {
    && HandleOk(s.h) && s.h.next == 0 && s.h.bytes == 0 && s.h.okObjects == 0
    && s.threads == map[0 := At(Loop, 0)] && s.accepted == {} && s.taken == []
    && s.outcome == seq(|s.h.done|, _ => Pending)
  }

  // ---------- The invariant ----------

  function Tally(outcome: seq<Outcome>, x: Outcome): nat {
    if outcome == [] then 0 else (if outcome[|outcome| - 1] == x then 1 else 0) + Tally(outcome[..|outcome| - 1], x)
  }

  /** Staged bytes of the entries that succeeded. */
  function Bytes(outcome: seq<Outcome>, size: seq<nat>): nat
    requires |outcome| == |size|
  {
    if outcome == [] then 0
    else
      var n := |outcome| - 1;
      (if outcome[n].Succeeded? then size[n] else 0) + Bytes(outcome[..n], size[..n])
  }

  /** Thread t is bringing the outcome of entry i. */
  ghost predicate Carries(s: Sys, t: Tid, i: nat) {
    s.ThreadOf(t).At? && !s.ThreadOf(t).top.Loop? && s.ThreadOf(t).top.index == i
  }

  /** Thread t is inside a submit loop that will look at the window again. */
  ghost predicate Submitting(s: Sys, t: Tid) {
    s.ThreadOf(t).At? && (!s.ThreadOf(t).top.Complete? || s.ThreadOf(t).below > 0)
  }

  ghost predicate Owed(s: Sys, i: nat) {
    i in s.accepted || exists t :: Carries(s, t, i)
  }

  ghost predicate ThreadOk(s: Sys, t: Tid) {
    s.ThreadOf(t).At? ==>
      && s.ThreadOf(t).below <= s.h.next
      && (!s.ThreadOf(t).top.Loop? ==> s.ThreadOf(t).top.index < s.h.next)
      && (s.ThreadOf(t).top.Put? ==> s.ThreadOf(t).below > 0)
  }

  ghost predicate WindowServed(s: Sys) {
    s.h.finished || s.h.inflight == s.h.max || s.h.next == |s.h.done| || exists t :: Submitting(s, t)
  }

  ghost predicate Recorded(h: Handle, outcome: seq<Outcome>) {
    && |outcome| == |h.done| == |h.size|
    && (forall i | 0 <= i < |h.done| :: h.done[i] <==> !outcome[i].Pending?)
    && h.okObjects == Tally(outcome, Succeeded) && h.bytes == Bytes(outcome, h.size)
  }

  ghost predicate Inv(s: Sys) {
    && HandleOk(s.h) && Recorded(s.h, s.outcome)
    && s.taken == seq(s.h.next, i => i)
    && (forall t :: ThreadOk(s, t))
    && (forall i: nat | i < s.h.next && !s.h.done[i] :: Owed(s, i))
    && WindowServed(s)
  }

  // ---------- Steps keep it ----------

  lemma {:induction false} TallySet(outcome: seq<Outcome>, size: seq<nat>, i: nat, x: Outcome)
    requires i < |outcome| == |size| && outcome[i].Pending? && !x.Pending?
    ensures Tally(outcome[i := x], Succeeded) == Tally(outcome, Succeeded) + if x.Succeeded? then 1 else 0
    ensures Bytes(outcome[i := x], size) == Bytes(outcome, size) + if x.Succeeded? then size[i] else 0
  {
    var n := |outcome| - 1;
    if i == n {
      assert outcome[i := x][..n] == outcome[..n];
    } else {
      TallySet(outcome[..n], size[..n], i, x);
      assert outcome[i := x][..n] == outcome[..n][i := x];
    }
  }

  /** Other threads keep their place when only thread t moves and `next` does not shrink. */
  lemma OthersKeep(s: Sys, s': Sys, t: Tid)
    requires Inv(s) && s.h.next <= s'.h.next
    requires forall u | u != t :: s'.ThreadOf(u) == s.ThreadOf(u)
    requires ThreadOk(s', t)
    ensures forall u :: ThreadOk(s', u)
  {
    forall u ensures ThreadOk(s', u) {
      assert ThreadOk(s, u);
    }
  }

  lemma OwedKeeps(s: Sys, s': Sys, t: Tid, i: nat)
    requires Owed(s, i) && forall u | u != t :: s'.ThreadOf(u) == s.ThreadOf(u)
    requires i in s.accepted ==> Owed(s', i)
    requires Carries(s, t, i) ==> Owed(s', i)
    ensures Owed(s', i)
  {
    if i !in s.accepted {
      var u :| Carries(s, u, i);
      if u != t {
        assert Carries(s', u, i);
      }
    }
  }

  lemma ServedKeeps(s: Sys, s': Sys, t: Tid)
    requires WindowServed(s) && forall u | u != t :: s'.ThreadOf(u) == s.ThreadOf(u)
    requires s'.h.finished == s.h.finished && s'.h.inflight == s.h.inflight && s'.h.max == s.h.max && s'.h.next == s.h.next
    requires |s'.h.done| == |s.h.done| && (Submitting(s, t) ==> Submitting(s', t))
    ensures WindowServed(s')
  {
    if exists u :: Submitting(s, u) {
      var u :| Submitting(s, u);
      assert Submitting(s', u);
    }
  }

  lemma SectionKeeps(s: Sys, t: Tid)
    requires Inv(s) && Enabled(s, t, Section)
    ensures Inv(Next(s, t, Section))
  {
    hide Count, Tally, Bytes;
    var s' := Next(s, t, Section);
    TakeKeeps(s.h);
    assert ThreadOk(s, t);
    OthersKeep(s, s', t);
    forall i: nat | i < s'.h.next && !s'.h.done[i] ensures Owed(s', i) {
      if i < s.h.next {
        OwedKeeps(s, s', t, i);
      } else {
        assert Carries(s', t, i);
      }
    }
    assert Take(s.h).1 ==> Submitting(s', t);
  }

  lemma PutKeeps(s: Sys, t: Tid, a: Action)
    requires Inv(s) && Enabled(s, t, a) && (a == Accept || a == Throw)
    ensures Inv(Next(s, t, a))
  {
    hide Count, Tally, Bytes;
    var s' := Next(s, t, a);
    assert ThreadOk(s, t);
    OthersKeep(s, s', t);
    forall i: nat | i < s'.h.next && !s'.h.done[i] ensures Owed(s', i) {
      if Carries(s, t, i) && a == Throw {
        assert Carries(s', t, i);
      }
      OwedKeeps(s, s', t, i);
    }
    ServedKeeps(s, s', t);
  }

  lemma CallbackKeeps(s: Sys, t: Tid, index: nat, ok: bool)
    requires Inv(s) && Enabled(s, t, Callback(index, ok))
    ensures Inv(Next(s, t, Callback(index, ok)))
  {
    hide Count, Tally, Bytes;
    var s' := Next(s, t, Callback(index, ok));
    OthersKeep(s, s', t);
    forall i: nat | i < s'.h.next && !s'.h.done[i] ensures Owed(s', i) {
      if i == index {
        assert Carries(s', t, i);
      }
      OwedKeeps(s, s', t, i);
    }
    ServedKeeps(s, s', t);
  }

  lemma RecordKeeps(h: Handle, outcome: seq<Outcome>, i: nat, ok: bool)
    requires HandleOk(h) && Recorded(h, outcome) && i < |h.done| && !h.done[i]
    ensures Recorded(S3Window.Mark(h, i, ok).0, outcome[i := if ok then Succeeded else Failed])
  {
    TallySet(outcome, h.size, i, if ok then Succeeded else Failed);
  }

  lemma MarkStepKeeps(s: Sys, t: Tid)
    requires Inv(s) && Enabled(s, t, Mark)
    ensures Inv(Next(s, t, Mark))
  {
    hide Count, Tally, Bytes;
    var s' := Next(s, t, Mark);
    assert ThreadOk(s, t);
    var index, ok := s.ThreadOf(t).top.index, s.ThreadOf(t).top.ok;
    MarkKeeps(s.h, index, ok);
    if !s.h.done[index] {
      RecordKeeps(s.h, s.outcome, index, ok);
    }
    OthersKeep(s, s', t);
    forall i: nat | i < s'.h.next && !s'.h.done[i] ensures Owed(s', i) {
      OwedKeeps(s, s', t, i);
    }
    if s.h.done[index] {
      ServedKeeps(s, s', t);
    } else if !s'.h.finished {
      assert Submitting(s', t);
    }
  }

  lemma StepKeeps(s: Sys, t: Tid, a: Action)
    requires Inv(s) && Enabled(s, t, a)
    ensures Inv(Next(s, t, a))
  {
    match a {
      case Section => SectionKeeps(s, t);
      case Accept => PutKeeps(s, t, a);
      case Throw => PutKeeps(s, t, a);
      case Mark => MarkStepKeeps(s, t);
      case Callback(i, ok) => CallbackKeeps(s, t, i, ok);
    }
  }

  // ---------- Theorems over runs ----------

  ghost predicate IsRun(run: seq<Sys>, sched: seq<(Tid, Action)>) {
    && |run| == |sched| + 1 && Init(run[0])
    && forall i | 0 <= i < |sched| ::
         && Enabled(run[i], sched[i].0, sched[i].1)
         && (Shaped(run[i].h) ==> run[i + 1] == Next(run[i], sched[i].0, sched[i].1))
  }

  lemma {:induction false} NothingYet(outcome: seq<Outcome>, size: seq<nat>)
    requires |outcome| == |size| && forall i | 0 <= i < |outcome| :: outcome[i].Pending?
    ensures Tally(outcome, Succeeded) == 0 && Bytes(outcome, size) == 0
  {
    if outcome != [] {
      NothingYet(outcome[..|outcome| - 1], size[..|outcome| - 1]);
    }
  }

  lemma InitInv(s: Sys)
    requires Init(s)
    ensures Inv(s)
  {
    NothingYet(s.outcome, s.h.size);
    assert Submitting(s, 0);
  }

  lemma {:induction false} RunKeepsInv(run: seq<Sys>, sched: seq<(Tid, Action)>, i: nat)
    requires IsRun(run, sched) && i < |run|
    ensures Inv(run[i])
  {
    if i == 0 {
      InitInv(run[0]);
    } else {
      RunKeepsInv(run, sched, i - 1);
      StepKeeps(run[i - 1], sched[i - 1].0, sched[i - 1].1);
    }
  }

  /** In every interleaving the window stays within its bound and the counters add up, entries
      are taken once each in index order, the first completion of an entry is the one that
      counts, and recursion is never deeper than the entries taken. */
  lemma WindowAccounting(run: seq<Sys>, sched: seq<(Tid, Action)>, i: nat)
    requires IsRun(run, sched) && i < |run|
    ensures var h, outcome := run[i].h, run[i].outcome;
            && h.inflight + h.completed == h.next && h.inflight <= h.max
            && h.okObjects + h.failedObjects == h.completed == Count(h.done)
            && run[i].taken == seq(h.next, k => k)
            && |outcome| == |h.size| && h.okObjects == Tally(outcome, Succeeded) && h.bytes == Bytes(outcome, h.size)
            && (forall t | run[i].ThreadOf(t).At? :: run[i].ThreadOf(t).below <= h.next)
  {
    RunKeepsInv(run, sched, i);
    forall t | run[i].ThreadOf(t).At? ensures run[i].ThreadOf(t).below <= run[i].h.next {
      assert ThreadOk(run[i], t);
    }
  }

  /** The window never stalls: an unfinished write has a thread in a submit loop, or every
      free slot is used (or nothing is left to submit) and some upload is still owed an
      outcome by the SDK or by a thread that carries it. */
  lemma NeverStalls(run: seq<Sys>, sched: seq<(Tid, Action)>, i: nat)
    requires IsRun(run, sched) && i < |run| && !run[i].h.finished
    ensures var s := run[i];
            || (exists t :: Submitting(s, t))
            || ((s.h.inflight == s.h.max || s.h.next == |s.h.done|)
                && exists k: nat :: k < s.h.next && k < |s.h.done| && !s.h.done[k] && Owed(s, k))
  {
    RunKeepsInv(run, sched, i);
    var s := run[i];
    CountBounds(s.h.done, s.h.next);
    if s.h.inflight > 0 {
      var k: nat :| k < s.h.next && !s.h.done[k];
      assert Owed(s, k);
    }
  }

  /** A finished write has an outcome for every entry, reports success exactly when none
      failed, and stays as it is. */
  lemma FinishedIsFinal(run: seq<Sys>, sched: seq<(Tid, Action)>, i: nat)
    requires IsRun(run, sched) && i < |run| && run[i].h.finished
    ensures forall k | 0 <= k < |run[i].outcome| :: !run[i].outcome[k].Pending?
    ensures run[i].h.success <==> Tally(run[i].outcome, Succeeded) == |run[i].outcome|
    ensures i < |sched| ==> run[i + 1].h == run[i].h
  {
    RunKeepsInv(run, sched, i);
    CountBounds(run[i].h.done, |run[i].h.done|);
    if i < |sched| {
      assert ThreadOk(run[i], sched[i].0);
    }
  }
}
