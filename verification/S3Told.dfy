/** The books of an S3 write against what it was told: each entry's outcome is the one that was
    reported for it, by a callback of the SDK or by an exception of its submission, and recorded first. */
module S3Told {
  import opened Counting
  import opened S3Window
  import opened S3System

  /** For each thread, the entry it last took for submission and what it is about to record; for each
      entry, what was recorded first. */
  datatype History = History(submitting: map<Tid, nat>, bringing: map<Tid, (nat, bool)>, told: seq<Outcome>)

  function Said(ok: bool): Outcome {
    if ok then Succeeded else Failed
  }

  /** One step of the schedule. The submit loop takes the next entry; an exception says that entry
      failed; a callback says what became of the entry it names; recording counts if it is the first. */
  function Heard(h: History, t: Tid, a: Action, next: nat): History {
    match a
    case Section => h.(submitting := h.submitting[t := next])
    case Accept => h
    case Throw => if t in h.submitting then h.(bringing := h.bringing[t := (h.submitting[t], false)]) else h
    case Callback(i, ok) => h.(bringing := h.bringing[t := (i, ok)])
    case Mark =>
      if t in h.bringing && h.bringing[t].0 < |h.told| && h.told[h.bringing[t].0].Pending?
      then h.(told := h.told[h.bringing[t].0 := Said(h.bringing[t].1)])
      else h
  }

  /** What the first i actions of a schedule say, for n entries; next[k] is the entry that the submit
      loop is up to before action k. */
  function HeardAll(sched: seq<(Tid, Action)>, next: seq<nat>, n: nat, i: nat): History
    requires i <= |sched| && i <= |next|
  {
    if i == 0 then History(map[], map[], seq(n, _ => Pending))
    else Heard(HeardAll(sched, next, n, i - 1), sched[i - 1].0, sched[i - 1].1, next[i - 1])
  }

  ghost function Nexts(run: seq<Sys>): seq<nat> {
    seq(|run|, i requires 0 <= i < |run| => run[i].h.next)
  }

  /** What each entry was told in the first i steps of a run. */
  ghost function Told(run: seq<Sys>, sched: seq<(Tid, Action)>, i: nat): seq<Outcome>
    requires |run| == |sched| + 1 && i <= |sched|
  {
    HeardAll(sched, Nexts(run), |run[0].h.done|, i).told
  }

  // ---------- The system records what it is told ----------

  ghost predicate ThreadAgrees(h: History, s: Sys, t: Tid) {
    s.ThreadOf(t).At? ==>
      match s.ThreadOf(t).top
      case Loop => true
      case Put(i) => t in h.submitting && h.submitting[t] == i
      case Complete(i, ok) => t in h.bringing && h.bringing[t] == (i, ok)
  }

  ghost predicate Agrees(h: History, s: Sys) {
    h.told == s.outcome && forall t :: ThreadAgrees(h, s, t)
  }

  lemma StepAgrees(h: History, s: Sys, t: Tid, a: Action)
    requires Inv(s) && Enabled(s, t, a) && Agrees(h, s)
    ensures Agrees(Heard(h, t, a, s.h.next), Next(s, t, a)) && Next(s, t, a).h.size == s.h.size
  {
    hide Count, Tally, Bytes, Owed, WindowServed;
    var s', h' := Next(s, t, a), Heard(h, t, a, s.h.next);
    assert ThreadAgrees(h, s, t);
    if a.Section? {
      TakeKeeps(s.h);
    }
    forall u ensures ThreadAgrees(h', s', u) {
      assert ThreadAgrees(h, s, u);
    }
  }

  lemma {:induction false} RunAgrees(run: seq<Sys>, sched: seq<(Tid, Action)>, i: nat)
    requires IsRun(run, sched) && i <= |sched|
    ensures Agrees(HeardAll(sched, Nexts(run), |run[0].h.done|, i), run[i]) && run[i].h.size == run[0].h.size
  {
    hide Inv, Next, Enabled, Heard;
    if i == 0 {
      InitAgrees(run[0]);
    } else {
      RunAgrees(run, sched, i - 1);
      RunKeepsInv(run, sched, i - 1);
      IsShaped(run[i - 1]);
      StepAgrees(HeardAll(sched, Nexts(run), |run[0].h.done|, i - 1), run[i - 1], sched[i - 1].0, sched[i - 1].1);
    }
  }

  lemma IsShaped(s: Sys)
    requires Inv(s)
    ensures Shaped(s.h)
  {
  }

  lemma InitAgrees(s: Sys)
    requires Init(s)
    ensures Agrees(History(map[], map[], seq(|s.h.done|, _ => Pending)), s)
  {
  }

  // ---------- The books ----------

  lemma {:induction false} TallySplit(done: seq<bool>, outcome: seq<Outcome>)
    requires |done| == |outcome| && forall i | 0 <= i < |done| :: done[i] <==> !outcome[i].Pending?
    ensures Tally(outcome, Succeeded) + Tally(outcome, Failed) == Count(done)
  {
    if done != [] {
      TallySplit(done[..|done| - 1], outcome[..|done| - 1]);
    }
  }

  lemma {:induction false} TallyAll(outcome: seq<Outcome>, x: Outcome)
    ensures Tally(outcome, x) <= |outcome|
    ensures Tally(outcome, x) == |outcome| <==> forall i | 0 <= i < |outcome| :: outcome[i] == x
    ensures Tally(outcome, x) == 0 <==> forall i | 0 <= i < |outcome| :: outcome[i] != x
  {
    if outcome != [] {
      TallyAll(outcome[..|outcome| - 1], x);
    }
  }

  /** In every state of every interleaving, the objects and bytes counted as uploaded are those of the
      entries that were told so first, the failed objects those told otherwise, and nothing is counted
      for the rest. A finished write had an answer for every entry, and reports success exactly when
      every answer was a success. */
  lemma BooksFollowReports(run: seq<Sys>, sched: seq<(Tid, Action)>, i: nat)
    requires IsRun(run, sched) && i <= |sched|
    ensures var h, told := run[i].h, Told(run, sched, i);
            && |told| == |h.size| == |h.done| && h.size == run[0].h.size
            && h.okObjects == Tally(told, Succeeded) && h.failedObjects == Tally(told, Failed)
            && h.bytes == Bytes(told, h.size)
            && (forall k | 0 <= k < |told| :: h.done[k] <==> !told[k].Pending?)
            && (h.finished <==> forall k | 0 <= k < |told| :: !told[k].Pending?)
            && (h.finished ==> (h.success <==> forall k | 0 <= k < |told| :: told[k].Succeeded?))
            && (h.finished ==> (h.failedObjects == 0 <==> forall k | 0 <= k < |told| :: told[k].Succeeded?))
  {
    RunKeepsInv(run, sched, i);
    RunAgrees(run, sched, i);
    var s := run[i];
    TallySplit(s.h.done, s.outcome);
    TallyAll(s.outcome, Failed);
    CountBounds(s.h.done, |s.h.done|);
  }

  /** The first thing an entry is told stands. */
  lemma {:induction false} ToldStands(sched: seq<(Tid, Action)>, next: seq<nat>, n: nat, i: nat, j: nat, k: nat)
    requires i <= j <= |sched| && j <= |next| && k < n
    requires |HeardAll(sched, next, n, i).told| == n && !HeardAll(sched, next, n, i).told[k].Pending?
    ensures |HeardAll(sched, next, n, j).told| == n
    ensures HeardAll(sched, next, n, j).told[k] == HeardAll(sched, next, n, i).told[k]
    decreases j
  {
    if i < j {
      ToldStands(sched, next, n, i, j - 1, k);
    }
  }
}
