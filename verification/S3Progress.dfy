/** From every reachable state of an S3 write, the loops under way and the outcomes still owed are
    enough to finish it. */
module S3Progress {
  import opened Counting
  import opened S3Window
  import opened S3System

  /** A step that needs nothing new: a callback only for an upload the SDK still owes one. */
  ghost predicate Owing(s: Sys, t: Tid, a: Action, s': Sys) {
    && Enabled(s, t, a) && Shaped(s.h) && s' == Next(s, t, a)
    && (a.Callback? ==> a.index in s.accepted)
  }

  ghost predicate IsPath(run: seq<Sys>, sched: seq<(Tid, Action)>) {
    && |run| == |sched| + 1
    && forall i | 0 <= i < |sched| :: Owing(run[i], sched[i].0, sched[i].1, run[i + 1])
  }

  lemma PathCons(s: Sys, t: Tid, a: Action, run: seq<Sys>, sched: seq<(Tid, Action)>)
    requires IsPath(run, sched) && Owing(s, t, a, run[0])
    ensures IsPath([s] + run, [(t, a)] + sched)
  {
    hide Owing;
  }

  // ---------- What there is to do ----------

  ghost predicate Undone(s: Sys, k: nat) {
    k < |s.h.done| && !s.h.done[k]
  }

  /** Thread t is about to record the outcome of an undone entry. */
  ghost predicate Recording(s: Sys, t: Tid) {
    s.ThreadOf(t).At? && s.ThreadOf(t).top.Complete? && Undone(s, s.ThreadOf(t).top.index)
  }

  ghost predicate Awaited(s: Sys, k: nat) {
    k in s.accepted && k < s.h.next && Undone(s, k)
  }

  ghost predicate Handing(s: Sys, t: Tid) {
    s.ThreadOf(t).At? && s.ThreadOf(t).top.Put? && Undone(s, s.ThreadOf(t).top.index)
  }

  ghost predicate Looping(s: Sys, t: Tid) {
    s.ThreadOf(t).At? && s.ThreadOf(t).top.Loop?
  }

  /** How many kinds of step away the next outcome or submission is. */
  ghost function Phase(s: Sys): nat {
    if exists t :: Recording(s, t) then 0
    else if exists k :: Awaited(s, k) then 1
    else if exists t :: Handing(s, t) then 2
    else if exists t :: Looping(s, t) then 3
    else 4
  }

  ghost function Left(s: Sys): int {
    |s.h.done| - s.h.completed
  }

  ghost function Unsubmitted(s: Sys): int {
    |s.h.done| - s.h.next
  }

  ghost predicate Closer(s: Sys, s': Sys) {
    || Left(s') < Left(s)
    || (Left(s') == Left(s) && Unsubmitted(s') < Unsubmitted(s))
    || (Left(s') == Left(s) && Unsubmitted(s') == Unsubmitted(s) && Phase(s') < Phase(s))
  }

  lemma Bounds(s: Sys)
    requires Inv(s)
    ensures Left(s) >= 0 && Unsubmitted(s) >= 0 && Shaped(s.h)
    ensures s.h.finished <==> Left(s) == 0
  {
    CountBounds(s.h.done, s.h.next);
  }

  lemma {:induction false} Largest(ids: set<Tid>) returns (m: Tid)
    ensures forall x | x in ids :: x <= m
    decreases |ids|
  {
    if ids == {} {
      m := 0;
    } else {
      var x :| x in ids;
      var rest := Largest(ids - {x});
      m := if rest < x then x else rest;
      assert forall y | y in ids :: y == x || y in ids - {x};
    }
  }

  // ---------- One step closer ----------

  lemma RecordStep(s: Sys, t: Tid)
    requires Inv(s) && Recording(s, t)
    ensures Enabled(s, t, Action.Mark) && Shaped(s.h) && Left(Next(s, t, Action.Mark)) < Left(s)
  {
    hide Count;
  }

  lemma CallbackStep(s: Sys, t: Tid, k: nat)
    requires Inv(s) && t !in s.threads && Awaited(s, k) && Phase(s) == 1
    ensures var a := Callback(k, true);
            && Enabled(s, t, a) && Shaped(s.h) && k in s.accepted
            && Left(Next(s, t, a)) == Left(s) && Unsubmitted(Next(s, t, a)) == Unsubmitted(s) && Phase(Next(s, t, a)) == 0
  {
    hide Count;
    assert Recording(Next(s, t, Callback(k, true)), t);
  }

  lemma AcceptStep(s: Sys, t: Tid)
    requires Inv(s) && Handing(s, t) && Phase(s) == 2
    ensures Enabled(s, t, Accept) && Shaped(s.h)
    ensures var s' := Next(s, t, Accept);
            Left(s') == Left(s) && Unsubmitted(s') == Unsubmitted(s) && Phase(s') <= 1
  {
    hide Count;
    assert ThreadOk(s, t);
    assert Awaited(Next(s, t, Accept), s.ThreadOf(t).top.index);
  }

  /** An undone entry that was taken is one of the first three kinds of work. */
  lemma OwedPhase(s: Sys, k: nat)
    requires Inv(s) && k < s.h.next && !s.h.done[k]
    ensures Phase(s) <= 2
  {
    hide Count;
    assert Owed(s, k);
    if k in s.accepted {
      assert Awaited(s, k);
    } else {
      var u :| Carries(s, u, k);
      assert Recording(s, u) || Handing(s, u);
    }
  }

  /** With nothing owed, the window is empty and a submit loop is under way. */
  lemma NothingOwed(s: Sys) returns (t: Tid)
    requires Inv(s) && !s.h.finished && Phase(s) >= 3
    ensures Submitting(s, t) && s.h.next < |s.h.done| && s.h.inflight == 0
    ensures forall k: nat | k < s.h.next :: s.h.done[k]
  {
    forall k: nat | k < s.h.next ensures s.h.done[k] {
      if !s.h.done[k] {
        OwedPhase(s, k);
      }
    }
    CountBounds(s.h.done, s.h.next);
    hide Count;
    t :| Submitting(s, t);
  }

  lemma SectionStep(s: Sys, t: Tid)
    requires Inv(s) && !s.h.finished && Looping(s, t) && s.h.next < |s.h.done| && s.h.inflight == 0
    ensures Enabled(s, t, Section) && Shaped(s.h)
    ensures var s' := Next(s, t, Section); Left(s') == Left(s) && Unsubmitted(s') < Unsubmitted(s)
  {
    hide Count;
    TakeKeeps(s.h);
  }

  /** A thread busy with an entry that is already done gets back to its submit loop. */
  lemma ReturnStep(s: Sys, t: Tid) returns (a: Action)
    requires Inv(s) && Phase(s) == 4 && Submitting(s, t) && forall k: nat | k < s.h.next :: s.h.done[k]
    ensures Enabled(s, t, a) && Shaped(s.h) && !a.Callback?
    ensures var s' := Next(s, t, a); Left(s') == Left(s) && Unsubmitted(s') == Unsubmitted(s) && Phase(s') <= 3
  {
    hide Count;
    assert ThreadOk(s, t);
    assert !Looping(s, t);
    a := if s.ThreadOf(t).top.Put? then Accept else Action.Mark;
    assert Looping(Next(s, t, a), t);
  }

  /** While the write is unfinished, some step that needs nothing new brings it closer. */
  lemma StepCloser(s: Sys) returns (t: Tid, a: Action)
    requires Inv(s) && !s.h.finished
    ensures Enabled(s, t, a) && Shaped(s.h) && Owing(s, t, a, Next(s, t, a)) && Closer(s, Next(s, t, a))
  {
    hide Inv, Enabled, Next, Recording, Awaited, Handing, Looping, Left, Unsubmitted;
    Bounds(s);
    if w :| Recording(s, w) {
      t, a := w, Action.Mark;
      RecordStep(s, t);
    } else if k :| Awaited(s, k) {
      var m := Largest(s.threads.Keys);
      t, a := m + 1, Callback(k, true);
      CallbackStep(s, t, k);
    } else if w :| Handing(s, w) {
      t, a := w, Accept;
      AcceptStep(s, t);
    } else {
      var w := NothingOwed(s);
      if u :| Looping(s, u) {
        t, a := u, Section;
        SectionStep(s, t);
      } else {
        t := w;
        a := ReturnStep(s, w);
      }
    }
  }

  lemma {:induction false} CanFinish(s: Sys) returns (run: seq<Sys>, sched: seq<(Tid, Action)>)
    requires Inv(s)
    ensures IsPath(run, sched) && run[0] == s && run[|sched|].h.finished && Inv(run[|sched|])
    decreases if Inv(s) then Left(s) else 0, if Inv(s) then Unsubmitted(s) else 0, Phase(s)
  {
    hide Owing, Enabled, Next, Phase;
    Bounds(s);
    if s.h.finished {
      run, sched := [s], [];
    } else {
      var t, a := StepCloser(s);
      var s' := Next(s, t, a);
      StepKeeps(s, t, a);
      Bounds(s');
      var rest, path := CanFinish(s');
      PathCons(s, t, a, rest, path);
      run, sched := [s] + rest, [(t, a)] + path;
    }
  }

  lemma FinishedOutcomes(s: Sys)
    requires Inv(s) && s.h.finished
    ensures forall k | 0 <= k < |s.outcome| :: !s.outcome[k].Pending?
  {
    CountBounds(s.h.done, |s.h.done|);
  }

  /** From every state an interleaving can reach, some schedule of owed callbacks and of steps
      of the loops under way finishes the write, with an outcome for every entry. */
  lemma RunCanFinish(run: seq<Sys>, sched: seq<(Tid, Action)>, i: nat) returns (rest: seq<Sys>, path: seq<(Tid, Action)>)
    requires IsRun(run, sched) && i < |run|
    ensures IsPath(rest, path) && rest[0] == run[i] && rest[|path|].h.finished
    ensures forall k | 0 <= k < |rest[|path|].outcome| :: !rest[|path|].outcome[k].Pending?
  {
    RunKeepsInv(run, sched, i);
    rest, path := CanFinish(run[i]);
    FinishedOutcomes(rest[|path|]);
  }

  // ---------- Every schedule ends ----------

  /** How many more steps a thread may take, counting what its steps hand on. */
  function Weight(th: Thread): nat {
    match th
    case Away => 0
    case At(Loop, below) => 1 + below
    case At(Put(_), below) => 4 + below
    case At(Complete(_, _), below) => 2 + below
  }

  ghost function Load(s: Sys, ids: set<Tid>): nat {
    if ids == {} then 0
    else
      var t :| t in ids;
      Weight(s.ThreadOf(t)) + Load(s, ids - {t})
  }

  /** Each entry still to be taken, each callback still owed and each call under way. */
  ghost function Work(s: Sys): int {
    5 * Unsubmitted(s) + 3 * |s.accepted| + Load(s, s.threads.Keys)
  }

  lemma {:induction false} LoadOf(s: Sys, ids: set<Tid>, t: Tid)
    requires t in ids
    ensures Load(s, ids) == Weight(s.ThreadOf(t)) + Load(s, ids - {t})
    decreases |ids|
  {
    var u :| u in ids && Load(s, ids) == Weight(s.ThreadOf(u)) + Load(s, ids - {u});
    if u != t {
      LoadOf(s, ids - {u}, t);
      LoadOf(s, ids - {t}, u);
      assert ids - {u} - {t} == ids - {t} - {u};
    }
  }

  lemma {:induction false} LoadSame(s: Sys, s': Sys, ids: set<Tid>)
    requires forall t | t in ids :: s.ThreadOf(t) == s'.ThreadOf(t)
    ensures Load(s, ids) == Load(s', ids)
    decreases |ids|
  {
    if ids != {} {
      var t :| t in ids;
      LoadSame(s, s', ids - {t});
      LoadOf(s, ids, t);
      LoadOf(s', ids, t);
    }
  }

  /** When one thread moves, the load changes by that thread's weight. */
  lemma LoadMoves(s: Sys, s': Sys, t: Tid)
    requires s'.threads.Keys == s.threads.Keys + {t} && t in s'.threads
    requires forall u | u != t :: s'.ThreadOf(u) == s.ThreadOf(u)
    ensures Load(s', s'.threads.Keys) + Weight(s.ThreadOf(t)) == Load(s, s.threads.Keys) + Weight(s'.ThreadOf(t))
  {
    var rest := s.threads.Keys - {t};
    LoadOf(s', s'.threads.Keys, t);
    assert s'.threads.Keys - {t} == rest;
    LoadSame(s, s', rest);
    if t in s.threads {
      LoadOf(s, s.threads.Keys, t);
    } else {
      assert s.threads.Keys - {t} == s.threads.Keys;
    }
  }

  lemma Grown(accepted: set<nat>, i: nat)
    ensures |accepted + {i}| <= |accepted| + 1 && (i in accepted ==> |accepted - {i}| == |accepted| - 1)
  {
    if i in accepted {
      assert accepted + {i} == accepted;
    }
  }

  /** Every step that needs nothing new uses up some of the work. */
  lemma StepWorks(s: Sys, t: Tid, a: Action, s': Sys)
    requires Inv(s) && Owing(s, t, a, s')
    ensures Work(s') < Work(s)
  {
    hide Load, Inv, Weight, Enabled, Unsubmitted;
    OnlyMoves(s, t, a);
    LoadMoves(s, s', t);
    if a.Section? {
      SectionWorks(s, t);
    } else {
      OtherWorks(s, t, a);
    }
  }

  lemma OnlyMoves(s: Sys, t: Tid, a: Action)
    requires Shaped(s.h) && Enabled(s, t, a)
    ensures var s' := Next(s, t, a);
            && s'.threads.Keys == s.threads.Keys + {t} && t in s'.threads
            && forall u | u != t :: s'.ThreadOf(u) == s.ThreadOf(u)
  {
    hide Take, S3Window.Mark;
  }

  lemma SectionWorks(s: Sys, t: Tid)
    requires Inv(s) && Enabled(s, t, Section)
    ensures var s' := Next(s, t, Section);
            5 * Unsubmitted(s') + Weight(s'.ThreadOf(t)) < 5 * Unsubmitted(s) + Weight(s.ThreadOf(t)) && s'.accepted == s.accepted
  {
    hide Count, Recorded, WindowServed, ThreadOk, Owed;
    TakeKeeps(s.h);
  }

  lemma OtherWorks(s: Sys, t: Tid, a: Action)
    requires Shaped(s.h) && Enabled(s, t, a) && !a.Section? && (a.Callback? ==> a.index in s.accepted)
    ensures var s' := Next(s, t, a);
            && Unsubmitted(s') == Unsubmitted(s)
            && 3 * |s'.accepted| + Weight(s'.ThreadOf(t)) < 3 * |s.accepted| + Weight(s.ThreadOf(t))
  {
    if a.Accept? {
      Grown(s.accepted, s.ThreadOf(t).top.index);
    } else if a.Callback? {
      Grown(s.accepted, a.index);
    }
  }

  /** Nothing is left that could happen by itself: no call is under way and no callback is owed that
      could come. */
  ghost predicate AtRest(s: Sys) {
    forall t, a :: !(Enabled(s, t, a) && Shaped(s.h) && (a.Callback? ==> a.index in s.accepted))
  }

  /** Whatever the order of the owed callbacks and of the steps of the calls under way, and whatever
      their outcomes: from any reachable state there are at most Work(s) such steps, and when none is
      left the write is finished. */
  lemma {:induction false} EveryScheduleFinishes(run: seq<Sys>, sched: seq<(Tid, Action)>)
    requires IsPath(run, sched) && Inv(run[0])
    ensures |sched| <= Work(run[0]) && (AtRest(run[|sched|]) ==> run[|sched|].h.finished)
    decreases |sched|
  {
    hide Owing, Enabled, Next, Count;
    Bounds(run[0]);
    if sched == [] {
      if !run[0].h.finished {
        var t, a := StepCloser(run[0]);
        OwingStep(run[0], t, a);
      }
    } else {
      var (t, a) := sched[0];
      OwingIs(run[0], t, a, run[1]);
      StepWorks(run[0], t, a, run[1]);
      StepKeeps(run[0], t, a);
      EveryScheduleFinishes(run[1..], sched[1..]);
    }
  }

  lemma OwingIs(s: Sys, t: Tid, a: Action, s': Sys)
    requires Owing(s, t, a, s')
    ensures Enabled(s, t, a) && Shaped(s.h) && s' == Next(s, t, a)
  {
  }

  lemma OwingStep(s: Sys, t: Tid, a: Action)
    requires Enabled(s, t, a) && Shaped(s.h) && Owing(s, t, a, Next(s, t, a))
    ensures !AtRest(s)
  {
  }

  /** So for every run: what follows any of its states by itself is bounded and finishes the write. */
  lemma RunMustFinish(run: seq<Sys>, sched: seq<(Tid, Action)>, i: nat, rest: seq<Sys>, path: seq<(Tid, Action)>)
    requires IsRun(run, sched) && i < |run| && IsPath(rest, path) && rest[0] == run[i]
    ensures |path| <= Work(run[i]) && (AtRest(rest[|path|]) ==> rest[|path|].h.finished)
  {
    RunKeepsInv(run, sched, i);
    EveryScheduleFinishes(rest, path);
  }
}
