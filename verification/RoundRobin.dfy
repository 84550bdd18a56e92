/** The two-level round robin of Engine::get_rx_burst: interfaces in turn, and within an
    interface its RX queues in turn. What one queue returns when it is polled is an input. */
module RoundRobin {
  import opened Words

  datatype Status = NullPtr | NotReady | InvalidParameter | Other(code: int)

  /** Every status but these two ends a search and moves its index on. */
  predicate Ends(s: Status) {
    s != NullPtr && s != NotReady
  }

  /** What each queue of each port would return if polled during one call. */
  type Probe = seq<seq<Status>>

  /** next_port_index_, and next_queue_index_map_ for the ports that exist. */
  datatype Sched = Sched(nextPort: nat, nextQueue: seq<nat>)

  /** Which queue of which port a call polled last, when some poll ended the search. */
  datatype Served = Nothing | Queue(port: nat, index: nat) | BadPort

  // ---------- One cyclic search ----------

  /** The first offset from j on whose element, counted cyclically from `next`, ends the search. */
  function First(results: seq<Status>, next: nat, j: nat): (r: nat)
    requires j <= |results|
    ensures j <= r <= |results|
    ensures r < |results| ==> Ends(results[Place(next, r, |results|)])
    ensures forall i | j <= i < r :: !Ends(results[Place(next, i, |results|)])
    decreases |results| - j
  {
    if j == |results| || Ends(results[Place(next, j, |results|)]) then j else First(results, next, j + 1)
  }

  /** Whether some of the first j results asked were NOT_READY. */
  predicate SawNotReady(results: seq<Status>, next: nat, j: nat)
    requires j <= |results|
  {
    j > 0 && (SawNotReady(results, next, j - 1) || results[Place(next, j - 1, |results|)] == NotReady)
  }

  /** The status a search returns, and the index it served (0 when it served none). */
  function Search(results: seq<Status>, next: nat): (r: (Status, nat))
    ensures Ends(r.0) ==> r.1 < |results| && results[r.1] == r.0
  {
    var j := First(results, next, 0);
    if j < |results| then (results[Place(next, j, |results|)], Place(next, j, |results|))
    else (if NotReady in results then NotReady else NullPtr, 0)
  }

  // ---------- Cyclic arithmetic ----------

  /** How many offsets after `next` the index `goal` is reached. */
  function Distance(next: nat, goal: nat, n: nat): (d: nat)
    requires goal < n
    ensures d < n
  {
    var a := next % n;
    if a <= goal then goal - a else goal + n - a
  }

  lemma PlaceSplit(next: nat, j: nat, n: nat)
    requires j < n
    ensures Place(next, j, n) == if next % n + j < n then next % n + j else next % n + j - n
  {
    var a, k := next % n, next / n;
    assert next + j == k * n + (a + j);
    if a + j < n {
      DivModUnique(next + j, n, k, a + j);
    } else {
      assert next + j == (k + 1) * n + (a + j - n);
      DivModUnique(next + j, n, k + 1, a + j - n);
    }
  }

  lemma PlaceAtDistance(next: nat, goal: nat, n: nat)
    requires goal < n
    ensures Place(next, Distance(next, goal, n), n) == goal
  {
    PlaceSplit(next, Distance(next, goal, n), n);
  }

  /** Serving offset j leaves an index further on exactly j + 1 offsets nearer. */
  lemma DistanceAfter(next: nat, goal: nat, j: nat, n: nat)
    requires goal < n && j < n
    ensures j < Distance(next, goal, n) ==>
              Distance((Place(next, j, n) + 1) % n, goal, n) == Distance(next, goal, n) - j - 1
  {
    PlaceSplit(next, j, n);
    var at := Place(next, j, n);
    if at + 1 < n {
      DivModUnique(at + 1, n, 0, at + 1);
    } else {
      DivModUnique(n, n, 1, 0);
      DivModUnique(0, n, 0, 0);
    }
  }

  /** A full turn asks every index, so the flag says whether any result was NOT_READY. */
  lemma FullTurn(results: seq<Status>, next: nat)
    ensures SawNotReady(results, next, |results|) <==> NotReady in results
  {
    if NotReady in results {
      var k: nat :| k < |results| && results[k] == NotReady;
      PlaceAtDistance(next, k, |results|);
      SawOne(results, next, Distance(next, k, |results|), |results|);
    }
    SawOnly(results, next, |results|);
  }

  lemma {:induction false} SawOne(results: seq<Status>, next: nat, j: nat, n: nat)
    requires j < n <= |results| && results[Place(next, j, |results|)] == NotReady
    ensures SawNotReady(results, next, n)
  {
    if n > j + 1 { SawOne(results, next, j, n - 1); }
  }

  lemma {:induction false} SawOnly(results: seq<Status>, next: nat, n: nat)
    requires n <= |results|
    ensures SawNotReady(results, next, n) ==> NotReady in results
  {
    if n > 0 { SawOnly(results, next, n - 1); }
  }

  // ---------- The two levels ----------

  /** get_rx_burst(burst, port_id), for any port id. */
  function PortResult(probe: Probe, nextQueue: seq<nat>, port: int): (Status, nat)
    requires |nextQueue| == |probe|
  {
    if 0 <= port < |probe| then Search(probe[port], nextQueue[port]) else (InvalidParameter, 0)
  }

  function AfterPort(probe: Probe, nextQueue: seq<nat>, port: int): (r: seq<nat>)
    requires |nextQueue| == |probe|
    ensures |r| == |nextQueue|
  {
    var (st, q) := PortResult(probe, nextQueue, port);
    if 0 <= port < |probe| && Ends(st) then nextQueue[port := (q + 1) % |probe[port]|] else nextQueue
  }

  function PortResults(ids: seq<int>, probe: Probe, nextQueue: seq<nat>): (r: seq<Status>)
    requires |nextQueue| == |probe|
    ensures |r| == |ids|
  {
    seq(|ids|, k requires 0 <= k < |ids| => PortResult(probe, nextQueue, ids[k]).0)
  }

  /** get_rx_burst(burst): the status, what was served, and the state left behind. */
  function Serve(ids: seq<int>, s: Sched, probe: Probe): (r: (Status, Served, Sched))
    requires |s.nextQueue| == |probe| == |ids|
    ensures |r.2.nextQueue| == |s.nextQueue|
  {
    var (st, k) := Search(PortResults(ids, probe, s.nextQueue), s.nextPort);
    if Ends(st) then
      (st,
       if 0 <= ids[k] < |probe| then Queue(ids[k], PortResult(probe, s.nextQueue, ids[k]).1) else BadPort,
       Sched((k + 1) % |ids|, AfterPort(probe, s.nextQueue, ids[k])))
    else (st, Nothing, s)
  }

  // ---------- The code ----------

  class RxScheduler {
    const ids: seq<int>
    var nextPort: nat
    var nextQueue: seq<nat>

    function View(): Sched
      reads this
    {
      Sched(nextPort, nextQueue)
    }

    constructor (ids: seq<int>)
      ensures this.ids == ids && nextPort == 0 && nextQueue == seq(|ids|, _ => 0)
    {
      this.ids, nextPort, nextQueue := ids, 0, seq(|ids|, _ => 0);
    }

    /** get_rx_burst(burst, port_id): every queue is asked once, starting at the port's index. */
    method GetRxBurstOnPort(probe: Probe, port: int) returns (status: Status, queue: nat)
      requires |nextQueue| == |probe|
      modifies `nextQueue
      ensures (status, queue) == PortResult(probe, old(nextQueue), port)
      ensures nextQueue == AfterPort(probe, old(nextQueue), port)
    {
      if port < 0 || port >= |probe| {
        return InvalidParameter, 0;
      }
      var results, next, sawNotReady := probe[port], nextQueue[port], false;
      for i := 0 to |results|
        invariant nextQueue == old(nextQueue)
        invariant First(results, next, 0) == First(results, next, i)
        invariant sawNotReady == SawNotReady(results, next, i)
      {
        var at := Place(next, i, |results|);
        if Ends(results[at]) {
          nextQueue := nextQueue[port := (at + 1) % |results|];
          return results[at], at;
        }
        sawNotReady := sawNotReady || results[at] == NotReady;
      }
      FullTurn(results, next);
      return if sawNotReady then NotReady else NullPtr, 0;
    }

    /** get_rx_burst(burst): every interface is asked once, starting at next_port_index_. */
    method GetRxBurst(probe: Probe) returns (status: Status, served: Served)
      requires |nextQueue| == |probe| == |ids|
      modifies this
      ensures (status, served, View()) == Serve(ids, old(View()), probe)
    {
      hide Place;
      if |ids| == 0 {
        return NullPtr, Nothing;
      }
      ghost var results := PortResults(ids, probe, nextQueue);
      var next, sawNotReady := nextPort, false;
      for i := 0 to |ids|
        invariant nextQueue == old(nextQueue) && nextPort == old(nextPort)
        invariant First(results, next, 0) == First(results, next, i)
        invariant sawNotReady == SawNotReady(results, next, i)
      {
        var at := Place(next, i, |ids|);
        var st, q := GetRxBurstOnPort(probe, ids[at]);
        assert st == results[at];
        if Ends(st) {
          nextPort := (at + 1) % |ids|;
          return st, if 0 <= ids[at] < |probe| then Queue(ids[at], q) else BadPort;
        }
        sawNotReady := sawNotReady || st == NotReady;
      }
      FullTurn(results, next);
      return if sawNotReady then NotReady else NullPtr, Nothing;
    }
  }

  // ---------- What a call returns ----------

  /** Some queue has a burst, or an error to report. */
  ghost predicate AnyReady(results: seq<Status>) {
    exists k | 0 <= k < |results| :: results[k] != NullPtr && results[k] != NotReady
  }

  /** A search finds a result that is neither a null pointer nor NOT_READY if there is one; otherwise it
      says NOT_READY if some result does. */
  lemma SearchFinds(results: seq<Status>, next: nat)
    ensures var (st, at) := Search(results, next);
            if AnyReady(results) then at < |results| && st == results[at] && st != NullPtr && st != NotReady
            else st == if NotReady in results then NotReady else NullPtr
  {
    var n := |results|;
    if AnyReady(results) {
      var k: nat :| k < n && results[k] != NullPtr && results[k] != NotReady;
      PlaceAtDistance(next, k, n);
    }
  }

  /** When interface k has port id k, a call serves a ready queue if there is one anywhere, with what
      that queue returned. Otherwise it serves none, moves no index, and says NOT_READY exactly when some
      queue of some port does. */
  lemma CallReturns(ids: seq<int>, s: Sched, probe: Probe)
    requires |s.nextQueue| == |probe| == |ids| && Identity(ids)
    ensures var (st, served, next) := Serve(ids, s, probe);
            if exists p | 0 <= p < |probe| :: AnyReady(probe[p])
            then && served.Queue? && served.port < |probe| && served.index < |probe[served.port]|
                 && st == probe[served.port][served.index] && st != NullPtr && st != NotReady
            else && served == Nothing && next == s
                 && st == if exists p | 0 <= p < |probe| :: NotReady in probe[p] then NotReady else NullPtr
  {
    hide Search, AnyReady;
    var results := PortResults(ids, probe, s.nextQueue);
    forall k | 0 <= k < |ids|
      ensures AnyReady(probe[k]) <==> results[k] != NullPtr && results[k] != NotReady
      ensures !AnyReady(probe[k]) ==> (results[k] == NotReady <==> NotReady in probe[k])
    {
      SearchFinds(probe[k], s.nextQueue[k]);
    }
    ReadySome(results);
    SearchFinds(results, s.nextPort);
    var k := Search(results, s.nextPort).1;
    if k < |ids| {
      SearchFinds(probe[k], s.nextQueue[k]);
    }
    if p :| 0 <= p < |probe| && NotReady in probe[p] {
      assert results[p] in results;
    }
  }

  lemma ReadySome(results: seq<Status>)
    ensures AnyReady(results) <==> exists k | 0 <= k < |results| :: results[k] != NullPtr && results[k] != NotReady
  {
  }

  /** Interface k has port id k. */
  predicate Identity(ids: seq<int>) {
    forall k | 0 <= k < |ids| :: ids[k] == k
  }

  // ---------- Fairness ----------

  predicate Serves(ids: seq<int>, s: Sched, probe: Probe, p: nat, q: nat)
    requires |s.nextQueue| == |probe| == |ids|
  {
    Serve(ids, s, probe).1 == Queue(p, q)
  }

  /** A search serves a given ready index, or comes strictly nearer to it. */
  lemma SearchNears(results: seq<Status>, next: nat, goal: nat)
    requires goal < |results| && Ends(results[goal])
    ensures var (st, at) := Search(results, next);
            && Ends(st) && at < |results|
            && (at == goal ||
                Distance((at + 1) % |results|, goal, |results|) < Distance(next, goal, |results|))
  {
    var n := |results|;
    var j, d := First(results, next, 0), Distance(next, goal, n);
    PlaceAtDistance(next, goal, n);
    hide Place, Distance;
    assert j <= d;
    DistanceAfter(next, goal, j, n);
  }

  /** How far the scheduler is from queue q of port p. */
  function Rank(s: Sched, p: nat, q: nat, ports: nat, queues: nat): (r: nat)
    requires p < ports && q < queues && p < |s.nextQueue|
  {
    Distance(s.nextQueue[p], q, queues) * ports + Distance(s.nextPort, p, ports)
  }

  lemma RankBound(s: Sched, p: nat, q: nat, ports: nat, queues: nat)
    requires p < ports && q < queues && p < |s.nextQueue|
    ensures Rank(s, p, q, ports, queues) < ports * queues
  {
    hide Distance;
    var d := Distance(s.nextQueue[p], q, queues);
    MulOrder(d, queues, ports);
  }

  /** A call that leaves a ready queue unserved brings the scheduler strictly nearer to it. */
  lemma CallNears(ids: seq<int>, s: Sched, probe: Probe, p: nat, q: nat)
    requires |s.nextQueue| == |probe| == |ids| && Identity(ids)
    requires p < |ids| && q < |probe[p]| && Ends(probe[p][q])
    ensures Serves(ids, s, probe, p, q) ||
            Rank(Serve(ids, s, probe).2, p, q, |ids|, |probe[p]|) < Rank(s, p, q, |ids|, |probe[p]|)
  {
    hide Place, First, Distance, Search;
    var n := |ids|;
    var results := PortResults(ids, probe, s.nextQueue);
    SearchNears(probe[p], s.nextQueue[p], q);
    assert results[p] == Search(probe[p], s.nextQueue[p]).0;
    SearchNears(results, s.nextPort, p);
    var k := Search(results, s.nextPort).1;
    assert ids[k] == k;
    var next := Serve(ids, s, probe).2;
    if k == p {
      var d, d' := Distance(s.nextQueue[p], q, |probe[p]|), Distance(next.nextQueue[p], q, |probe[p]|);
      if d' < d { MulOrder(d', d, n); }
    } else {
      assert next.nextQueue[p] == s.nextQueue[p];
    }
  }

  ghost predicate IsRun(ids: seq<int>, run: seq<Sched>, probes: seq<Probe>) {
    && |run| == |probes| + 1
    && (forall i | 0 <= i < |run| :: |run[i].nextQueue| == |ids|)
    && (forall i | 0 <= i < |probes| :: |probes[i]| == |ids|)
    && (forall i | 0 <= i < |probes| :: run[i + 1] == Serve(ids, run[i], probes[i]).2)
  }

  /** Queue q of port p, one of `queues`, is ready throughout; other queues do what they like. */
  ghost predicate StaysReady(probes: seq<Probe>, p: nat, q: nat, queues: nat) {
    forall i | 0 <= i < |probes| ::
      && p < |probes[i]| && q < |probes[i][p]| == queues
      && probes[i][p][q] != NullPtr && probes[i][p][q] != NotReady
  }

  lemma {:induction false} NearsEveryCall(ids: seq<int>, run: seq<Sched>, probes: seq<Probe>, p: nat, q: nat,
                                          queues: nat, m: nat)
    requires Identity(ids) && IsRun(ids, run, probes) && p < |ids| && q < queues
    requires StaysReady(probes, p, q, queues) && m <= |probes|
    requires forall i | 0 <= i < m :: !Serves(ids, run[i], probes[i], p, q)
    ensures Rank(run[m], p, q, |ids|, queues) + m <= Rank(run[0], p, q, |ids|, queues)
  {
    hide Rank, Serve, Serves;
    if m > 0 {
      NearsEveryCall(ids, run, probes, p, q, queues, m - 1);
      CallNears(ids, run[m - 1], probes[m - 1], p, q);
      assert run[m - 1 + 1] == Serve(ids, run[m - 1], probes[m - 1]).2;
    }
  }

  /** From any scheduler state, a queue that stays ready is served within
      (interfaces) x (RX queues of its port) calls, whatever the other queues return. */
  lemma ServedWithinBound(ids: seq<int>, run: seq<Sched>, probes: seq<Probe>, p: nat, q: nat, queues: nat)
    requires Identity(ids) && IsRun(ids, run, probes) && p < |ids| && q < queues
    requires StaysReady(probes, p, q, queues) && |probes| >= |ids| * queues
    ensures exists i: nat :: i < |ids| * queues && i < |probes| && Serves(ids, run[i], probes[i], p, q)
  {
    hide Rank, Serve, Serves;
    var bound := |ids| * queues;
    if forall i: nat | i < bound :: !Serves(ids, run[i], probes[i], p, q) {
      assert bound >= 0;
      NearsEveryCall(ids, run, probes, p, q, queues, bound);
      RankBound(run[0], p, q, |ids|, queues);
      assert false;
    }
  }
}
