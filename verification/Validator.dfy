/** The checks of validate_network_config on queues, flows, reorder configurations and shared TX,
    and what every accepted configuration is guaranteed to satisfy. The other checks of the
    validator can only clear its verdict; they enter as one input. */
module Validator {
  import opened Words

  datatype Poll = Direct | Indirect | BadPoll

  datatype BufferMode = Cyclic | Shared | BadMode

  datatype Region = Region(isNull: bool, numBufs: nat, bufSize: nat)

  datatype Queue = Queue(id: nat, mrs: seq<string>, poll: Poll, hasCore: bool, batch: int, timeoutUs: nat)

  datatype TxQueue = TxQueue(common: Queue, mode: BufferMode, maxInflight: nat)

  /** A flow ends with a queue action or not; the action names a list of queues or one queue. */
  datatype Flow = Flow(id: nat, toQueue: bool, queueId: nat, queueIdList: seq<nat>)

  datatype Reorder = Reorder(flowIds: seq<nat>, region: string)

  datatype Interface = Interface(rx: seq<Queue>, tx: seq<TxQueue>, flows: seq<Flow>, reorders: seq<Reorder>)

  /** rawIbverbs: a raw stream on ibverbs; directOk: that, or a socket stream on RDMA. */
  datatype Config = Config(rawIbverbs: bool, directOk: bool, mrs: map<string, Region>, ifs: seq<Interface>)

  const MAX_NUM_SEGS: nat := 4

  function QueueIds(f: Flow): (r: seq<nat>)
    ensures r != []
  {
    if f.queueIdList != [] then f.queueIdList else [f.queueId]
  }

  // ---------- Uses of memory regions ----------

  function RxNames(qs: seq<Queue>): seq<string> {
    if qs == [] then [] else RxNames(qs[..|qs| - 1]) + qs[|qs| - 1].mrs
  }

  function TxNames(qs: seq<TxQueue>): seq<string> {
    if qs == [] then [] else TxNames(qs[..|qs| - 1]) + qs[|qs| - 1].common.mrs
  }

  function ReorderNames(rs: seq<Reorder>): seq<string> {
    seq(|rs|, i requires 0 <= i < |rs| => rs[i].region)
  }

  function InterfaceNames(f: Interface): seq<string> {
    RxNames(f.rx) + TxNames(f.tx) + ReorderNames(f.reorders)
  }

  /** Every mention of a memory region by a queue or a reorder configuration. */
  function AllNames(ifs: seq<Interface>): seq<string> {
    if ifs == [] then [] else AllNames(ifs[..|ifs| - 1]) + InterfaceNames(ifs[|ifs| - 1])
  }

  function Users(c: Config, name: string): nat {
    multiset(AllNames(c.ifs))[name]
  }

  // ---------- The checks, one by one ----------

  predicate RegionUseOk(c: Config, mrs: seq<string>, i: nat, rx: bool)
    requires i < |mrs|
  {
    mrs[i] in c.mrs &&
    var r := c.mrs[mrs[i]];
    r.isNull ==> rx && (r.bufSize != 0 || i + 1 == |mrs|) && r.bufSize < U32
  }

  predicate RegionUsesOk(c: Config, mrs: seq<string>, rx: bool) {
    forall i | 0 <= i < |mrs| :: RegionUseOk(c, mrs, i, rx)
  }

  predicate RxOk(c: Config, q: Queue) {
    && RegionUsesOk(c, q.mrs, true) && !q.poll.BadPoll?
    && (q.poll.Direct? ==> c.directOk && !q.hasCore && q.batch == 0 && q.timeoutUs == 0)
    && (q.poll.Indirect? ==> q.hasCore && q.batch > 0)
  }

  /** The smallest pool among the regions a shared queue names; regions it does not know of are
      reported elsewhere. */
  function SmallestPool(c: Config, mrs: seq<string>): nat {
    if mrs == [] then U32 - 1
    else
      var n := SmallestPool(c, mrs[..|mrs| - 1]);
      var name := mrs[|mrs| - 1];
      if name in c.mrs && c.mrs[name].numBufs < n then c.mrs[name].numBufs else n
  }

  function Credits(c: Config, t: TxQueue): nat {
    if t.maxInflight != 0 then t.maxInflight else SmallestPool(c, t.common.mrs) * 2
  }

  predicate SharedRegionOk(c: Config, name: string) {
    && Users(c, name) == 1
    && (name in c.mrs ==>
          var r := c.mrs[name];
          r.numBufs != 0 && r.numBufs < U32 - 1 && r.bufSize != 0 && r.bufSize < U32)
  }

  predicate SharedOk(c: Config, t: TxQueue) {
    && c.rawIbverbs && t.common.poll.Indirect? && 1 <= |t.common.mrs| <= MAX_NUM_SEGS
    && (forall i | 0 <= i < |t.common.mrs| :: SharedRegionOk(c, t.common.mrs[i]))
    && 0 < Credits(c, t) < U32
    && (t.common.batch > 0 ==> t.common.batch <= Credits(c, t))
  }

  predicate TxOk(c: Config, t: TxQueue) {
    && RegionUsesOk(c, t.common.mrs, false) && !t.mode.BadMode?
    && (if t.mode.Shared? then SharedOk(c, t) else t.maxInflight == 0)
    && !t.common.poll.BadPoll?
    && (t.common.poll.Direct? ==> c.directOk && !t.common.hasCore && t.common.batch == 0)
    && (t.common.poll.Indirect? ==> t.common.hasCore && t.common.batch > 0)
  }

  predicate Distinct(s: seq<nat>) {
    forall i, j | 0 <= i < j < |s| :: s[i] != s[j]
  }

  ghost predicate HasRxQueue(f: Interface, id: nat) {
    exists k :: 0 <= k < |f.rx| && f.rx[k].id == id
  }

  /** A flow ends in distinct, configured queues. */
  ghost predicate TargetsOk(f: Interface, flow: Flow) {
    && flow.toQueue && Distinct(QueueIds(flow))
    && forall k | 0 <= k < |QueueIds(flow)| :: HasRxQueue(f, QueueIds(flow)[k])
  }

  predicate IdsDiffer(flows: seq<Flow>) {
    forall i, j | 0 <= i < j < |flows| :: flows[i].id != flows[j].id
  }

  /** Null regions do not reach a queue that feeds a reorder, nor is it polled directly. */
  predicate ReorderQueueOk(c: Config, q: Queue) {
    !q.poll.Direct? && forall i | 0 <= i < |q.mrs| :: q.mrs[i] in c.mrs ==> !c.mrs[q.mrs[i]].isNull
  }

  /** The flow goes to one queue, and every queue with that id can feed a reorder. */
  predicate ReorderFlowOk(c: Config, f: Interface, flow: Flow) {
    && |QueueIds(flow)| == 1
    && forall k | 0 <= k < |f.rx| :: f.rx[k].id == QueueIds(flow)[0] ==> ReorderQueueOk(c, f.rx[k])
  }

  ghost predicate ReorderIdOk(c: Config, f: Interface, id: nat) {
    exists k :: 0 <= k < |f.flows| && f.flows[k].id == id && ReorderFlowOk(c, f, f.flows[k])
  }

  ghost predicate ReordersOk(c: Config, f: Interface) {
    forall r, k | 0 <= r < |f.reorders| && 0 <= k < |f.reorders[r].flowIds| ::
      ReorderIdOk(c, f, f.reorders[r].flowIds[k])
  }

  // ---------- Sets of ids ----------

  function Ids(flows: seq<Flow>): set<nat> {
    set k | 0 <= k < |flows| :: flows[k].id
  }

  function NonZero(ids: set<nat>): set<nat> {
    set id | id in ids && id != 0
  }

  /** The non-zero flow ids of the first interfaces. */
  function StaticIds(ifs: seq<Interface>): set<nat> {
    if ifs == [] then {} else StaticIds(ifs[..|ifs| - 1]) + NonZero(Ids(ifs[|ifs| - 1].flows))
  }

  // ---------- The code ----------

  function Uses(users: map<string, nat>, name: string): nat {
    if name in users then users[name] else 0
  }

  method AddUses(users: map<string, nat>, names: seq<string>) returns (r: map<string, nat>)
    ensures forall name: string :: Uses(r, name) == Uses(users, name) + multiset(names)[name]
  {
    r := users;
    for i := 0 to |names|
      invariant forall name: string :: Uses(r, name) == Uses(users, name) + multiset(names[..i])[name]
    {
      assert names[..i + 1] == names[..i] + [names[i]];
      r := r[names[i] := Uses(r, names[i]) + 1];
    }
    assert names[..|names|] == names;
  }

  method AddRxUses(users: map<string, nat>, qs: seq<Queue>) returns (r: map<string, nat>)
    ensures forall name: string :: Uses(r, name) == Uses(users, name) + multiset(RxNames(qs))[name]
  {
    r := users;
    for k := 0 to |qs|
      invariant forall name: string :: Uses(r, name) == Uses(users, name) + multiset(RxNames(qs[..k]))[name]
    {
      assert qs[..k + 1][..k] == qs[..k];
      r := AddUses(r, qs[k].mrs);
    }
    assert qs[..|qs|] == qs;
  }

  method AddTxUses(users: map<string, nat>, qs: seq<TxQueue>) returns (r: map<string, nat>)
    ensures forall name: string :: Uses(r, name) == Uses(users, name) + multiset(TxNames(qs))[name]
  {
    r := users;
    for k := 0 to |qs|
      invariant forall name: string :: Uses(r, name) == Uses(users, name) + multiset(TxNames(qs[..k]))[name]
    {
      assert qs[..k + 1][..k] == qs[..k];
      r := AddUses(r, qs[k].common.mrs);
    }
    assert qs[..|qs|] == qs;
  }

  /** The region_users table. */
  method CountUsers(c: Config) returns (users: map<string, nat>)
    ensures forall name: string :: Uses(users, name) == Users(c, name)
  {
    hide RxNames, TxNames, ReorderNames, Uses;
    users := NoUses();
    for i := 0 to |c.ifs|
      invariant forall name: string :: Uses(users, name) == multiset(AllNames(c.ifs[..i]))[name]
    {
      assert c.ifs[..i + 1][..i] == c.ifs[..i];
      users := AddRxUses(users, c.ifs[i].rx);
      users := AddTxUses(users, c.ifs[i].tx);
      users := AddUses(users, ReorderNames(c.ifs[i].reorders));
    }
    assert c.ifs[..|c.ifs|] == c.ifs;
  }

  function NoUses(): (r: map<string, nat>)
    ensures forall name: string :: Uses(r, name) == 0
  {
    map[]
  }

  /** validate_queue_memory_regions. */
  method CheckRegions(c: Config, mrs: seq<string>, rx: bool) returns (pass: bool)
    ensures pass <==> RegionUsesOk(c, mrs, rx)
  {
    pass := true;
    for i := 0 to |mrs|
      invariant pass <==> forall k | 0 <= k < i :: RegionUseOk(c, mrs, k, rx)
    {
      ghost var ok := RegionUseOk(c, mrs, i, rx);
      if mrs[i] !in c.mrs {
        pass := false;
        continue;
      }
      var r := c.mrs[mrs[i]];
      if r.isNull && (!rx || (r.bufSize == 0 && i + 1 != |mrs|) || r.bufSize > U32 - 1) {
        pass := false;
      }
    }
  }

  method CheckRx(c: Config, q: Queue) returns (pass: bool)
    ensures pass <==> RxOk(c, q)
  {
    hide RegionUsesOk;
    pass := CheckRegions(c, q.mrs, true);
    if q.poll.Direct? {
      if !c.directOk { pass := false; }
      if q.hasCore || q.batch != 0 || q.timeoutUs != 0 { pass := false; }
    } else if q.poll.Indirect? {
      if !q.hasCore || q.batch <= 0 { pass := false; }
    } else {
      pass := false;
    }
  }

  method CheckShared(c: Config, users: map<string, nat>, t: TxQueue) returns (pass: bool)
    requires forall name: string :: Uses(users, name) == Users(c, name)
    ensures pass <==> SharedOk(c, t)
  {
    hide Users;
    var mrs := t.common.mrs;
    pass := c.rawIbverbs && t.common.poll.Indirect? && mrs != [] && |mrs| <= MAX_NUM_SEGS;
    var start := pass;
    var smallest := U32 - 1;
    for i := 0 to |mrs|
      invariant smallest == SmallestPool(c, mrs[..i])
      invariant pass <==> start && forall k | 0 <= k < i :: SharedRegionOk(c, mrs[k])
    {
      var name := mrs[i];
      assert mrs[..i + 1][..i] == mrs[..i];
      if name in c.mrs {
        var r := c.mrs[name];
        if r.numBufs == 0 || r.numBufs >= U32 - 1 || r.bufSize == 0 || r.bufSize > U32 - 1 { pass := false; }
        smallest := if r.numBufs < smallest then r.numBufs else smallest;
      }
      if Uses(users, name) != 1 { pass := false; }
    }
    assert mrs[..|mrs|] == mrs;
    var credits := if t.maxInflight != 0 then t.maxInflight else smallest * 2;
    if credits == 0 || credits > U32 - 1 || (t.common.batch > 0 && t.common.batch > credits) {
      pass := false;
    }
  }

  method CheckTx(c: Config, users: map<string, nat>, t: TxQueue) returns (pass: bool)
    requires forall name: string :: Uses(users, name) == Users(c, name)
    ensures pass <==> TxOk(c, t)
  {
    hide RegionUsesOk, SharedOk;
    pass := CheckRegions(c, t.common.mrs, false);
    if t.mode.BadMode? { pass := false; }
    if t.mode.Shared? {
      var shared := CheckShared(c, users, t);
      if !shared { pass := false; }
    } else if t.maxInflight != 0 {
      pass := false;
    }
    if t.common.poll.Direct? {
      if !c.directOk { pass := false; }
      if t.common.hasCore || t.common.batch != 0 { pass := false; }
    } else if t.common.poll.Indirect? {
      if !t.common.hasCore || t.common.batch <= 0 { pass := false; }
    } else {
      pass := false;
    }
  }

  // ---------- Flows ----------

  function RxIds(f: Interface): set<nat> {
    set k | 0 <= k < |f.rx| :: f.rx[k].id
  }

  function DirectIds(f: Interface): set<nat> {
    set k | 0 <= k < |f.rx| && f.rx[k].poll.Direct? :: f.rx[k].id
  }

  ghost predicate FlowsOk(f: Interface, flows: seq<Flow>, taken: set<nat>) {
    && IdsDiffer(flows)
    && (forall k | 0 <= k < |flows| :: flows[k].id != 0 ==> flows[k].id !in taken)
    && (forall k | 0 <= k < |flows| :: TargetsOk(f, flows[k]))
  }

  /** What the flow loop leaves for the reorder loop. */
  ghost predicate TablesOk(flows: seq<Flow>, table: map<nat, seq<nat>>, rss: set<nat>) {
    && (forall k | 0 <= k < |flows| :: flows[k].id in table && table[flows[k].id] == QueueIds(flows[k]))
    && (forall k | 0 <= k < |flows| :: flows[k].id in rss <==> |QueueIds(flows[k])| > 1)
    && (forall id | id in table || id in rss :: id in Ids(flows))
  }

  /** The queue checks of one flow. */
  method CheckTargets(f: Interface, rxIds: set<nat>, flow: Flow) returns (pass: bool)
    requires rxIds == RxIds(f) && flow.toQueue
    ensures pass <==> TargetsOk(f, flow)
  {
    var ids := QueueIds(flow);
    pass := true;
    var unique: set<nat> := {};
    for i := 0 to |ids|
      invariant unique == set k | 0 <= k < i :: ids[k]
      invariant pass <==> Distinct(ids[..i]) && forall k | 0 <= k < i :: HasRxQueue(f, ids[k])
    {
      assert ids[..i + 1] == ids[..i] + [ids[i]];
      DistinctNext(ids, i);
      assert ids[i] in rxIds <==> HasRxQueue(f, ids[i]);
      if ids[i] in unique { pass := false; }
      unique := unique + {ids[i]};
      if ids[i] !in rxIds { pass := false; }
    }
    assert ids[..|ids|] == ids;
  }

  lemma DistinctNext(s: seq<nat>, i: nat)
    requires i < |s|
    ensures Distinct(s[..i + 1]) <==> Distinct(s[..i]) && s[i] !in (set k | 0 <= k < i :: s[k])
  {
    var now, next := s[..i], s[..i + 1];
    assert forall k | 0 <= k < i :: now[k] == next[k];
    assert next[i] == s[i];
  }

  lemma FlowsNext(f: Interface, flows: seq<Flow>, taken: set<nat>, i: nat)
    requires i < |flows|
    ensures Ids(flows[..i + 1]) == Ids(flows[..i]) + {flows[i].id}
    ensures FlowsOk(f, flows[..i + 1], taken) <==>
            && FlowsOk(f, flows[..i], taken) && flows[i].id !in Ids(flows[..i])
            && (flows[i].id == 0 || flows[i].id !in taken) && TargetsOk(f, flows[i])
  {
    hide TargetsOk;
    var now, next := flows[..i], flows[..i + 1];
    assert forall k | 0 <= k < i :: next[k] == now[k];
    assert next[i] == flows[i];
    assert Ids(next) == Ids(now) + {flows[i].id} by {
      forall id | id in Ids(now) ensures id in Ids(next) {
        var k :| 0 <= k < i && now[k].id == id;
        assert next[k].id == id;
      }
    }
    if FlowsOk(f, next, taken) {
      forall k | 0 <= k < i ensures now[k].id != flows[i].id { assert next[k].id != next[i].id; }
      assert TargetsOk(f, next[i]);
    }
  }

  lemma TablesNext(flows: seq<Flow>, table: map<nat, seq<nat>>, rss: set<nat>, i: nat,
                   table': map<nat, seq<nat>>, rss': set<nat>)
    requires i < |flows| && TablesOk(flows[..i], table, rss) && flows[i].id !in Ids(flows[..i])
    requires table' == table[flows[i].id := QueueIds(flows[i])]
    requires rss' == if |QueueIds(flows[i])| > 1 then rss + {flows[i].id} else rss
    ensures TablesOk(flows[..i + 1], table', rss')
  {
    hide QueueIds;
    var now, next := flows[..i], flows[..i + 1];
    assert forall k | 0 <= k < i :: next[k] == now[k] && now[k].id in Ids(now);
    assert next[i] == flows[i] && flows[i].id in Ids(next);
    forall id | id in Ids(now) ensures id in Ids(next) {
      var k :| 0 <= k < i && now[k].id == id;
      assert next[k].id == id;
    }
  }

  /** The flow loop of one interface. */
  method CheckFlows(f: Interface, rxIds: set<nat>, taken: set<nat>)
    returns (pass: bool, taken': set<nat>, table: map<nat, seq<nat>>, rss: set<nat>)
    requires rxIds == RxIds(f)
    ensures pass <==> FlowsOk(f, f.flows, taken)
    ensures taken' == taken + NonZero(Ids(f.flows))
    ensures pass ==> TablesOk(f.flows, table, rss)
  {
    hide TargetsOk, QueueIds, FlowsOk, TablesOk;
    pass, taken', table, rss := true, taken, map[], {};
    var seen: set<nat> := {};
    FlowsNone(f, taken);
    assert f.flows[..0] == [];
    for i := 0 to |f.flows|
      invariant seen == Ids(f.flows[..i]) && taken' == taken + NonZero(seen)
      invariant pass <==> FlowsOk(f, f.flows[..i], taken)
      invariant pass ==> TablesOk(f.flows[..i], table, rss)
    {
      var flow := f.flows[i];
      FlowsNext(f, f.flows, taken, i);
      ghost var pass0, table0, rss0 := pass, table, rss;
      if flow.id in seen {
        pass := false;
      } else if flow.id != 0 && flow.id in taken' {
        pass := false;
      }
      if flow.id !in seen && flow.id != 0 {
        taken' := taken' + {flow.id};
      }
      seen := seen + {flow.id};
      if !flow.toQueue {
        NotToQueue(f, flow);
        pass := false;
      } else {
        var ids := QueueIds(flow);
        if flow.id !in table {
          table := table[flow.id := ids];
        }
        var targets := CheckTargets(f, rxIds, flow);
        if !targets { pass := false; }
        if |ids| > 1 {
          rss := rss + {flow.id};
        }
      }
      if pass {
        NotInTable(f.flows[..i], table0, rss0, flow.id);
        TablesNext(f.flows, table0, rss0, i, table, rss);
      }
    }
    assert f.flows[..|f.flows|] == f.flows;
  }

  lemma FlowsNone(f: Interface, taken: set<nat>)
    ensures FlowsOk(f, [], taken) && TablesOk([], map[], {}) && Ids([]) == {}
  {
  }

  lemma NotToQueue(f: Interface, flow: Flow)
    requires !flow.toQueue
    ensures !TargetsOk(f, flow)
  {
  }

  lemma NotInTable(flows: seq<Flow>, table: map<nat, seq<nat>>, rss: set<nat>, id: nat)
    requires TablesOk(flows, table, rss) && id !in Ids(flows)
    ensures id !in table
  {
  }

  // ---------- Reorder configurations ----------

  predicate FeedsOk(c: Config, f: Interface, queueId: nat) {
    forall k | 0 <= k < |f.rx| :: f.rx[k].id == queueId ==> ReorderQueueOk(c, f.rx[k])
  }

  /** The innermost loops: null regions of a queue. */
  method AnyNull(c: Config, mrs: seq<string>) returns (found: bool)
    ensures found <==> exists i :: 0 <= i < |mrs| && mrs[i] in c.mrs && c.mrs[mrs[i]].isNull
  {
    found := false;
    for i := 0 to |mrs|
      invariant found <==> exists k :: 0 <= k < i && mrs[k] in c.mrs && c.mrs[mrs[k]].isNull
    {
      if mrs[i] in c.mrs && c.mrs[mrs[i]].isNull { found := true; }
    }
  }

  /** The queue loops for one queue id of a reorder flow. */
  method CheckFeed(c: Config, f: Interface, direct: set<nat>, queueId: nat) returns (pass: bool)
    requires direct == DirectIds(f)
    ensures pass <==> FeedsOk(c, f, queueId)
  {
    pass := true;
    for k := 0 to |f.rx|
      invariant pass <==> forall m | 0 <= m < k ::
                  f.rx[m].id == queueId ==> ReorderQueueOk(c, f.rx[m].(poll := Indirect))
    {
      if f.rx[k].id != queueId { continue; }
      var found := AnyNull(c, f.rx[k].mrs);
      assert found <==> !ReorderQueueOk(c, f.rx[k].(poll := Indirect));
      if found { pass := false; }
    }
    assert forall m | 0 <= m < |f.rx| :: ReorderQueueOk(c, f.rx[m]) <==>
             !f.rx[m].poll.Direct? && ReorderQueueOk(c, f.rx[m].(poll := Indirect));
    if queueId in direct {
      pass := false;
    }
  }

  method CheckReorderId(c: Config, f: Interface, table: map<nat, seq<nat>>, rss: set<nat>, direct: set<nat>, id: nat)
    returns (pass: bool)
    requires direct == DirectIds(f)
    ensures IdsDiffer(f.flows) && TablesOk(f.flows, table, rss) ==> (pass <==> ReorderIdOk(c, f, id))
  {
    hide FeedsOk, QueueIds;
    pass := id !in rss;
    if id !in table {
      UnknownId(c, f, table, rss, id);
      return false;
    }
    for j := 0 to |table[id]|
      invariant pass <==> id !in rss && forall m | 0 <= m < j :: FeedsOk(c, f, table[id][m])
    {
      var ok := CheckFeed(c, f, direct, table[id][j]);
      if !ok { pass := false; }
    }
    KnownId(c, f, table, rss, id);
  }

  lemma UnknownId(c: Config, f: Interface, table: map<nat, seq<nat>>, rss: set<nat>, id: nat)
    requires id !in table
    ensures TablesOk(f.flows, table, rss) ==> !ReorderIdOk(c, f, id)
  {
  }

  lemma KnownId(c: Config, f: Interface, table: map<nat, seq<nat>>, rss: set<nat>, id: nat)
    requires id in table
    ensures IdsDiffer(f.flows) && TablesOk(f.flows, table, rss) ==>
              (ReorderIdOk(c, f, id) <==> id !in rss && forall m | 0 <= m < |table[id]| :: FeedsOk(c, f, table[id][m]))
  {
    hide QueueIds, ReorderQueueOk;
    if IdsDiffer(f.flows) && TablesOk(f.flows, table, rss) {
      var k :| 0 <= k < |f.flows| && f.flows[k].id == id;
      assert table[id] == QueueIds(f.flows[k]);
      OneQueue(c, f, f.flows[k]);
      assert ReorderIdOk(c, f, id) <==> ReorderFlowOk(c, f, f.flows[k]);
    }
  }

  lemma OneQueue(c: Config, f: Interface, flow: Flow)
    ensures ReorderFlowOk(c, f, flow) <==>
            |QueueIds(flow)| <= 1 && forall m | 0 <= m < |QueueIds(flow)| :: FeedsOk(c, f, QueueIds(flow)[m])
  {
    hide ReorderQueueOk;
    if |QueueIds(flow)| == 1 {
      assert FeedsOk(c, f, QueueIds(flow)[0]) <==> ReorderFlowOk(c, f, flow);
    }
  }

  method CheckReorders(c: Config, f: Interface, table: map<nat, seq<nat>>, rss: set<nat>, direct: set<nat>)
    returns (pass: bool)
    requires direct == DirectIds(f)
    ensures IdsDiffer(f.flows) && TablesOk(f.flows, table, rss) ==> (pass <==> ReordersOk(c, f))
  {
    hide TablesOk, ReorderIdOk, IdsDiffer, DirectIds;
    ghost var usable := IdsDiffer(f.flows) && TablesOk(f.flows, table, rss);
    pass := true;
    for r := 0 to |f.reorders|
      invariant usable ==> (pass <==> forall m, k | 0 <= m < r && 0 <= k < |f.reorders[m].flowIds| ::
                              ReorderIdOk(c, f, f.reorders[m].flowIds[k]))
    {
      var ids := f.reorders[r].flowIds;
      var all := CheckReorder(c, f, table, rss, direct, ids);
      if !all { pass := false; }
    }
  }

  method CheckReorder(c: Config, f: Interface, table: map<nat, seq<nat>>, rss: set<nat>, direct: set<nat>, ids: seq<nat>)
    returns (pass: bool)
    requires direct == DirectIds(f)
    ensures IdsDiffer(f.flows) && TablesOk(f.flows, table, rss) ==>
              (pass <==> forall k | 0 <= k < |ids| :: ReorderIdOk(c, f, ids[k]))
  {
    hide TablesOk, ReorderIdOk, IdsDiffer, DirectIds;
    ghost var usable := IdsDiffer(f.flows) && TablesOk(f.flows, table, rss);
    pass := true;
    for k := 0 to |ids|
      invariant usable ==> (pass <==> forall m | 0 <= m < k :: ReorderIdOk(c, f, ids[m]))
    {
      var ok := CheckReorderId(c, f, table, rss, direct, ids[k]);
      if !ok { pass := false; }
    }
  }

  // ---------- The validator ----------

  ghost predicate QueuesOk(c: Config, f: Interface) {
    && (forall k | 0 <= k < |f.rx| :: RxOk(c, f.rx[k]))
    && (forall k | 0 <= k < |f.tx| :: TxOk(c, f.tx[k]))
  }

  ghost predicate InterfaceOk(c: Config, f: Interface, taken: set<nat>) {
    QueuesOk(c, f) && FlowsOk(f, f.flows, taken) && ReordersOk(c, f)
  }

  ghost predicate AllOk(c: Config, n: nat)
    requires n <= |c.ifs|
  {
    forall i | 0 <= i < n :: InterfaceOk(c, c.ifs[i], StaticIds(c.ifs[..i]))
  }

  method CheckQueues(c: Config, users: map<string, nat>, f: Interface) returns (pass: bool, rxIds: set<nat>, direct: set<nat>)
    requires forall name: string :: Uses(users, name) == Users(c, name)
    ensures pass <==> QueuesOk(c, f)
    ensures rxIds == RxIds(f) && direct == DirectIds(f)
  {
    hide RxOk, TxOk, Users, Uses;
    pass, rxIds, direct := true, {}, {};
    for k := 0 to |f.rx|
      invariant pass <==> forall m | 0 <= m < k :: RxOk(c, f.rx[m])
      invariant rxIds == set m | 0 <= m < k :: f.rx[m].id
      invariant direct == set m | 0 <= m < k && f.rx[m].poll.Direct? :: f.rx[m].id
    {
      var ok := CheckRx(c, f.rx[k]);
      if !ok { pass := false; }
      rxIds := rxIds + {f.rx[k].id};
      if f.rx[k].poll.Direct? { direct := direct + {f.rx[k].id}; }
    }
    var rxPass := pass;
    for k := 0 to |f.tx|
      invariant pass <==> rxPass && forall m | 0 <= m < k :: TxOk(c, f.tx[m])
    {
      var ok := CheckTx(c, users, f.tx[k]);
      if !ok { pass := false; }
    }
  }

  method CheckInterface(c: Config, users: map<string, nat>, f: Interface, taken: set<nat>)
    returns (pass: bool, taken': set<nat>)
    requires forall name: string :: Uses(users, name) == Users(c, name)
    ensures pass <==> InterfaceOk(c, f, taken)
    ensures taken' == taken + NonZero(Ids(f.flows))
  {
    hide QueuesOk, TablesOk, ReordersOk, Users, Uses;
    var queues, rxIds, direct := CheckQueues(c, users, f);
    var flows, after, table, rss := CheckFlows(f, rxIds, taken);
    var reorders := CheckReorders(c, f, table, rss, direct);
    pass, taken' := queues && flows && reorders, after;
  }

  lemma NoStatic()
    ensures StaticIds([]) == {}
  {
  }

  lemma NextStatic(ifs: seq<Interface>, i: nat)
    requires i < |ifs|
    ensures StaticIds(ifs[..i + 1]) == StaticIds(ifs[..i]) + NonZero(Ids(ifs[i].flows))
  {
    assert ifs[..i + 1][..i] == ifs[..i];
  }

  /** validate_network_config; `others` is the verdict of the checks left out here. */
  method ValidateNetworkConfig(c: Config, others: bool) returns (pass: bool)
    ensures pass <==> others && AllOk(c, |c.ifs|)
    ensures pass ==> Sound(c)
  {
    hide InterfaceOk, Users, Uses, NonZero, Ids, StaticIds, Sound;
    pass := others;
    var users := CountUsers(c);
    var taken: set<nat> := {};
    NoStatic();
    assert c.ifs[..0] == [];
    for i := 0 to |c.ifs|
      invariant taken == StaticIds(c.ifs[..i])
      invariant pass <==> others && AllOk(c, i)
    {
      NextStatic(c.ifs, i);
      var ok;
      ok, taken := CheckInterface(c, users, c.ifs[i], taken);
      if !ok { pass := false; }
    }
    if pass {
      AcceptedIsSound(c);
    }
  }

  // ---------- What acceptance guarantees ----------

  /** Every reorder flow id names exactly one flow of its interface, which goes to exactly one queue
      id; queues with that id exist, are all polled indirectly, and use no null region. */
  ghost predicate ResolvesToOne(c: Config, f: Interface, id: nat) {
    exists k :: 0 <= k < |f.flows| && f.flows[k].id == id && OnlyFlow(f, k) && FlowToOneQueue(c, f, f.flows[k])
  }

  predicate OnlyFlow(f: Interface, k: nat)
    requires k < |f.flows|
  {
    forall j | 0 <= j < |f.flows| :: f.flows[j].id == f.flows[k].id ==> j == k
  }

  ghost predicate FlowToOneQueue(c: Config, f: Interface, flow: Flow) {
    && flow.toQueue && |QueueIds(flow)| == 1
    && HasRxQueue(f, QueueIds(flow)[0])
    && forall q | 0 <= q < |f.rx| && f.rx[q].id == QueueIds(flow)[0] ::
         f.rx[q].poll.Indirect? && NoNull(c, f.rx[q].mrs)
  }

  predicate NoNull(c: Config, mrs: seq<string>) {
    forall i | 0 <= i < |mrs| :: mrs[i] in c.mrs && !c.mrs[mrs[i]].isNull
  }

  /** Flow ids differ within an interface, and non-zero ones across all of them. */
  predicate FlowIdsUnique(c: Config) {
    && (forall a | 0 <= a < |c.ifs| :: IdsDiffer(c.ifs[a].flows))
    && (forall a, b, i, j | 0 <= a < b < |c.ifs| && 0 <= i < |c.ifs[a].flows| && 0 <= j < |c.ifs[b].flows| ::
          c.ifs[a].flows[i].id != 0 ==> c.ifs[a].flows[i].id != c.ifs[b].flows[j].id)
  }

  /** A region of a shared TX queue has one user, and a batch fits the send credits. */
  predicate SharedTxSound(c: Config, t: TxQueue) {
    t.mode.Shared? ==>
      && (forall i | 0 <= i < |t.common.mrs| :: t.common.mrs[i] in c.mrs && Users(c, t.common.mrs[i]) == 1)
      && 0 < t.common.batch <= Credits(c, t) < U32
  }

  ghost predicate Sound(c: Config) {
    && FlowIdsUnique(c)
    && (forall a, r, k | 0 <= a < |c.ifs| && 0 <= r < |c.ifs[a].reorders| && 0 <= k < |c.ifs[a].reorders[r].flowIds| ::
          ResolvesToOne(c, c.ifs[a], c.ifs[a].reorders[r].flowIds[k]))
    && (forall a, k | 0 <= a < |c.ifs| && 0 <= k < |c.ifs[a].tx| :: SharedTxSound(c, c.ifs[a].tx[k]))
  }

  lemma {:induction false} StaticHas(ifs: seq<Interface>, n: nat, a: nat, i: nat)
    requires a < n <= |ifs| && i < |ifs[a].flows| && ifs[a].flows[i].id != 0
    ensures ifs[a].flows[i].id in StaticIds(ifs[..n])
  {
    assert ifs[..n][..n - 1] == ifs[..n - 1];
    if a == n - 1 {
      assert ifs[a].flows[i].id in Ids(ifs[a].flows);
    } else {
      StaticHas(ifs, n - 1, a, i);
    }
  }

  lemma UniqueIds(c: Config)
    requires AllOk(c, |c.ifs|)
    ensures FlowIdsUnique(c)
  {
    hide QueuesOk, ReordersOk, TargetsOk, StaticIds;
    forall a, b, i, j | 0 <= a < b < |c.ifs| && 0 <= i < |c.ifs[a].flows| && 0 <= j < |c.ifs[b].flows| &&
                        c.ifs[a].flows[i].id != 0
      ensures c.ifs[a].flows[i].id != c.ifs[b].flows[j].id
    {
      assert InterfaceOk(c, c.ifs[b], StaticIds(c.ifs[..b]));
      StaticHas(c.ifs, b, a, i);
    }
    forall a | 0 <= a < |c.ifs| ensures IdsDiffer(c.ifs[a].flows) {
      assert InterfaceOk(c, c.ifs[a], StaticIds(c.ifs[..a]));
    }
  }

  lemma ReorderResolves(c: Config, f: Interface, taken: set<nat>, id: nat)
    requires InterfaceOk(c, f, taken) && ReorderIdOk(c, f, id)
    ensures ResolvesToOne(c, f, id)
  {
    hide QueueIds, TxOk, ReordersOk;
    var k :| 0 <= k < |f.flows| && f.flows[k].id == id && ReorderFlowOk(c, f, f.flows[k]);
    assert TargetsOk(f, f.flows[k]);
    forall q | 0 <= q < |f.rx| && f.rx[q].id == QueueIds(f.flows[k])[0]
      ensures f.rx[q].poll.Indirect? && NoNull(c, f.rx[q].mrs)
    {
      assert RxOk(c, f.rx[q]) && ReorderQueueOk(c, f.rx[q]);
      forall i | 0 <= i < |f.rx[q].mrs| ensures f.rx[q].mrs[i] in c.mrs {
        assert RegionUseOk(c, f.rx[q].mrs, i, true);
      }
    }
    assert OnlyFlow(f, k) && FlowToOneQueue(c, f, f.flows[k]);
  }

  lemma SharedSound(c: Config, t: TxQueue)
    requires TxOk(c, t)
    ensures SharedTxSound(c, t)
  {
    hide Users, Credits;
    forall i | 0 <= i < |t.common.mrs| ensures t.common.mrs[i] in c.mrs {
      assert RegionUseOk(c, t.common.mrs, i, false);
    }
  }

  lemma AcceptedIsSound(c: Config)
    requires AllOk(c, |c.ifs|)
    ensures Sound(c)
  {
    hide FlowIdsUnique, ReorderIdOk, ResolvesToOne, TxOk, RxOk, FlowsOk, SharedTxSound, StaticIds;
    UniqueIds(c);
    forall a, r, k | 0 <= a < |c.ifs| && 0 <= r < |c.ifs[a].reorders| && 0 <= k < |c.ifs[a].reorders[r].flowIds|
      ensures ResolvesToOne(c, c.ifs[a], c.ifs[a].reorders[r].flowIds[k])
    {
      assert InterfaceOk(c, c.ifs[a], StaticIds(c.ifs[..a]));
      ReorderResolves(c, c.ifs[a], StaticIds(c.ifs[..a]), c.ifs[a].reorders[r].flowIds[k]);
    }
    forall a, k | 0 <= a < |c.ifs| && 0 <= k < |c.ifs[a].tx|
      ensures SharedTxSound(c, c.ifs[a].tx[k])
    {
      assert InterfaceOk(c, c.ifs[a], StaticIds(c.ifs[..a]));
      SharedSound(c, c.ifs[a].tx[k]);
    }
  }

  // ---------- Repeated queue ids ----------

  /** RX queue number q of the interface receives what the flow id matches. */
  ghost predicate Reaches(f: Interface, id: nat, q: nat) {
    q < |f.rx| && exists k :: 0 <= k < |f.flows| && f.flows[k].id == id && f.rx[q].id in QueueIds(f.flows[k])
  }

  ghost predicate ReachesOneQueue(f: Interface, id: nat) {
    exists q: nat :: Reaches(f, id, q) && forall r: nat | Reaches(f, id, r) :: r == q
  }

  /** At most one RX queue of the interface has this id. */
  predicate NotRepeated(f: Interface, queueId: nat) {
    forall q, r | 0 <= q < r < |f.rx| :: f.rx[q].id == queueId ==> f.rx[r].id != queueId
  }

  /** The queue id a reorder flow id goes to. */
  ghost predicate GoesTo(f: Interface, id: nat, queueId: nat) {
    exists k :: 0 <= k < |f.flows| && f.flows[k].id == id && queueId in QueueIds(f.flows[k])
  }

  /** A reorder flow id reaches exactly the RX queues that carry its one queue id. */
  lemma ReachedById(c: Config, f: Interface, id: nat, queueId: nat)
    requires ResolvesToOne(c, f, id) && GoesTo(f, id, queueId)
    ensures forall other | GoesTo(f, id, other) :: other == queueId
    ensures HasRxQueue(f, queueId)
    ensures forall q: nat :: Reaches(f, id, q) <==> q < |f.rx| && f.rx[q].id == queueId
    ensures forall q: nat | Reaches(f, id, q) :: f.rx[q].poll.Indirect? && NoNull(c, f.rx[q].mrs)
  {
    hide QueueIds, NoNull, HasRxQueue;
    var k :| 0 <= k < |f.flows| && f.flows[k].id == id && OnlyFlow(f, k) && FlowToOneQueue(c, f, f.flows[k]);
    assert QueueIds(f.flows[k]) == [queueId];
  }

  lemma OneOfThem(f: Interface, id: nat, queueId: nat)
    requires HasRxQueue(f, queueId)
    requires forall q: nat :: Reaches(f, id, q) <==> q < |f.rx| && f.rx[q].id == queueId
    ensures ReachesOneQueue(f, id) <==> NotRepeated(f, queueId)
  {
    hide Reaches;
    var q: nat :| q < |f.rx| && f.rx[q].id == queueId;
    if NotRepeated(f, queueId) {
      assert Reaches(f, id, q);
    }
    if ReachesOneQueue(f, id) {
      var one: nat :| Reaches(f, id, one) && forall r: nat | Reaches(f, id, r) :: r == one;
      forall x, y | 0 <= x < y < |f.rx| && f.rx[x].id == queueId
        ensures f.rx[y].id != queueId
      {
        assert Reaches(f, id, x);
        assert Reaches(f, id, y) ==> y == one;
      }
    }
  }

  /** In an accepted interface a reorder flow id has one queue id, and it reaches exactly one RX
      queue if and only if no other RX queue of the interface repeats that id. */
  lemma OneQueueExactly(c: Config, f: Interface, id: nat, queueId: nat)
    requires ResolvesToOne(c, f, id) && GoesTo(f, id, queueId)
    ensures forall other | GoesTo(f, id, other) :: other == queueId
    ensures ReachesOneQueue(f, id) <==> NotRepeated(f, queueId)
    ensures forall q: nat | Reaches(f, id, q) :: f.rx[q].poll.Indirect? && NoNull(c, f.rx[q].mrs)
  {
    hide ResolvesToOne, GoesTo, Reaches, ReachesOneQueue, NotRepeated, NoNull, HasRxQueue;
    ReachedById(c, f, id, queueId);
    OneOfThem(f, id, queueId);
  }

  /** The same for every reorder flow id of every accepted configuration; the queue it reaches is
      polled indirectly and uses no null region. */
  lemma ReorderQueueExactly(c: Config, a: nat, r: nat, k: nat, queueId: nat)
    requires AllOk(c, |c.ifs|) && a < |c.ifs| && r < |c.ifs[a].reorders| && k < |c.ifs[a].reorders[r].flowIds|
    requires GoesTo(c.ifs[a], c.ifs[a].reorders[r].flowIds[k], queueId)
    ensures var f, id := c.ifs[a], c.ifs[a].reorders[r].flowIds[k];
            && (ReachesOneQueue(f, id) <==> NotRepeated(f, queueId))
            && (forall q: nat | Reaches(f, id, q) :: f.rx[q].poll.Indirect? && NoNull(c, f.rx[q].mrs))
  {
    hide AllOk, FlowIdsUnique, SharedTxSound, ResolvesToOne, GoesTo, Reaches, ReachesOneQueue, NotRepeated, NoNull;
    AcceptedIsSound(c);
    OneQueueExactly(c, c.ifs[a], c.ifs[a].reorders[r].flowIds[k], queueId);
  }

  /** An accepted configuration in which a reorder flow reaches two RX queues: the validator does
      not reject a repeated RX queue id. */
  function TwinQueues(): Config {
    var q := Queue(0, ["data"], Indirect, true, 1, 0);
    Config(true, true, map["data" := Region(false, 16, 2048), "out" := Region(false, 16, 2048)],
           [Interface([q, q], [], [Flow(1, true, 0, [])], [Reorder([1], "out")])])
  }

  lemma TwinQueuesAccepted()
    ensures AllOk(TwinQueues(), |TwinQueues().ifs|)
    ensures Reaches(TwinQueues().ifs[0], 1, 0) && Reaches(TwinQueues().ifs[0], 1, 1)
    ensures !ReachesOneQueue(TwinQueues().ifs[0], 1)
  {
    var c := TwinQueues();
    var f := c.ifs[0];
    assert f.rx[0].id == 0 && f.rx[1].id == 0;
    assert QueueIds(f.flows[0]) == [0];
    assert HasRxQueue(f, 0);
    assert TargetsOk(f, f.flows[0]);
    assert ReorderFlowOk(c, f, f.flows[0]);
    assert ReorderIdOk(c, f, 1);
    assert ReordersOk(c, f);
    assert QueuesOk(c, f);
    assert c.ifs[..0] == [];
    assert InterfaceOk(c, f, StaticIds(c.ifs[..0]));
    assert Reaches(f, 1, 0) && Reaches(f, 1, 1);
  }
}
