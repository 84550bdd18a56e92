/** What the checks on queues and on the users of memory regions guarantee, place by place. */
module ValidatorUses {
  import opened Words
  import opened Validator

  // ---------- Lists of lists ----------

  function Flat(ls: seq<seq<string>>): seq<string> {
    if ls == [] then [] else Flat(ls[..|ls| - 1]) + ls[|ls| - 1]
  }

  /** Where list k begins. */
  function Start(ls: seq<seq<string>>, k: nat): nat
    requires k <= |ls|
  {
    |Flat(ls[..k])|
  }

  lemma StartNext(ls: seq<seq<string>>, k: nat)
    requires k < |ls|
    ensures Start(ls, k + 1) == Start(ls, k) + |ls[k]|
  {
    assert ls[..k + 1][..k] == ls[..k];
  }

  lemma {:induction false} StartOrder(ls: seq<seq<string>>, k: nat, m: nat)
    requires k < m <= |ls|
    ensures Start(ls, k) + |ls[k]| <= Start(ls, m)
  {
    StartNext(ls, m - 1);
    if k < m - 1 {
      StartOrder(ls, k, m - 1);
    }
  }

  lemma {:induction false} FlatAt(ls: seq<seq<string>>, k: nat, i: nat)
    requires k < |ls| && i < |ls[k]|
    ensures Start(ls, k) + i < |Flat(ls)| && Flat(ls)[Start(ls, k) + i] == ls[k][i]
  {
    var n := |ls| - 1;
    if k < n {
      FlatAt(ls[..n], k, i);
      assert ls[..n][..k] == ls[..k];
    }
  }

  /** Different entries are at different places. */
  lemma FlatApart(ls: seq<seq<string>>, k: nat, i: nat, m: nat, j: nat)
    requires k < |ls| && i < |ls[k]| && m < |ls| && j < |ls[m]| && Start(ls, k) + i == Start(ls, m) + j
    ensures k == m && i == j
  {
    if k < m {
      StartOrder(ls, k, m);
    } else if m < k {
      StartOrder(ls, m, k);
    }
  }

  lemma Twice(s: seq<string>, lo: nat, hi: nat)
    requires lo < hi < |s| && s[lo] == s[hi]
    ensures multiset(s)[s[lo]] >= 2
  {
    assert s == s[..hi] + s[hi..];
    assert s[..hi][lo] in multiset(s[..hi]) && s[hi..][0] in multiset(s[hi..]);
  }

  lemma OnlyOnce(s: seq<string>, i: nat, j: nat)
    requires i < |s| && j < |s| && s[i] == s[j] && multiset(s)[s[i]] == 1
    ensures i == j
  {
    if i < j {
      Twice(s, i, j);
    } else if j < i {
      Twice(s, j, i);
    }
  }

  // ---------- Places that name a region ----------

  /** The i-th region of RX or TX queue q of interface a, or the output of its reorder r. */
  datatype Place = RxUse(a: nat, q: nat, i: nat) | TxUse(a: nat, q: nat, i: nat) | ReorderUse(a: nat, r: nat)

  predicate Names(c: Config, p: Place, name: string) {
    p.a < |c.ifs| &&
    match p
    case RxUse(a, q, i) => q < |c.ifs[a].rx| && i < |c.ifs[a].rx[q].mrs| && c.ifs[a].rx[q].mrs[i] == name
    case TxUse(a, q, i) => q < |c.ifs[a].tx| && i < |c.ifs[a].tx[q].common.mrs| && c.ifs[a].tx[q].common.mrs[i] == name
    case ReorderUse(a, r) => r < |c.ifs[a].reorders| && c.ifs[a].reorders[r].region == name
  }

  function RxLists(qs: seq<Queue>): (r: seq<seq<string>>)
    ensures |r| == |qs|
  {
    seq(|qs|, k requires 0 <= k < |qs| => qs[k].mrs)
  }

  function TxLists(qs: seq<TxQueue>): (r: seq<seq<string>>)
    ensures |r| == |qs|
  {
    seq(|qs|, k requires 0 <= k < |qs| => qs[k].common.mrs)
  }

  function InterfaceLists(ifs: seq<Interface>): (r: seq<seq<string>>)
    ensures |r| == |ifs|
  {
    seq(|ifs|, k requires 0 <= k < |ifs| => InterfaceNames(ifs[k]))
  }

  lemma {:induction false} RxFlat(qs: seq<Queue>)
    ensures RxNames(qs) == Flat(RxLists(qs))
  {
    if qs != [] {
      var n := |qs| - 1;
      RxFlat(qs[..n]);
      assert RxLists(qs)[..n] == RxLists(qs[..n]);
    }
  }

  lemma {:induction false} TxFlat(qs: seq<TxQueue>)
    ensures TxNames(qs) == Flat(TxLists(qs))
  {
    if qs != [] {
      var n := |qs| - 1;
      TxFlat(qs[..n]);
      assert TxLists(qs)[..n] == TxLists(qs[..n]);
    }
  }

  lemma {:induction false} AllFlat(ifs: seq<Interface>)
    ensures AllNames(ifs) == Flat(InterfaceLists(ifs))
  {
    hide InterfaceNames;
    if ifs != [] {
      var n := |ifs| - 1;
      AllFlat(ifs[..n]);
      assert InterfaceLists(ifs)[..n] == InterfaceLists(ifs[..n]);
    }
  }

  /** The position of a place among the names of its interface. */
  function Within(f: Interface, p: Place): nat
    requires match p case RxUse(_, q, _) => q < |f.rx| case TxUse(_, q, _) => q < |f.tx| case ReorderUse(_, _) => true
  {
    match p
    case RxUse(_, q, i) => Start(RxLists(f.rx), q) + i
    case TxUse(_, q, i) => |RxNames(f.rx)| + Start(TxLists(f.tx), q) + i
    case ReorderUse(_, r) => |RxNames(f.rx)| + |TxNames(f.tx)| + r
  }

  lemma WithinAt(c: Config, p: Place, name: string)
    requires Names(c, p, name)
    ensures var f := c.ifs[p.a];
            Within(f, p) < |InterfaceNames(f)| && InterfaceNames(f)[Within(f, p)] == name
    ensures p.RxUse? ==> Within(c.ifs[p.a], p) < |RxNames(c.ifs[p.a].rx)|
    ensures p.TxUse? ==> Within(c.ifs[p.a], p) < |RxNames(c.ifs[p.a].rx)| + |TxNames(c.ifs[p.a].tx)|
  {
    hide Start, Flat, RxNames, TxNames;
    var f := c.ifs[p.a];
    RxFlat(f.rx);
    TxFlat(f.tx);
    match p {
      case RxUse(_, q, i) => FlatAt(RxLists(f.rx), q, i);
      case TxUse(_, q, i) => FlatAt(TxLists(f.tx), q, i);
      case ReorderUse(_, _) =>
    }
  }

  lemma WithinApart(c: Config, p: Place, q: Place, name: string)
    requires Names(c, p, name) && Names(c, q, name) && p.a == q.a && Within(c.ifs[p.a], p) == Within(c.ifs[q.a], q)
    ensures p == q
  {
    hide Start, Flat, RxNames, TxNames, InterfaceNames;
    var f := c.ifs[p.a];
    WithinAt(c, p, name);
    WithinAt(c, q, name);
    if p.RxUse? && q.RxUse? {
      FlatApart(RxLists(f.rx), p.q, p.i, q.q, q.i);
    } else if p.TxUse? && q.TxUse? {
      FlatApart(TxLists(f.tx), p.q, p.i, q.q, q.i);
    }
  }

  /** A region with one user is named in one place of the whole configuration. */
  lemma OnePlace(c: Config, p: Place, q: Place, name: string)
    requires Names(c, p, name) && Names(c, q, name) && Users(c, name) == 1
    ensures p == q
  {
    hide Start, Flat, InterfaceNames, AllNames, Within;
    WithinAt(c, p, name);
    WithinAt(c, q, name);
    var ls := InterfaceLists(c.ifs);
    var i, j := Within(c.ifs[p.a], p), Within(c.ifs[q.a], q);
    AllFlat(c.ifs);
    FlatAt(ls, p.a, i);
    FlatAt(ls, q.a, j);
    OnlyOnce(AllNames(c.ifs), Start(ls, p.a) + i, Start(ls, q.a) + j);
    FlatApart(ls, p.a, i, q.a, j);
    WithinApart(c, p, q, name);
  }

  /** In an accepted configuration no RX queue, no other TX queue and no reorder output anywhere names a
      region of a shared TX queue, nor does that queue name it twice. */
  lemma SharedRegionsAreExclusive(c: Config, a: nat, q: nat, i: nat, p: Place)
    requires AllOk(c, |c.ifs|) && a < |c.ifs| && q < |c.ifs[a].tx| && c.ifs[a].tx[q].mode.Shared?
    requires i < |c.ifs[a].tx[q].common.mrs| && Names(c, p, c.ifs[a].tx[q].common.mrs[i])
    ensures p == TxUse(a, q, i)
  {
    AcceptedIsSound(c);
    hide Users, AllOk;
    assert SharedTxSound(c, c.ifs[a].tx[q]);
    OnePlace(c, p, TxUse(a, q, i), c.ifs[a].tx[q].common.mrs[i]);
  }

  // ---------- Queues ----------

  /** Known regions; null ones only to receive into, of less than 4 GiB, and of unknown size only last. */
  ghost predicate RegionsUsable(c: Config, mrs: seq<string>, rx: bool) {
    forall i | 0 <= i < |mrs| ::
      && mrs[i] in c.mrs
      && (c.mrs[mrs[i]].isNull ==> rx && c.mrs[mrs[i]].bufSize < 0x1_0000_0000)
      && (c.mrs[mrs[i]].isNull && c.mrs[mrs[i]].bufSize == 0 ==> i == |mrs| - 1)
  }

  /** Polled directly, on an engine that can, without a core, a batch or (to receive) a timeout; or
      indirectly, with a core and a batch. */
  ghost predicate Polled(c: Config, q: Queue, rx: bool) {
    || (q.poll == Direct && c.directOk && !q.hasCore && q.batch == 0 && (rx ==> q.timeoutUs == 0))
    || (q.poll == Indirect && q.hasCore && q.batch > 0)
  }

  /** On raw ibverbs, polled indirectly, with one to four regions that nobody else uses and that have
      buffers, and with batches no larger than its send credits: those configured, or else twice the
      buffers of its smallest pool. Credits and sizes fit 32 bits. */
  ghost predicate Sharable(c: Config, t: TxQueue)
    requires RegionsUsable(c, t.common.mrs, false)
  {
    var mrs := t.common.mrs;
    && c.rawIbverbs && t.common.poll == Indirect && 1 <= |mrs| <= 4
    && (forall i | 0 <= i < |mrs| ::
          && Users(c, mrs[i]) == 1 && 0 < c.mrs[mrs[i]].numBufs < 0xffff_ffff && 0 < c.mrs[mrs[i]].bufSize < 0x1_0000_0000)
    && (t.maxInflight != 0 ==> t.maxInflight < 0x1_0000_0000 && t.common.batch <= t.maxInflight)
    && (t.maxInflight == 0 ==>
          && (forall i | 0 <= i < |mrs| :: t.common.batch <= 2 * c.mrs[mrs[i]].numBufs)
          && (exists i | 0 <= i < |mrs| :: 2 * c.mrs[mrs[i]].numBufs < 0x1_0000_0000))
  }

  ghost predicate Sendable(c: Config, t: TxQueue) {
    && RegionsUsable(c, t.common.mrs, false) && Polled(c, t.common, false)
    && ((t.mode == Cyclic && t.maxInflight == 0) || (t.mode == Shared && Sharable(c, t)))
  }

  lemma UsesExact(c: Config, mrs: seq<string>, rx: bool)
    ensures RegionUsesOk(c, mrs, rx) <==> RegionsUsable(c, mrs, rx)
  {
    if RegionUsesOk(c, mrs, rx) {
      forall i | 0 <= i < |mrs|
        ensures mrs[i] in c.mrs
        ensures c.mrs[mrs[i]].isNull ==> rx && c.mrs[mrs[i]].bufSize < 0x1_0000_0000
        ensures c.mrs[mrs[i]].isNull && c.mrs[mrs[i]].bufSize == 0 ==> i == |mrs| - 1
      {
        assert RegionUseOk(c, mrs, i, rx);
      }
    }
  }

  /** The checks on an RX queue pass exactly then. */
  lemma RxExact(c: Config, q: Queue)
    ensures RxOk(c, q) <==> RegionsUsable(c, q.mrs, true) && Polled(c, q, true)
  {
    hide RegionUsesOk, RegionsUsable;
    UsesExact(c, q.mrs, true);
  }

  lemma {:induction false} SmallestIs(c: Config, mrs: seq<string>, i: nat)
    requires i < |mrs| && mrs[i] in c.mrs
    ensures SmallestPool(c, mrs) <= c.mrs[mrs[i]].numBufs
  {
    if i < |mrs| - 1 {
      SmallestIs(c, mrs[..|mrs| - 1], i);
    }
  }

  lemma {:induction false} SmallestFound(c: Config, mrs: seq<string>) returns (i: nat)
    requires mrs != [] && forall k | 0 <= k < |mrs| :: mrs[k] in c.mrs && c.mrs[mrs[k]].numBufs < U32 - 1
    ensures i < |mrs| && SmallestPool(c, mrs) == c.mrs[mrs[i]].numBufs
  {
    var n := |mrs| - 1;
    if n == 0 {
      assert mrs[..0] == [];
      i := 0;
    } else {
      i := SmallestFound(c, mrs[..n]);
      if c.mrs[mrs[n]].numBufs < SmallestPool(c, mrs[..n]) {
        i := n;
      }
    }
  }

  lemma SharableExact(c: Config, t: TxQueue)
    requires RegionsUsable(c, t.common.mrs, false) && t.common.batch > 0
    ensures SharedOk(c, t) <==> Sharable(c, t)
  {
    hide Users, SmallestPool;
    var mrs := t.common.mrs;
    if mrs != [] && forall i | 0 <= i < |mrs| :: c.mrs[mrs[i]].numBufs < U32 - 1 {
      var s := SmallestFound(c, mrs);
      forall i | 0 <= i < |mrs| ensures SmallestPool(c, mrs) <= c.mrs[mrs[i]].numBufs {
        SmallestIs(c, mrs, i);
      }
    }
    if SharedOk(c, t) {
      forall i | 0 <= i < |mrs| ensures SharedRegionOk(c, mrs[i]) {
      }
    }
  }

  /** The checks on a TX queue pass exactly then. */
  lemma TxExact(c: Config, t: TxQueue)
    ensures TxOk(c, t) <==> Sendable(c, t)
  {
    hide RegionUsesOk, RegionsUsable, SharedOk, Sharable;
    UsesExact(c, t.common.mrs, false);
    if RegionsUsable(c, t.common.mrs, false) && t.common.batch > 0 {
      SharableExact(c, t);
    }
    if t.mode == Shared {
      SharedIsIndirect(c, t);
    }
  }

  lemma SharedIsIndirect(c: Config, t: TxQueue)
    ensures SharedOk(c, t) ==> t.common.poll == Indirect
    ensures RegionsUsable(c, t.common.mrs, false) && Sharable(c, t) ==> t.common.poll == Indirect
  {
  }

  /** Every queue of an accepted configuration can be run as configured. */
  lemma QueuesCanRun(c: Config, a: nat, k: nat)
    requires AllOk(c, |c.ifs|) && a < |c.ifs|
    ensures k < |c.ifs[a].rx| ==> RegionsUsable(c, c.ifs[a].rx[k].mrs, true) && Polled(c, c.ifs[a].rx[k], true)
    ensures k < |c.ifs[a].tx| ==> Sendable(c, c.ifs[a].tx[k])
  {
    assert InterfaceOk(c, c.ifs[a], StaticIds(c.ifs[..a]));
    hide FlowsOk, ReordersOk, Users, StaticIds, RxOk, TxOk, Sendable, Polled, RegionsUsable;
    if k < |c.ifs[a].rx| {
      RxExact(c, c.ifs[a].rx[k]);
    }
    if k < |c.ifs[a].tx| {
      TxExact(c, c.ifs[a].tx[k]);
    }
  }

  /** Every RX flow of an accepted configuration ends in queues of its interface, each named once. */
  lemma FlowsGoSomewhere(c: Config, a: nat, k: nat)
    requires AllOk(c, |c.ifs|) && a < |c.ifs| && k < |c.ifs[a].flows|
    ensures var f := c.ifs[a].flows[k];
            var targets := if f.queueIdList != [] then f.queueIdList else [f.queueId];
            && f.toQueue
            && (forall i | 0 <= i < |targets| :: HasRxQueue(c.ifs[a], targets[i]))
            && (forall i, j | 0 <= i < j < |targets| :: targets[i] != targets[j])
  {
    assert InterfaceOk(c, c.ifs[a], StaticIds(c.ifs[..a]));
    hide ReordersOk, RxOk, TxOk, Users, StaticIds;
    assert TargetsOk(c.ifs[a], c.ifs[a].flows[k]);
  }
}
