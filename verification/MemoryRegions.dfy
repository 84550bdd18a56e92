/** What the memory plan guarantees: slices tile their arena, external bindings are disjoint,
    and the buffers of all regions lie inside their region and never overlap. */
module MemoryRegions {
  import opened Words
  import opened MemoryPlan
  import Ring

  // ---------- Slices of one arena ----------

  /** Where order[i] starts in its arena, and where it ends. */
  function SliceStart(regs: Regions, env: Env, order: seq<string>, i: nat): nat
    requires i < |order| && order[i] in regs
  {
    Sum(regs, env, order[..i], regs[order[i]].affinity)
  }

  predicate InSlice(regs: Regions, env: Env, order: seq<string>, node: int, i: nat, x: nat)
    requires i < |order|
  {
    && On(regs, env, order[i], node)
    && SliceStart(regs, env, order, i) <= x < SliceStart(regs, env, order, i) + regs[order[i]].ttl
  }

  lemma {:induction false} SliceHolding(regs: Regions, env: Env, order: seq<string>, node: int, x: nat, n: nat)
    returns (i: nat)
    requires n <= |order| && x < Sum(regs, env, order[..n], node)
    ensures i < n && InSlice(regs, env, order, node, i, x)
    decreases n
  {
    if n == 0 {
      assert false;
    } else {
      SumNext(regs, env, order, n - 1, node);
      hide Sum;
      if x < Sum(regs, env, order[..n - 1], node) {
        i := SliceHolding(regs, env, order, node, x, n - 1);
      } else {
        i := n - 1;
      }
    }
  }

  lemma SlicesApart(regs: Regions, env: Env, order: seq<string>, node: int, i: nat, j: nat)
    requires i < j < |order| && On(regs, env, order[i], node) && On(regs, env, order[j], node)
    ensures SliceStart(regs, env, order, i) + regs[order[i]].ttl <= SliceStart(regs, env, order, j)
  {
    hide Sum;
    SumNext(regs, env, order, i, node);
    SumPrefix(regs, env, order, i + 1, j, node);
  }

  /** For any assignment order, every byte of [0, total) of a node's arena belongs to exactly
      one slice, where the total is the one computed in any other order of the planning pass. */
  lemma SlicesTile(regs: Regions, env: Env, planning: seq<string>, order: seq<string>, node: int, x: nat)
    requires Visits(planning, regs) && Visits(order, regs) && x < Sum(regs, env, planning, node)
    ensures exists i: nat :: i < |order| && InSlice(regs, env, order, node, i, x)
    ensures forall i: nat, j: nat | i < |order| && j < |order| ::
              InSlice(regs, env, order, node, i, x) && InSlice(regs, env, order, node, j, x) ==> i == j
  {
    hide Sum;
    SameVisits(planning, order, regs);
    SumPermutes(regs, env, planning, order, node);
    assert order[..|order|] == order;
    var i := SliceHolding(regs, env, order, node, x, |order|);
    forall i: nat, j: nat | i < j < |order| && InSlice(regs, env, order, node, i, x)
      ensures !InSlice(regs, env, order, node, j, x)
    {
      if On(regs, env, order[j], node) { SlicesApart(regs, env, order, node, i, j); }
    }
  }

  /** And no slice reaches past the total. */
  lemma SliceInArena(regs: Regions, env: Env, planning: seq<string>, order: seq<string>, i: nat)
    requires Visits(planning, regs) && Visits(order, regs) && i < |order| && Pooled(regs, env, order[i])
    ensures SliceStart(regs, env, order, i) + regs[order[i]].ttl <=
            Sum(regs, env, planning, regs[order[i]].affinity)
  {
    hide Sum;
    var node := regs[order[i]].affinity;
    SameVisits(planning, order, regs);
    SumPermutes(regs, env, planning, order, node);
    SumNext(regs, env, order, i, node);
    SumPrefix(regs, env, order, i + 1, |order|, node);
    assert order[..|order|] == order;
  }

  /** Every slice starts on a GPU page of the arena. */
  lemma SliceAligned(before: Regions, regs: Regions, env: Env, order: seq<string>, i: nat)
    requires SizedAll(before, regs) && i < |order| && order[i] in regs
    ensures SliceStart(regs, env, order, i) % PAGE == 0
  {
    forall name | name in regs
      ensures regs[name].ttl % PAGE == 0
    {
      if !before[name].kind.Null? {
        RoundUpBounds(before[name].adjSize * before[name].numBufs, PAGE);
      }
    }
    SumAligned(regs, env, order[..i], regs[order[i]].affinity);
  }

  // ---------- External bindings ----------

  predicate Apart(a: (int, int), b: (int, int)) {
    a.1 <= b.0 || b.1 <= a.0
  }

  function RangeOf(b: Binding): (int, int) {
    (b.data, b.data + b.capacity)
  }

  /** A binding that set_external_memory_regions accepts on its own. */
  predicate BindingOk(regs: Regions, name: string, b: Binding) {
    && name in regs && !regs[name].kind.Null? && b.data != 0 && b.capacity != 0
    && b.capacity <= U64 - 1 - b.data
  }

  ghost predicate BindingsOk(regs: Regions, bindings: seq<(string, Binding)>, n: nat)
    requires n <= |bindings|
  {
    && (forall i | 0 <= i < n :: BindingOk(regs, bindings[i].0, bindings[i].1))
    && (forall i, j | 0 <= i < j < n :: Apart(RangeOf(bindings[i].1), RangeOf(bindings[j].1)))
  }

  /** The range checks of set_external_memory_regions, in iteration order of the bindings:
      accepted exactly when each binding is good and they are pairwise disjoint. */
  method CheckBindings(regs: Regions, bindings: seq<(string, Binding)>) returns (ok: bool)
    requires forall i | 0 <= i < |bindings| :: bindings[i].1.data < U64 && bindings[i].1.capacity < U64
    ensures ok <==> BindingsOk(regs, bindings, |bindings|)
  {
    var ranges: seq<(int, int)> := [];
    for i := 0 to |bindings|
      invariant |ranges| == i && forall k | 0 <= k < i :: ranges[k] == RangeOf(bindings[k].1)
      invariant BindingsOk(regs, bindings, i)
    {
      var (name, b) := bindings[i];
      if name !in regs || regs[name].kind.Null? || b.data == 0 || b.capacity == 0 {
        return false;
      }
      if b.capacity > U64 - 1 - b.data {
        return false;
      }
      var begin, end := b.data, b.data + b.capacity;
      for k := 0 to i
        invariant forall m | 0 <= m < k :: Apart(ranges[m], (begin, end))
      {
        if begin < ranges[k].1 && ranges[k].0 < end {
          assert !Apart(RangeOf(bindings[k].1), RangeOf(bindings[i].1));
          return false;
        }
      }
      ranges := ranges + [(begin, end)];
    }
    return true;
  }

  ghost predicate ExternalsApart(env: Env) {
    forall a, b | a in env.externals && b in env.externals && a != b ::
      Apart(RangeOf(env.externals[a]), RangeOf(env.externals[b]))
  }

  /** The bindings a successful check went through, in whatever order, leave no overlap. */
  lemma CheckedBindingsApart(regs: Regions, bindings: seq<(string, Binding)>, env: Env)
    requires BindingsOk(regs, bindings, |bindings|)
    requires forall name | name in env.externals :: (name, env.externals[name]) in bindings
    ensures ExternalsApart(env)
  {
    forall a, b | a in env.externals && b in env.externals && a != b
      ensures Apart(RangeOf(env.externals[a]), RangeOf(env.externals[b]))
    {
      var i: nat :| i < |bindings| && bindings[i] == (a, env.externals[a]);
      var j: nat :| j < |bindings| && bindings[j] == (b, env.externals[b]);
      if i < j {
        assert Apart(RangeOf(bindings[i].1), RangeOf(bindings[j].1));
      } else {
        assert Apart(RangeOf(bindings[j].1), RangeOf(bindings[i].1));
      }
    }
  }

  // ---------- Order does not matter ----------

  lemma {:induction false} NoFailure(regs: Regions, env: Env, order: seq<string>)
    requires env.sysPage > 0 && forall k | 0 <= k < |order| :: order[k] in regs
    ensures FirstFailure(regs, env, order) == Success <==>
            forall k | 0 <= k < |order| :: Verdict(regs, env, order[k]) == Success
  {
    hide Verdict;
    if order != [] {
      NoFailure(regs, env, order[1..]);
      assert forall k | 1 <= k < |order| :: order[1..][k - 1] == order[k];
      if FirstFailure(regs, env, order) == Success {
        forall k | 0 <= k < |order|
          ensures Verdict(regs, env, order[k]) == Success
        {
          if k > 0 { assert order[1..][k - 1] == order[k]; }
        }
      }
    }
  }

  /** Whether the allocation succeeds does not depend on the iteration order. */
  lemma SuccessInAnyOrder(before: Regions, env: Env, a: seq<string>, b: seq<string>)
    requires env.sysPage > 0 && Visits(a, before) && Visits(b, before)
    ensures Outcome(before, env, a) == Success <==> Outcome(before, env, b) == Success
  {
    hide Sum, Verdict, FirstFailure, Mappable, Sized, SizeFits;
    var regs := SizedMap(before);
    SameVisits(a, b, before);
    forall node: int
      ensures Sum(regs, env, a, node) == Sum(regs, env, b, node)
    {
      SumPermutes(regs, env, a, b, node);
    }
    NoFailure(regs, env, a);
    NoFailure(regs, env, b);
    assert forall k | 0 <= k < |a| :: a[k] in b;
    assert forall k | 0 <= k < |b| :: b[k] in a;
  }

  // ---------- All regions ----------

  /** What a region's memory comes from. */
  datatype Backing = External(name: string) | Pool(node: int) | System(name: string)

  function BackingOf(regs: Regions, env: Env, name: string): Backing
    requires name in regs
  {
    if name in env.externals then External(name)
    else if Pooled(regs, env, name) then Pool(regs[name].affinity) else System(name)
  }

  predicate Present(regs: Regions, env: Env, order: seq<string>, b: Backing) {
    match b
    case External(name) => name in env.externals
    case Pool(node) => Mappable(env, Sum(regs, env, order, node), node)
    case System(name) => name in env.sys && name in regs
  }

  /** The addresses a backing covers. */
  function Extent(regs: Regions, env: Env, order: seq<string>, b: Backing): (int, int)
    requires Present(regs, env, order, b)
  {
    match b
    case External(name) => RangeOf(env.externals[name])
    case Pool(node) => (env.maps[node].base, env.maps[node].base + RoundUp(Sum(regs, env, order, node), env.maps[node].page))
    case System(name) => (env.sys[name], env.sys[name] + regs[name].ttl)
  }

  /** The allocators return memory that overlaps nothing else in use. */
  ghost predicate Fresh(regs: Regions, env: Env, order: seq<string>) {
    forall a: Backing, b: Backing |
      Present(regs, env, order, a) && Present(regs, env, order, b) && a != b && !(a.External? && b.External?) ::
      Apart(Extent(regs, env, order, a), Extent(regs, env, order, b))
  }

  /** The addresses of the region order[i]. */
  function RegionRange(regs: Regions, ar: map<string, nat>, name: string): (int, int)
    requires name in regs && name in ar
  {
    (ar[name], ar[name] + regs[name].ttl)
  }

  predicate Inside(a: (int, int), b: (int, int)) {
    b.0 <= a.0 && a.1 <= b.1
  }

  lemma RegionInBacking(regs: Regions, env: Env, order: seq<string>, ar: map<string, nat>, i: nat)
    requires env.sysPage > 0 && Visits(order, regs) && NodesMappable(regs, env, order)
    requires Placed(regs, env, order, |order|, ar) && i < |order| && !regs[order[i]].kind.Null?
    ensures var b := BackingOf(regs, env, order[i]);
            && Present(regs, env, order, b) && order[i] in ar
            && Inside(RegionRange(regs, ar, order[i]), Extent(regs, env, order, b))
  {
    hide Sum, RoundUp;
    var name := order[i];
    if name !in env.externals && Pooled(regs, env, name) {
      var node := regs[name].affinity;
      SliceInArena(regs, env, order, order, i);
      RoundUpBounds(Sum(regs, env, order, node), env.maps[node].page);
    }
  }

  /** No two regions overlap. */
  lemma RegionsApart(regs: Regions, env: Env, order: seq<string>, ar: map<string, nat>, i: nat, j: nat)
    requires env.sysPage > 0 && Visits(order, regs) && NodesMappable(regs, env, order)
    requires Placed(regs, env, order, |order|, ar) && Fresh(regs, env, order) && ExternalsApart(env)
    requires i < j < |order| && !regs[order[i]].kind.Null? && !regs[order[j]].kind.Null?
    ensures order[i] in ar && order[j] in ar
    ensures Apart(RegionRange(regs, ar, order[i]), RegionRange(regs, ar, order[j]))
  {
    hide Sum, RoundUp, Verdict;
    RegionInBacking(regs, env, order, ar, i);
    RegionInBacking(regs, env, order, ar, j);
    var a, b := BackingOf(regs, env, order[i]), BackingOf(regs, env, order[j]);
    if a == b {
      SlicesApart(regs, env, order, a.node, i, j);
    } else {
      assert Apart(Extent(regs, env, order, a), Extent(regs, env, order, b));
    }
  }

  /** A region can be allocated exactly when it is null; or bound to memory that is large enough and
      aligned for the engine and the kind; or owned, and a hugepage region of an engine that pools them
      or one the system allocator has memory for. */
  lemma AllocatableExactly(regs: Regions, env: Env, name: string)
    requires name in regs && env.sysPage > 0
    ensures var r := regs[name];
            Verdict(regs, env, name) == Success <==>
              || r.kind == Null
              || (name in env.externals && r.ttl <= env.externals[name].capacity
                  && (env.engine == Dpdk ==> env.externals[name].data % 65536 == 0)
                  && (env.engine == Ibverbs && r.kind == Device ==> env.externals[name].data % env.sysPage == 0)
                  && (env.engine == OtherEngine && r.kind == Device ==> env.externals[name].data % 256 == 0)
                  && (env.engine != Dpdk && r.kind != Device ==> env.externals[name].data % 128 == 0))
              || (name !in env.externals && r.owned && ((env.pool && r.kind == Huge) || name in env.sys))
  {
  }

  /** Where each kind of region goes. A caller's memory is used as it is, when it is large enough and
      aligned for the engine; a hugepage region of the engine lies on a 64 KiB boundary in the arena of
      its own node, when the engine pools them; everything else is where the system allocator put it.
      A region that is neither owned nor bound is never placed. */
  lemma WhereRegionsGo(before: Regions, regs: Regions, env: Env, order: seq<string>, ar: map<string, nat>, i: nat)
    requires env.sysPage > 0 && Visits(order, regs) && SizedAll(before, regs) && NodesMappable(regs, env, order)
    requires Placed(regs, env, order, |order|, ar) && i < |order| && !regs[order[i]].kind.Null?
    ensures var name, r := order[i], regs[order[i]];
            && name in ar
            && (name in env.externals ==>
                  && ar[name] == env.externals[name].data && r.ttl <= env.externals[name].capacity
                  && (env.engine.Dpdk? ==> ar[name] % 65536 == 0)
                  && (env.engine.Ibverbs? && r.kind.Device? ==> ar[name] % env.sysPage == 0)
                  && (env.engine.OtherEngine? && r.kind.Device? ==> ar[name] % 256 == 0)
                  && (!env.engine.Dpdk? && !r.kind.Device? ==> ar[name] % 128 == 0))
            && (name !in env.externals && r.kind.Huge? && env.pool ==>
                  && r.affinity in env.maps && (ar[name] - env.maps[r.affinity].base) % 65536 == 0
                  && Inside(RegionRange(regs, ar, name), Extent(regs, env, order, Pool(r.affinity))))
            && (name !in env.externals && !(r.kind.Huge? && env.pool) ==> name in env.sys && ar[name] == env.sys[name])
            && (name in env.externals || r.owned)
  {
    hide Sum, RoundUp, SizedAll;
    RegionInBacking(regs, env, order, ar, i);
    if Pooled(regs, env, order[i]) {
      SliceAligned(before, regs, env, order, i);
    }
  }

  // ---------- Buffers ----------

  /** The k-th buffer that populate_pool enqueues for a region. */
  function BufferAddr(regs: Regions, ar: map<string, nat>, name: string, k: nat): nat
    requires name in regs && name in ar
  {
    ar[name] + k * regs[name].adjSize
  }

  function BufferRange(regs: Regions, ar: map<string, nat>, name: string, k: nat): (int, int)
    requires name in regs && name in ar
  {
    (BufferAddr(regs, ar, name, k), BufferAddr(regs, ar, name, k) + regs[name].adjSize)
  }

  lemma BufferInRegion(before: Regions, regs: Regions, ar: map<string, nat>, name: string, k: nat)
    requires SizedAll(before, regs) && name in regs && name in ar && k < regs[name].numBufs
    ensures Inside(BufferRange(regs, ar, name, k), RegionRange(regs, ar, name))
  {
    var r := regs[name];
    MulOrder(k, r.numBufs, r.adjSize);
    assert r.numBufs * r.adjSize == r.adjSize * r.numBufs;
    RoundUpBounds(r.adjSize * r.numBufs, PAGE);
    hide RoundUp;
  }

  /** After a successful allocation, every buffer of every region lies inside its region, and no
      two buffers overlap, whether of one region or of two, whatever the iteration orders were. */
  lemma BuffersNeverAlias(before: Regions, regs: Regions, env: Env, order: seq<string>, ar: map<string, nat>,
                          i: nat, k: nat, j: nat, m: nat)
    requires env.sysPage > 0 && Visits(order, regs) && SizedAll(before, regs) && NodesMappable(regs, env, order)
    requires Placed(regs, env, order, |order|, ar) && Fresh(regs, env, order) && ExternalsApart(env)
    requires i < |order| && k < regs[order[i]].numBufs && j < |order| && m < regs[order[j]].numBufs
    requires (i, k) != (j, m)
    ensures order[i] in ar && order[j] in ar
    ensures Inside(BufferRange(regs, ar, order[i], k), RegionRange(regs, ar, order[i]))
    ensures Apart(BufferRange(regs, ar, order[i], k), BufferRange(regs, ar, order[j], m))
    ensures regs[order[i]].adjSize > 0 && regs[order[j]].adjSize > 0 ==>
              BufferAddr(regs, ar, order[i], k) != BufferAddr(regs, ar, order[j], m)
  {
    hide Sum, RoundUp, Verdict, BufferAddr, Fresh, Placed, PtrAt;
    PlacedNonNull(before, regs, env, order, ar, i);
    PlacedNonNull(before, regs, env, order, ar, j);
    BufferInRegion(before, regs, ar, order[i], k);
    BufferInRegion(before, regs, ar, order[j], m);
    if i == j {
      StrideApart(regs, ar, order[i], k, m);
    } else {
      RegionsApart(regs, env, order, ar, if i < j then i else j, if i < j then j else i);
    }
  }

  lemma PlacedNonNull(before: Regions, regs: Regions, env: Env, order: seq<string>, ar: map<string, nat>, i: nat)
    requires env.sysPage > 0 && Visits(order, regs) && SizedAll(before, regs)
    requires Placed(regs, env, order, |order|, ar) && i < |order| && regs[order[i]].numBufs > 0
    ensures !regs[order[i]].kind.Null? && order[i] in ar
  {
  }

  lemma StrideApart(regs: Regions, ar: map<string, nat>, name: string, k: nat, m: nat)
    requires name in regs && name in ar && k != m
    ensures Apart(BufferRange(regs, ar, name, k), BufferRange(regs, ar, name, m))
  {
    MulOrder(if k < m then k else m, if k < m then m else k, regs[name].adjSize);
  }

  /** populate_pool: all buffers in order, or as many as the ring had room for. */
  method PopulatePool(ring: Ring.Ring<nat>, base: nat, numBufs: nat, adjSize: nat, misses: nat) returns (status: Status)
    requires ring.Valid()
    modifies ring, ring.slots
    ensures ring.Valid()
    ensures status == Success <==> |old(ring.Contents())| + numBufs <= ring.mask
    ensures status != Success ==> status == NullPtr
    ensures status == Success ==> ring.Contents() == old(ring.Contents()) + seq(numBufs, k requires 0 <= k => base + k * adjSize)
  {
    hide Ring.Window, Ring.Ring.Contents;
    for i := 0 to numBufs
      invariant ring.Valid() && |old(ring.Contents())| + i <= ring.mask
      invariant ring.Contents() == old(ring.Contents()) + seq(i, k requires 0 <= k => base + k * adjSize)
    {
      var ok := ring.Enqueue(base + i * adjSize, misses);
      if !ok {
        return NullPtr;
      }
    }
    return Success;
  }
}
