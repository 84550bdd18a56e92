/** From external bindings to filled buffer pools: the bindings are checked, the regions allocated, and
    every region's pool gets its own buffers. */
module MemoryPools {
  import opened Words
  import opened MemoryPlan
  import opened MemoryRegions
  import Ring

  /** The address populate_pool starts from; a null region has none and no buffers either. */
  function Base(ar: map<string, nat>, name: string): nat {
    if name in ar then ar[name] else 0
  }

  function Address(base: nat, size: nat, k: nat): nat {
    base + k * size
  }

  function Buffers(regs: Regions, ar: map<string, nat>, name: string): (r: seq<nat>)
    requires name in regs
    ensures |r| == regs[name].numBufs
  {
    seq(regs[name].numBufs, k requires 0 <= k => Address(Base(ar, name), regs[name].adjSize, k))
  }

  /** The memory of entry k of a region's pool. */
  function EntryRange(regs: Regions, pool: seq<nat>, name: string, k: nat): (int, int)
    requires name in regs && k < |pool|
  {
    (pool[k], pool[k] + regs[name].adjSize)
  }

  /** Two entries, of one pool or of two, do not overlap and lie in their regions. */
  ghost predicate EntriesApart(regs: Regions, ar: map<string, nat>, a: string, b: string)
    requires a in regs && b in regs
  {
    forall k: nat, m: nat | k < regs[a].numBufs && m < regs[b].numBufs && (a, k) != (b, m) ::
      && a in ar && Inside(EntryRange(regs, Buffers(regs, ar, a), a, k), RegionRange(regs, ar, a))
      && Apart(EntryRange(regs, Buffers(regs, ar, a), a, k), EntryRange(regs, Buffers(regs, ar, b), b, m))
  }

  lemma AllApart(before: Regions, regs: Regions, env: Env, order: seq<string>, ar: map<string, nat>, a: string, b: string)
    requires env.sysPage > 0 && Visits(order, regs) && SizedAll(before, regs) && NodesMappable(regs, env, order)
    requires Placed(regs, env, order, |order|, ar) && Fresh(regs, env, order) && ExternalsApart(env)
    requires a in regs && b in regs
    ensures EntriesApart(regs, ar, a, b)
  {
    hide Placed, Fresh, NodesMappable, SizedAll, ExternalsApart, Apart, Inside;
    var i: nat :| i < |order| && order[i] == a;
    var j: nat :| j < |order| && order[j] == b;
    forall k: nat, m: nat | k < regs[a].numBufs && m < regs[b].numBufs && (a, k) != (b, m)
      ensures a in ar && Inside(EntryRange(regs, Buffers(regs, ar, a), a, k), RegionRange(regs, ar, a))
      ensures Apart(EntryRange(regs, Buffers(regs, ar, a), a, k), EntryRange(regs, Buffers(regs, ar, b), b, m))
    {
      BuffersNeverAlias(before, regs, env, order, ar, i, k, j, m);
      assert Buffers(regs, ar, a)[k] == BufferAddr(regs, ar, a, k) && Buffers(regs, ar, b)[m] == BufferAddr(regs, ar, b, m);
    }
  }

  /** The pools of the regions in the order they were made. */
  ghost predicate Filled(regs: Regions, ar: map<string, nat>, order: seq<string>, pools: seq<Ring.Ring<nat>>, n: nat)
    requires n <= |order| && n <= |pools| && forall i | 0 <= i < n :: order[i] in regs
    reads pools, set r: Ring.Ring<nat> | r in pools :: r.slots
  {
    forall i | 0 <= i < n :: pools[i].Valid() && pools[i].Contents() == Buffers(regs, ar, order[i])
  }

  /** A ring for one more entry than the region has buffers, filled. */
  method NewPool(regs: Regions, ar: map<string, nat>, name: string, misses: nat) returns (ring: Ring.Ring<nat>)
    requires name in regs && regs[name].numBufs < 0x8000_0000
    ensures fresh(ring) && fresh(ring.slots) && ring.Valid() && ring.Contents() == Buffers(regs, ar, name)
  {
    hide Ring.Ring.Contents, Ring.Ring.Valid, RoundUpPow2, Buffers;
    var r := regs[name];
    ring := new Ring.Ring<nat>(r.numBufs + 1, false);
    var status := PopulatePool(ring, Base(ar, name), r.numBufs, r.adjSize, misses);
    SameEntries(regs, ar, name, ring.Contents());
  }

  lemma SameEntries(regs: Regions, ar: map<string, nat>, name: string, q: seq<nat>)
    requires name in regs && |q| == regs[name].numBufs
    requires forall k | 0 <= k < |q| :: q[k] == Base(ar, name) + k * regs[name].adjSize
    ensures q == Buffers(regs, ar, name)
  {
  }

  /** A pool for each region, with room for all its buffers, so none is refused. */
  method FillPools(regs: Regions, ar: map<string, nat>, order: seq<string>, misses: nat) returns (pools: seq<Ring.Ring<nat>>)
    requires forall i | 0 <= i < |order| :: order[i] in regs && regs[order[i]].numBufs < 0x8000_0000
    ensures |pools| == |order| && Filled(regs, ar, order, pools, |order|)
    ensures forall i | 0 <= i < |pools| :: fresh(pools[i]) && fresh(pools[i].slots)
  {
    hide Ring.Ring.Contents, Ring.Ring.Valid, Buffers;
    pools := [];
    for i := 0 to |order|
      invariant |pools| == i && forall j | 0 <= j < i :: fresh(pools[j]) && fresh(pools[j].slots)
      invariant Filled(regs, ar, order, pools, i)
    {
      var ring := NewPool(regs, ar, order[i], misses);
      pools := pools + [ring];
    }
  }

  /** What the configuration says; the allocators and the iteration orders are inputs. */
  ghost predicate SetupOk(before: Regions, bindings: seq<(string, Binding)>, env: Env) {
    && env.sysPage > 0 && PagesFit(env) && InSizeT(before)
    && (forall i | 0 <= i < |bindings| :: bindings[i].1.data < U64 && bindings[i].1.capacity < U64)
    && (forall name | name in env.externals :: (name, env.externals[name]) in bindings)
    && (forall name | name in before :: before[name].numBufs < 0x8000_0000)
  }

  /** Checking the bindings, allocating and filling the pools succeeds exactly when the bindings are
      good and the allocation succeeds. Then every pool holds all the buffers of its region, in order,
      and no two entries of any pools overlap. */
  method BuildPools(before: Regions, bindings: seq<(string, Binding)>, env: Env, sizing: seq<string>,
                    planning: seq<string>, assigning: seq<string>, filling: seq<string>, misses: nat)
    returns (status: Status, pools: seq<Ring.Ring<nat>>, regs: Regions, ar: map<string, nat>)
    requires SetupOk(before, bindings, env) && Fresh(SizedMap(before), env, assigning)
    requires Visits(sizing, before) && Visits(planning, before) && Visits(assigning, before) && Visits(filling, before)
    ensures status == Success <==> BindingsOk(before, bindings, |bindings|) && Outcome(before, env, assigning) == Success
    ensures status == Success ==> SizedAll(before, regs) && |pools| == |filling|
    ensures status == Success ==> Filled(regs, ar, filling, pools, |filling|)
    ensures status == Success ==> forall a, b | a in regs && b in regs :: EntriesApart(regs, ar, a, b)
  {
    hide Fresh, BindingsOk, Outcome, Placed, NodesMappable, EntriesApart, SizedAll, SizedMap, Filled, InSizeT, PagesFit;
    pools, regs, ar := [], before, map[];
    var ok := CheckBindings(before, bindings);
    if !ok {
      return InvalidParameter, pools, regs, ar;
    }
    CheckedBindingsApart(before, bindings, env);
    var alloc := new Allocator(before, env);
    status := alloc.AllocateMemoryRegions(sizing, planning, assigning);
    regs, ar := alloc.regs, alloc.ar;
    if status == Success {
      SizedIs(before, regs, assigning, filling);
      forall a, b | a in regs && b in regs ensures EntriesApart(regs, ar, a, b) {
        AllApart(before, regs, env, assigning, ar, a, b);
      }
      pools := FillPools(regs, ar, filling, misses);
    }
  }

  lemma SizedIs(before: Regions, regs: Regions, order: seq<string>, filling: seq<string>)
    requires SizedAll(before, regs) && Visits(order, before) && Visits(filling, before)
    requires forall name | name in before :: before[name].numBufs < 0x8000_0000
    ensures regs == SizedMap(before) && Visits(order, regs)
    ensures forall i | 0 <= i < |filling| :: filling[i] in regs && regs[filling[i]].numBufs < 0x8000_0000
  {
  }
}
