/** Engine::allocate_memory_regions: sizing, the per-node hugepage arena plan and the bump
    allocation of slices, over any iteration order of each pass; the overlap check on external
    bindings; and the buffers populate_pool hands out. Allocators are inputs, and a region's name
    is the key it is stored under. */
module MemoryPlan {
  import opened Words

  const PAGE: nat := 65536

  datatype Kind = Null | Host | HostPinned | Huge | Device

  datatype Region = Region(kind: Kind, affinity: int, numBufs: nat, adjSize: nat, owned: bool, ttl: nat)

  datatype Binding = Binding(data: nat, capacity: nat)

  datatype EngineType = Dpdk | Ibverbs | OtherEngine

  datatype Status = Success | InvalidParameter | NullPtr

  /** A hugetlb mapping: where it is and the page size it was made with. */
  datatype Mapping = Mapping(base: nat, page: nat)

  /** External bindings, and what each allocator call would return (absent: it fails). */
  datatype Env = Env(engine: EngineType, sysPage: nat, pool: bool, externals: map<string, Binding>,
                     maps: map<int, Mapping>, sys: map<string, nat>)

  datatype Arena = Arena(base: nat, mapped: nat, used: nat, next: nat)

  type Regions = map<string, Region>

  // ---------- Sizes ----------

  function RoundUp(value: nat, alignment: nat): nat
    requires alignment > 0
  {
    (value + alignment - 1) / alignment * alignment
  }

  lemma RoundUpBounds(value: nat, alignment: nat)
    requires alignment > 0
    ensures value <= RoundUp(value, alignment) < value + alignment
    ensures RoundUp(value, alignment) % alignment == 0
  {
    var q, r := (value + alignment - 1) / alignment, (value + alignment - 1) % alignment;
    assert value + alignment - 1 == alignment * q + r;
    DivModUnique(q * alignment, alignment, q, 0);
  }

  /** round_up_checked in size_t. */
  method RoundUpChecked(value: nat, alignment: nat) returns (ok: bool, r: nat)
    requires value < U64 && alignment < U64
    ensures ok <==> alignment > 0 && value + alignment - 1 < U64
    ensures ok ==> value <= r < value + alignment && r % alignment == 0
    ensures ok ==> r == RoundUp(value, alignment)
  {
    if alignment == 0 || value > U64 - 1 - (alignment - 1) {
      return false, 0;
    }
    RoundUpBounds(value, alignment);
    r := (value + alignment - 1) / alignment * alignment;
    return true, r;
  }

  /** The size test by division is the test that the product fits. */
  lemma ProductFits(adj: nat, num: nat)
    requires adj < U64 && num < U64
    ensures num != 0 ==> (adj > (U64 - 1) / num <==> adj * num >= U64)
  {
    if num != 0 {
      var q, r := (U64 - 1) / num, (U64 - 1) % num;
      assert U64 - 1 == num * q + r && 0 <= r < num;
      if adj > q {
        MulStep(q + 1, adj, num);
        assert (q + 1) * num == num * q + num;
      } else {
        MulStep(adj, q, num);
        assert q * num == num * q;
      }
    }
  }

  lemma MulStep(a: nat, b: nat, n: nat)
    requires a <= b
    ensures a * n <= b * n
  {
  }

  predicate SizeFits(r: Region) {
    r.kind.Null? || r.adjSize * r.numBufs + PAGE - 1 < U64
  }

  /** A region after the sizing pass. */
  function Sized(r: Region): Region {
    if r.kind.Null? then Region(Null, 0, 0, 0, true, 0)
    else r.(ttl := RoundUp(r.adjSize * r.numBufs, PAGE))
  }

  // ---------- Iteration orders ----------

  predicate NoRepeat(order: seq<string>) {
    forall i, j | 0 <= i < j < |order| :: order[i] != order[j]
  }

  /** An order in which a loop over the region map may visit it. */
  ghost predicate Visits(order: seq<string>, regs: Regions) {
    && NoRepeat(order)
    && (forall k | 0 <= k < |order| :: order[k] in regs)
    && (forall name | name in regs :: name in order)
  }

  lemma {:induction false} OneOfEach(order: seq<string>, name: string)
    requires NoRepeat(order)
    ensures multiset(order)[name] == if name in order then 1 else 0
  {
    if order != [] {
      assert order == [order[0]] + order[1..];
      OneOfEach(order[1..], name);
    }
  }

  lemma SameVisits(a: seq<string>, b: seq<string>, regs: Regions)
    requires Visits(a, regs) && Visits(b, regs)
    ensures multiset(a) == multiset(b)
  {
    forall name: string
      ensures multiset(a)[name] == multiset(b)[name]
    {
      OneOfEach(a, name);
      OneOfEach(b, name);
    }
  }

  // ---------- Arena shares ----------

  predicate Pooled(regs: Regions, env: Env, name: string) {
    env.pool && name in regs && regs[name].owned && regs[name].kind.Huge? && name !in env.externals
  }

  predicate On(regs: Regions, env: Env, name: string, node: int) {
    Pooled(regs, env, name) && regs[name].affinity == node
  }

  function Share(regs: Regions, env: Env, name: string, node: int): nat {
    if On(regs, env, name, node) then regs[name].ttl else 0
  }

  /** The bytes that the regions listed in `order` take in the arena of `node`. */
  function Sum(regs: Regions, env: Env, order: seq<string>, node: int): nat {
    if order == [] then 0 else Share(regs, env, order[0], node) + Sum(regs, env, order[1..], node)
  }

  lemma {:induction false} SumAppend(regs: Regions, env: Env, a: seq<string>, b: seq<string>, node: int)
    ensures Sum(regs, env, a + b, node) == Sum(regs, env, a, node) + Sum(regs, env, b, node)
  {
    hide Share;
    if a == [] {
      assert a + b == b;
    } else {
      assert (a + b)[1..] == a[1..] + b;
      SumAppend(regs, env, a[1..], b, node);
    }
  }

  lemma SumNext(regs: Regions, env: Env, order: seq<string>, i: nat, node: int)
    requires i < |order|
    ensures Sum(regs, env, order[..i + 1], node) ==
            Sum(regs, env, order[..i], node) + Share(regs, env, order[i], node)
  {
    hide Share;
    assert order[..i + 1] == order[..i] + [order[i]];
    SumAppend(regs, env, order[..i], [order[i]], node);
    assert [order[i]][1..] == [];
  }

  lemma SumPrefix(regs: Regions, env: Env, order: seq<string>, i: nat, j: nat, node: int)
    requires i <= j <= |order|
    ensures Sum(regs, env, order[..i], node) <= Sum(regs, env, order[..j], node)
  {
    hide Share;
    assert order[..j] == order[..i] + order[i..j];
    SumAppend(regs, env, order[..i], order[i..j], node);
  }

  lemma RemoveFirst(a: seq<string>, b: seq<string>) returns (k: nat)
    requires multiset(a) == multiset(b) && a != []
    ensures k < |b| && b[k] == a[0] && multiset(a[1..]) == multiset(b[..k] + b[k + 1..])
  {
    assert a[0] in multiset(b);
    k :| k < |b| && b[k] == a[0];
    assert multiset(a) == multiset{a[0]} + multiset(a[1..]) by { assert a == [a[0]] + a[1..]; }
    assert multiset(b) == multiset(b[..k]) + multiset{b[k]} + multiset(b[k + 1..]) by {
      assert b == b[..k] + [b[k]] + b[k + 1..];
    }
    assert multiset(a[1..]) == multiset(a) - multiset{a[0]};
    assert multiset(b[..k]) + multiset(b[k + 1..]) == multiset(b) - multiset{b[k]};
  }

  lemma SumWithout(regs: Regions, env: Env, b: seq<string>, k: nat, node: int)
    requires k < |b|
    ensures Sum(regs, env, b, node) ==
            Sum(regs, env, b[..k] + b[k + 1..], node) + Share(regs, env, b[k], node)
  {
    hide Share;
    assert b == b[..k + 1] + b[k + 1..];
    SumAppend(regs, env, b[..k + 1], b[k + 1..], node);
    SumAppend(regs, env, b[..k], b[k + 1..], node);
    SumNext(regs, env, b, k, node);
  }

  /** The total does not depend on the iteration order: both passes agree on it. */
  lemma {:induction false} SumPermutes(regs: Regions, env: Env, a: seq<string>, b: seq<string>, node: int)
    requires multiset(a) == multiset(b)
    ensures Sum(regs, env, a, node) == Sum(regs, env, b, node)
    decreases |a|
  {
    hide Share;
    assert |multiset(a)| == |a| && |multiset(b)| == |b|;
    if a != [] {
      var k := RemoveFirst(a, b);
      SumPermutes(regs, env, a[1..], b[..k] + b[k + 1..], node);
      SumWithout(regs, env, b, k, node);
    }
  }

  lemma {:induction false} SumAligned(regs: Regions, env: Env, order: seq<string>, node: int)
    requires forall name | name in regs :: regs[name].ttl % PAGE == 0
    ensures Sum(regs, env, order, node) % PAGE == 0
  {
    if order != [] { SumAligned(regs, env, order[1..], node); }
  }

  // ---------- What each region gets ----------

  function AlignmentFor(env: Env, kind: Kind): nat {
    if env.engine.Dpdk? then PAGE
    else if env.engine.Ibverbs? && kind.Device? then env.sysPage
    else if kind.Device? then 256 else 128
  }

  /** How allocating one region ends; no case for a missing or overfull arena. */
  function Verdict(regs: Regions, env: Env, name: string): Status
    requires name in regs && env.sysPage > 0
  {
    var r := regs[name];
    if r.kind.Null? then Success
    else if name in env.externals then
      if env.externals[name].capacity < r.ttl then InvalidParameter
      else if env.externals[name].data % AlignmentFor(env, r.kind) != 0 then InvalidParameter else Success
    else if !r.owned then InvalidParameter
    else if Pooled(regs, env, name) || name in env.sys then Success else NullPtr
  }

  /** The first failure in iteration order, or Success. */
  function FirstFailure(regs: Regions, env: Env, order: seq<string>): Status
    requires env.sysPage > 0 && forall k | 0 <= k < |order| :: order[k] in regs
  {
    if order == [] then Success
    else if Verdict(regs, env, order[0]) != Success then Verdict(regs, env, order[0])
    else FirstFailure(regs, env, order[1..])
  }

  /** The address given to order[i]. */
  function PtrAt(regs: Regions, env: Env, order: seq<string>, i: nat): nat
    requires i < |order| && order[i] in regs
    requires Pooled(regs, env, order[i]) ==> regs[order[i]].affinity in env.maps
    requires Verdict.requires(regs, env, order[i]) && Verdict(regs, env, order[i]) == Success
  {
    var name := order[i];
    if regs[name].kind.Null? then 0
    else if name in env.externals then env.externals[name].data
    else if Pooled(regs, env, name)
    then env.maps[regs[name].affinity].base + Sum(regs, env, order[..i], regs[name].affinity)
    else env.sys[name]
  }

  /** Every region that was allocated is at its address. */
  ghost predicate Placed(regs: Regions, env: Env, order: seq<string>, n: nat, ar: map<string, nat>)
    requires n <= |order| && env.sysPage > 0
  {
    forall i | 0 <= i < n ::
      && order[i] in regs && Verdict(regs, env, order[i]) == Success
      && (Pooled(regs, env, order[i]) ==> regs[order[i]].affinity in env.maps)
      && (!regs[order[i]].kind.Null? ==>
            order[i] in ar && ar[order[i]] == PtrAt(regs, env, order, i))
  }

  // ---------- The code ----------

  function Total(total: map<int, nat>, node: int): nat {
    if node in total then total[node] else 0
  }

  predicate PoolSized(regs: Regions, env: Env) {
    forall name | name in regs :: Pooled(regs, env, name) ==> regs[name].ttl > 0
  }

  predicate InSizeT(regs: Regions) {
    forall name | name in regs :: regs[name].adjSize < U64 && regs[name].numBufs < U64
  }

  /** What the sizing pass makes of the whole region map. */
  predicate SizedAll(before: Regions, after: Regions) {
    && after.Keys == before.Keys
    && forall name | name in before :: SizeFits(before[name]) && after[name] == Sized(before[name])
  }

  predicate Mappable(env: Env, used: nat, node: int) {
    node in env.maps && env.maps[node].page > 0 && used + env.maps[node].page - 1 < U64
  }

  function FreshArena(env: Env, used: nat, node: int): Arena
    requires Mappable(env, used, node)
  {
    Arena(env.maps[node].base, RoundUp(used, env.maps[node].page), used, 0)
  }

  ghost predicate ArenaReady(regs: Regions, env: Env, order: seq<string>, i: nat, node: int, arena: Arena)
    requires i <= |order|
  {
    && node in env.maps && arena.base == env.maps[node].base
    && arena.used == Sum(regs, env, order, node) && arena.next == Sum(regs, env, order[..i], node)
    && arena.used <= arena.mapped
  }

  /** After i regions, each arena's bump pointer is past the shares handed out so far. */
  ghost predicate ArenasReady(regs: Regions, env: Env, order: seq<string>, i: nat, arenas: map<int, Arena>)
    requires i <= |order|
  {
    && (forall name | name in regs :: Pooled(regs, env, name) ==> regs[name].affinity in arenas)
    && (forall node | node in arenas :: ArenaReady(regs, env, order, i, node, arenas[node]))
  }

  /** The arenas after `name` has taken its slice. */
  function Advanced(regs: Regions, env: Env, name: string, arenas: map<int, Arena>): map<int, Arena>
    requires name in regs && (Pooled(regs, env, name) ==> regs[name].affinity in arenas)
  {
    if Pooled(regs, env, name)
    then var node := regs[name].affinity;
         arenas[node := arenas[node].(next := arenas[node].next + regs[name].ttl)]
    else arenas
  }

  lemma ReadyNext(regs: Regions, env: Env, order: seq<string>, i: nat, before: map<int, Arena>,
                  after: map<int, Arena>)
    requires i < |order| && order[i] in regs && ArenasReady(regs, env, order, i, before)
    requires after == Advanced(regs, env, order[i], before)
    ensures ArenasReady(regs, env, order, i + 1, after)
  {
    hide Sum;
    forall node | node in after
      ensures ArenaReady(regs, env, order, i + 1, node, after[node])
    {
      assert ArenaReady(regs, env, order, i, node, before[node]);
      SumNext(regs, env, order, i, node);
    }
  }

  lemma RoomInArena(regs: Regions, env: Env, order: seq<string>, i: nat, arenas: map<int, Arena>)
    requires i < |order| && order[i] in regs && ArenasReady(regs, env, order, i, arenas)
    requires Pooled(regs, env, order[i])
    ensures var node := regs[order[i]].affinity;
            && node in arenas && node in env.maps
            && arenas[node].base == env.maps[node].base
            && arenas[node].next == Sum(regs, env, order[..i], node)
            && arenas[node].next + regs[order[i]].ttl <= arenas[node].used
  {
    hide Sum;
    var node := regs[order[i]].affinity;
    assert ArenaReady(regs, env, order, i, node, arenas[node]);
    SumNext(regs, env, order, i, node);
    SumPrefix(regs, env, order, i + 1, |order|, node);
    assert order[..|order|] == order;
  }

  predicate PagesFit(env: Env) {
    forall node | node in env.maps :: env.maps[node].page < U64
  }

  predicate AllMappable(env: Env, total: map<int, nat>) {
    forall node | node in total :: Mappable(env, total[node], node)
  }

  function SizedMap(regs: Regions): Regions {
    map name | name in regs :: Sized(regs[name])
  }

  /** Every node that a pooled region names can be mapped at the size the node needs. */
  predicate NodesMappable(regs: Regions, env: Env, order: seq<string>) {
    forall name | name in regs && Pooled(regs, env, name) ::
      Mappable(env, Sum(regs, env, order, regs[name].affinity), regs[name].affinity)
  }

  /** How the whole call ends; `before` holds the configured regions. */
  ghost function Outcome(before: Regions, env: Env, order: seq<string>): Status
    requires env.sysPage > 0 && Visits(order, before)
  {
    var regs := SizedMap(before);
    if !(forall name | name in before :: SizeFits(before[name])) then InvalidParameter
    else if !PoolSized(regs, env) || !(forall node: int :: Sum(regs, env, order, node) < U64) then InvalidParameter
    else if !NodesMappable(regs, env, order) then NullPtr
    else FirstFailure(regs, env, order)
  }

  predicate FreshArenas(env: Env, total: map<int, nat>, arenas: map<int, Arena>) {
    && arenas.Keys == total.Keys
    && forall node | node in total :: Mappable(env, total[node], node) && arenas[node] == FreshArena(env, total[node], node)
  }

  /** A node has a total exactly when a pooled region names it. */
  ghost predicate Totals(regs: Regions, env: Env, order: seq<string>, total: map<int, nat>) {
    && (forall name | name in regs && Pooled(regs, env, name) :: regs[name].affinity in total)
    && (forall node | node in total :: total[node] > 0)
    && (forall node: int :: Total(total, node) == Sum(regs, env, order, node))
  }

  lemma {:induction false} SomeShare(regs: Regions, env: Env, order: seq<string>, node: int) returns (k: nat)
    requires Sum(regs, env, order, node) > 0
    ensures k < |order| && On(regs, env, order[k], node)
  {
    if Share(regs, env, order[0], node) > 0 {
      k := 0;
    } else {
      k := SomeShare(regs, env, order[1..], node);
      k := k + 1;
    }
  }

  lemma TotalsMappable(regs: Regions, env: Env, order: seq<string>, total: map<int, nat>)
    requires Totals(regs, env, order, total)
    ensures AllMappable(env, total) <==> NodesMappable(regs, env, order)
  {
    hide Sum, Mappable;
    forall name | name in regs && Pooled(regs, env, name)
      ensures total[regs[name].affinity] == Sum(regs, env, order, regs[name].affinity)
    {
      assert Total(total, regs[name].affinity) == Sum(regs, env, order, regs[name].affinity);
    }
    forall node | node in total
      ensures exists name :: name in regs && Pooled(regs, env, name) && regs[name].affinity == node
    {
      assert Total(total, node) == Sum(regs, env, order, node);
      var k := SomeShare(regs, env, order, node);
      assert Pooled(regs, env, order[k]);
    }
  }

  lemma FreshReady(regs: Regions, env: Env, order: seq<string>, total: map<int, nat>, arenas: map<int, Arena>)
    requires Totals(regs, env, order, total) && AllMappable(env, total)
    requires FreshArenas(env, total, arenas)
    ensures ArenasReady(regs, env, order, 0, arenas)
  {
    forall node | node in arenas
      ensures ArenaReady(regs, env, order, 0, node, arenas[node])
    {
      assert Total(total, node) == Sum(regs, env, order, node);
      RoundUpBounds(total[node], env.maps[node].page);
    }
  }

  lemma SomeNode(nodes: set<int>)
    ensures nodes == {} || exists node :: node in nodes
  {
    if forall node: int :: node !in nodes {
      assert nodes == {};
    }
  }

  class Allocator {
    const env: Env
    var regs: Regions
    var arenas: map<int, Arena>
    var ar: map<string, nat>

    constructor (regs: Regions, env: Env)
      ensures this.regs == regs && this.env == env && arenas == map[] && ar == map[]
    {
      this.regs, this.env, arenas, ar := regs, env, map[], map[];
    }

    /** First loop: the logical span of every region, or an overflow. */
    method SizeRegions(order: seq<string>) returns (ok: bool)
      requires Visits(order, regs) && InSizeT(regs)
      modifies `regs
      ensures ok <==> forall name | name in old(regs) :: SizeFits(old(regs)[name])
      ensures ok ==> SizedAll(old(regs), regs)
    {
      for i := 0 to |order|
        invariant regs.Keys == old(regs).Keys
        invariant forall j | 0 <= j < i :: SizeFits(old(regs)[order[j]]) && regs[order[j]] == Sized(old(regs)[order[j]])
        invariant forall j | i <= j < |order| :: regs[order[j]] == old(regs)[order[j]]
      {
        var r := regs[order[i]];
        if r.kind.Null? {
          regs := regs[order[i] := Region(Null, 0, 0, 0, true, 0)];
        } else {
          ProductFits(r.adjSize, r.numBufs);
          if r.numBufs != 0 && r.adjSize > (U64 - 1) / r.numBufs {
            return false;
          }
          var fits, ttl := RoundUpChecked(r.adjSize * r.numBufs, PAGE);
          if !fits {
            return false;
          }
          regs := regs[order[i] := r.(ttl := ttl)];
        }
      }
      return true;
    }

    /** Second loop: the bytes each node's arena needs. */
    method PlanArenas(order: seq<string>) returns (ok: bool, total: map<int, nat>)
      requires Visits(order, regs)
      ensures ok <==> PoolSized(regs, env) && forall node: int :: Sum(regs, env, order, node) < U64
      ensures ok ==> Totals(regs, env, order, total) && forall node | node in total :: total[node] < U64
    {
      total := map[];
      assert order[..0] == [];
      for i := 0 to |order|
        invariant forall node: int :: Total(total, node) == Sum(regs, env, order[..i], node) < U64
        invariant forall node | node in total :: 0 < total[node] < U64
        invariant forall j | 0 <= j < i :: Pooled(regs, env, order[j]) ==>
                    regs[order[j]].ttl > 0 && regs[order[j]].affinity in total
      {
        var name := order[i];
        forall node: int
          ensures Sum(regs, env, order[..i + 1], node) ==
                  Sum(regs, env, order[..i], node) + Share(regs, env, name, node)
        {
          SumNext(regs, env, order, i, node);
        }
        if Pooled(regs, env, name) {
          var r := regs[name];
          if r.ttl == 0 {
            return false, map[];
          }
          if Total(total, r.affinity) > U64 - 1 - r.ttl {
            SumPrefix(regs, env, order, i + 1, |order|, r.affinity);
            assert order[..|order|] == order;
            return false, map[];
          }
          var was := total;
          total := total[r.affinity := Total(total, r.affinity) + r.ttl];
          assert forall node: int :: Total(total, node) == Total(was, node) + Share(regs, env, name, node);
        }
      }
      assert order[..|order|] == order;
      return true, total;
    }

    /** One arena per node of the plan; the order of the nodes does not matter. */
    method MapArenas(total: map<int, nat>) returns (ok: bool)
      requires forall node | node in total :: 0 < total[node] < U64
      requires PagesFit(env) && arenas == map[]
      modifies `arenas
      ensures ok <==> AllMappable(env, total)
      ensures ok ==> FreshArenas(env, total, arenas)
    {
      var todo := total.Keys;
      while todo != {}
        invariant todo <= total.Keys && arenas.Keys == total.Keys - todo
        invariant forall node | node in arenas ::
                    Mappable(env, total[node], node) && arenas[node] == FreshArena(env, total[node], node)
      {
        SomeNode(todo);
        var node :| node in todo;
        if node !in env.maps {
          return false;
        }
        var fits, mapped := RoundUpChecked(total[node], env.maps[node].page);
        if !fits {
          return false;
        }
        arenas := arenas[node := Arena(env.maps[node].base, mapped, total[node], 0)];
        todo := todo - {node};
      }
      return true;
    }

    /** One turn of the last loop. Under what the plan established, the missing-arena and
        arena-overflow branches are never taken. */
    method AssignRegion(order: seq<string>, i: nat) returns (status: Status)
      requires env.sysPage > 0 && i < |order| && order[i] in regs
      requires ArenasReady(regs, env, order, i, arenas)
      modifies `arenas, `ar
      ensures status == Verdict(regs, env, order[i])
      ensures status == Success ==> ArenasReady(regs, env, order, i + 1, arenas)
      ensures status == Success ==>
                (Pooled(regs, env, order[i]) ==> regs[order[i]].affinity in env.maps) &&
                ar == if regs[order[i]].kind.Null? then old(ar)
                      else old(ar)[order[i] := PtrAt(regs, env, order, i)]
    {
      hide Sum, ArenaReady;
      var name, ptr := order[i], 0;
      var r := regs[name];
      ReadyNext(regs, env, order, i, arenas, Advanced(regs, env, name, arenas));
      if r.kind.Null? {
        return Success;
      } else if name in env.externals {
        if env.externals[name].capacity < r.ttl {
          return InvalidParameter;
        }
        if env.externals[name].data % AlignmentFor(env, r.kind) != 0 {
          return InvalidParameter;
        }
        ptr := env.externals[name].data;
      } else if !r.owned {
        return InvalidParameter;
      } else if r.kind.Huge? && env.pool {
        RoomInArena(regs, env, order, i, arenas);
        var arena := arenas[r.affinity];
        assert arena.next <= arena.used && r.ttl <= arena.used - arena.next;
        ptr := arena.base + arena.next;
        arenas := arenas[r.affinity := arena.(next := arena.next + r.ttl)];
      } else {
        if name !in env.sys {
          return NullPtr;
        }
        ptr := env.sys[name];
      }
      ar := ar[name := ptr];
      return Success;
    }

    /** Last loop: every region gets its memory, or the first failure is returned. */
    method AssignRegions(order: seq<string>) returns (status: Status)
      requires env.sysPage > 0 && Visits(order, regs)
      requires ArenasReady(regs, env, order, 0, arenas)
      modifies `arenas, `ar
      ensures status == FirstFailure(regs, env, order)
      ensures status == Success ==> ArenasReady(regs, env, order, |order|, arenas)
      ensures status == Success ==> Placed(regs, env, order, |order|, ar)
    {
      hide Verdict, PtrAt, ArenasReady;
      for i := 0 to |order|
        invariant ArenasReady(regs, env, order, i, arenas)
        invariant Placed(regs, env, order, i, ar)
        invariant FirstFailure(regs, env, order) == FirstFailure(regs, env, order[i..])
      {
        assert order[i..][0] == order[i] && order[i..][1..] == order[i + 1..];
        var one := AssignRegion(order, i);
        if one != Success {
          return one;
        }
      }
      assert order[|order|..] == [];
      return Success;
    }

    /** allocate_memory_regions, each loop visiting the regions in an order of its own. */
    method AllocateMemoryRegions(sizing: seq<string>, planning: seq<string>, assigning: seq<string>)
      returns (status: Status)
      requires env.sysPage > 0 && PagesFit(env) && arenas == map[] && InSizeT(regs)
      requires Visits(sizing, regs) && Visits(planning, regs) && Visits(assigning, regs)
      modifies this
      ensures status == Outcome(old(regs), env, assigning)
      ensures status == Success ==> SizedAll(old(regs), regs) && NodesMappable(regs, env, assigning)
      ensures status == Success ==> ArenasReady(regs, env, assigning, |assigning|, arenas)
      ensures status == Success ==> Placed(regs, env, assigning, |assigning|, ar)
    {
      hide Sum, Pooled, Mappable, FreshArena, SizeFits, Sized, FirstFailure, Placed, ArenasReady, Verdict;
      var sized := SizeRegions(sizing);
      if !sized {
        return InvalidParameter;
      }
      assert regs == SizedMap(old(regs));
      forall node: int
        ensures Sum(regs, env, planning, node) == Sum(regs, env, assigning, node)
      {
        SameVisits(planning, assigning, regs);
        SumPermutes(regs, env, planning, assigning, node);
      }
      var planned, total := PlanArenas(planning);
      if !planned {
        return InvalidParameter;
      }
      TotalsMappable(regs, env, assigning, total);
      var mapped := MapArenas(total);
      if !mapped {
        return NullPtr;
      }
      FreshReady(regs, env, assigning, total, arenas);
      status := AssignRegions(assigning);
    }
  }
}
