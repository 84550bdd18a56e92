/** The object pool as an object: a slab of equal blocks and a free-list ring. */
module ObjectPool {
  import opened Words
  import Ring

  const CACHELINE: nat := 64

  /** (elt_size + 63) & ~63 in a 64-bit size_t. */
  function Stride(eltSize: nat): nat {
    var up := (eltSize + (CACHELINE - 1)) % U64;
    if And(up, CACHELINE - 1) <= up then up - And(up, CACHELINE - 1) else 0
  }

  lemma StrideValue(eltSize: nat)
    ensures Stride(eltSize) == (eltSize + 63) % U64 / 64 * 64
  {
    var up := (eltSize + 63) % U64;
    AndMask(up, 6);
    assert Pow2(6) == 64;
  }

  function BlockAddr(base: nat, stride: nat, i: nat): nat {
    base + i * stride
  }

  function BlockList(base: nat, stride: nat, n: nat): seq<nat> {
    seq(n, i requires 0 <= i => BlockAddr(base, stride, i))
  }

  /** The stride separates blocks exactly when the element size is not 0 and not within 64
      bytes of overflowing; then it is a multiple of 64 that covers one element. */
  lemma StrideSeparates(eltSize: nat)
    requires eltSize < U64
    ensures Stride(eltSize) > 0 <==> 0 < eltSize <= U64 - 64
    ensures Stride(eltSize) > 0 ==>
              eltSize <= Stride(eltSize) < eltSize + 64 && Stride(eltSize) % 64 == 0
  {
    StrideValue(eltSize);
  }

  lemma NextMultiple(i: nat, stride: nat)
    ensures (i + 1) * stride == i * stride + stride
  {
  }

  /** Different blocks do not overlap, and all lie in the slab of n * stride bytes. */
  lemma BlocksDisjoint(base: nat, stride: nat, eltSize: nat, n: nat, i: nat, j: nat)
    requires i < j < n && eltSize <= stride
    ensures BlockAddr(base, stride, i) + eltSize <= BlockAddr(base, stride, j)
    ensures base <= BlockAddr(base, stride, i) && BlockAddr(base, stride, j) + eltSize <= base + n * stride
  {
    MulOrder(i, j, stride);
    MulOrder(j, n, stride);
  }

  /** The slab request n * stride is computed in size_t: the last block fits the slab that was
      asked for exactly when that product does not wrap. */
  lemma SlabHoldsBlocks(base: nat, stride: nat, n: nat)
    requires n > 0 && stride > 0
    ensures BlockAddr(base, stride, n - 1) + stride <= base + (n * stride) % U64 <==> n * stride < U64
  {
    NextMultiple(n - 1, stride);
  }

  class ObjectPool {
    const base: nat
    const n: nat
    const stride: nat
    const free: Ring.Ring<nat>
    ghost var held: multiset<nat>

    /** What is free and what is held together are exactly the blocks. */
    ghost predicate Valid()
      reads this, free, free.slots
    {
      && free.Valid() && n <= free.mask
      && multiset(free.Contents()) + held == multiset(BlockList(base, stride, n))
    }

    /** ObjectPool::create on a slab at address `slab`. The free list never overflows while it
        is being populated. */
    constructor (count: nat, eltSize: nat, slab: nat, misses: nat)
      requires count < 0x8000_0000
      ensures Valid() && fresh(free) && fresh(free.slots)
      ensures base == slab && n == count && stride == Stride(eltSize)
      ensures held == multiset{} && free.Contents() == BlockList(slab, Stride(eltSize), count)
    {
      hide Stride, RoundUpPow2, BlockList;
      var list := new Ring.Ring<nat>(count + 1, false);
      var step := Stride(eltSize);
      Populate(list, slab, step, count, misses);
      base, n, stride, free, held := slab, count, step, list, multiset{};
    }

    /** The loop of create that puts every block on the free list. */
    static method Populate(list: Ring.Ring<nat>, slab: nat, step: nat, count: nat, misses: nat)
      requires list.Valid() && list.Contents() == [] && count <= list.mask
      modifies list, list.slots
      ensures list.Valid() && list.Contents() == BlockList(slab, step, count)
    {
      hide BlockAddr, Ring.Window, Ring.Ring.Contents;
      for i := 0 to count
        invariant list.Valid() && list.Contents() == BlockList(slab, step, i)
      {
        var ok := list.Enqueue(BlockAddr(slab, step, i), misses);
        assert ok;
        assert BlockList(slab, step, i + 1) == BlockList(slab, step, i) + [BlockAddr(slab, step, i)];
      }
    }

    /** get: the oldest free block moves to the caller; false exactly when none is free. */
    method Get(misses: nat) returns (ok: bool, obj: nat)
      requires Valid()
      modifies this, free
      ensures Valid()
      ensures ok <==> old(free.Contents()) != []
      ensures ok ==> obj == old(free.Contents())[0] && obj in multiset(BlockList(base, stride, n))
      ensures ok ==> held == old(held) + multiset{obj} && free.Contents() == old(free.Contents())[1..]
      ensures !ok ==> held == old(held) && free.Contents() == old(free.Contents())
    {
      ghost var q := free.Contents();
      var objs;
      ok, objs := free.Dequeue(misses);
      obj := 0;
      if ok {
        obj := objs[0];
        assert q == [q[0]] + q[1..];
        held := held + multiset{obj};
      }
    }

    /** put of a held block: there is always room. */
    method Put(obj: nat, misses: nat)
      requires Valid() && obj in held
      modifies this, free, free.slots
      ensures Valid()
      ensures held == old(held) - multiset{obj} && free.Contents() == old(free.Contents()) + [obj]
    {
      FreePlusHeld();
      var ok := free.Enqueue(obj, misses);
      assert ok;
      held := held - multiset{obj};
    }

    lemma FreePlusHeld()
      requires Valid()
      ensures |free.Contents()| + |held| == n
    {
      assert |multiset(free.Contents()) + held| == |multiset(free.Contents())| + |held|;
    }

    method AvailCount() returns (k: nat)
      requires Valid()
      ensures k == |free.Contents()|
    {
      k := free.Count();
    }

    method InUseCount() returns (k: nat)
      requires Valid()
      ensures k == |held|
    {
      FreePlusHeld();
      var avail := free.Count();
      k := n - avail;
    }
  }
}
