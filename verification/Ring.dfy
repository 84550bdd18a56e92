/** The ring object as one caller sees it when no other call is in progress: the uint32_t
    cursors and the slot array implement a bounded FIFO queue, from any cursor values. */
module Ring {
  import opened Words
  import opened RingSystem
  import opened RingProof

  /** The len entries that start at cursor `base`. */
  function Window<T>(slots: seq<T>, base: nat, len: nat): (q: seq<T>)
    requires |slots| > 0
  {
    seq(len, j requires 0 <= j => slots[Place(base, j, |slots|)])
  }

  /** Writing the slot after a window that does not fill the ring appends to the window. */
  lemma WindowWrite<T>(slots: seq<T>, base: nat, len: nat, v: T)
    requires len < |slots|
    ensures Window(slots[Place(base, len, |slots|) := v], base, len + 1) == Window(slots, base, len) + [v]
  {
    var p := Place(base, len, |slots|);
    forall j | 0 <= j < len ensures Place(base, j, |slots|) != p {
      SlotsDiffer(base + j, base + len, |slots|);
    }
  }

  /** `(head + i) & mask_` is the slot of the i-th position after the unwrapped cursor. */
  lemma PlaceOf(c: Config, mask: nat, base: nat, len: nat, i: nat)
    requires c.Valid() && mask == c.Mask()
    ensures And(((base + len) % U32 + i) % U32, mask) == Place(base, len + i, c.Size())
  {
    SlotOf(c, base + len, i);
  }

  /** Moving the start of a window drops its first entries, wrapped cursor or not. */
  lemma WindowAdvance<T>(c: Config, slots: seq<T>, base: nat, n: nat, len: nat)
    requires c.Valid() && |slots| == c.Size() && n <= len
    ensures Window(slots, (base + n) % U32, len - n) == Window(slots, base, len)[n..]
  {
    hide Pow2;
    forall j | 0 <= j < len - n
      ensures Window(slots, (base + n) % U32, len - n)[j] == Window(slots, base, len)[n..][j]
    {
      ShiftPosition(base, n, j, c.logSize);
    }
  }

  lemma WindowNext<T>(slots: seq<T>, base: nat, n: nat)
    requires |slots| > 0
    ensures Window(slots, base, n + 1) == Window(slots, base, n) + [slots[Place(base, n, |slots|)]]
  {
  }

  lemma WindowPrefix<T>(slots: seq<T>, base: nat, n: nat, len: nat)
    requires |slots| > 0 && n <= len
    ensures Window(slots, base, n) == Window(slots, base, len)[..n]
  {
  }

  class Ring<T(0)> {
    var prodHead: nat
    var prodTail: nat
    var consHead: nat
    var consTail: nat
    const size: nat
    const mask: nat
    const single: bool
    const slots: array<T>
    ghost const cfg: Config

    /** Quiescent: every reservation has been published. The cursors may be anywhere in uint32_t. */
    ghost predicate Valid()
      reads this
    {
      && cfg.Valid() && size == cfg.Size() && mask == cfg.Mask() && slots.Length == size
      && prodHead == prodTail < U32 && consHead == consTail < U32
      && Length() <= mask
    }

    ghost function Length(): nat
      reads this
    {
      (prodTail - consTail) % U32
    }

    /** The queue, oldest entry first. */
    ghost function Contents(): (q: seq<T>)
      requires Valid()
      reads this, slots
      ensures |q| == Length()
    {
      Window(slots[..], consTail, Length())
    }

    /** Ring::create. Requests above 2^31 make round_up_pow2 wrap to 0 (see Words.RoundUpPow2Exact). */
    constructor (count: nat, mode: bool)
      requires count <= 0x8000_0000
      ensures Valid() && fresh(slots) && Contents() == [] && single == mode
      ensures mask == RoundUpPow2(count) - 1 && count <= mask + 1
    {
      hide RoundUpPow2, Pow2;
      var rounded := RoundUpPow2(count);
      ghost var k := RoundUpPow2Exact(count);
      size, mask, single := rounded, rounded - 1, mode;
      cfg := Config(k, mode);
      prodHead, prodTail, consHead, consTail := 0, 0, 0, 0;
      slots := new T[rounded];
    }

    /** move_prod_head. The weak compare-exchange fails spuriously `misses` times first. */
    method MoveProdHead(n: nat, misses: nat) returns (oldHead: nat, next: nat)
      requires Valid() && 0 < n < U32
      modifies `prodHead
      ensures oldHead == old(prodHead)
      ensures n <= mask - Length() <==> next != oldHead
      ensures next != oldHead ==> next == (oldHead + n) % U32 && prodHead == next
      ensures next == oldHead ==> prodHead == old(prodHead)
    {
      var head := prodHead;
      var left := misses;
      SizeBound(cfg);
      RoomWhenQuiet(mask, prodHead, consTail);
      while true
        invariant head == prodHead == old(prodHead)
        decreases left
      {
        var cons := consTail;
        var free := (mask + cons - head) % U32;
        if n > free {
          return head, head;
        }
        next := (head + n) % U32;
        if single || left == 0 {
          prodHead := next;
          break;
        }
        head, left := prodHead, left - 1;
      }
      oldHead := head;
    }

    /** move_cons_head. */
    method MoveConsHead(n: nat, misses: nat) returns (oldHead: nat, next: nat)
      requires Valid() && 0 < n < U32
      modifies `consHead
      ensures oldHead == old(consHead)
      ensures n <= Length() <==> next != oldHead
      ensures next != oldHead ==> next == (oldHead + n) % U32 && consHead == next
      ensures next == oldHead ==> consHead == old(consHead)
    {
      var head := consHead;
      var left := misses;
      SizeBound(cfg);
      while true
        invariant head == consHead == old(consHead)
        decreases left
      {
        var prod := prodTail;
        var entries := (prod - head) % U32;
        if n > entries {
          return head, head;
        }
        next := (head + n) % U32;
        if single || left == 0 {
          consHead := next;
          break;
        }
        head, left := consHead, left - 1;
      }
      oldHead := head;
    }

    ghost predicate Shaped() {
      cfg.Valid() && size == cfg.Size() && mask == cfg.Mask() && slots.Length == size > 0
    }

    /** The copy loop of enqueue_bulk. */
    method CopyIn(head: nat, objs: seq<T>, ghost base: nat, ghost len: nat)
      requires Shaped() && head == (base + len) % U32 && len + |objs| <= size
      modifies slots
      ensures Window(slots[..], base, len + |objs|) == old(Window(slots[..], base, len)) + objs
    {
      hide And, Pow2, Place;
      for i := 0 to |objs|
        invariant Window(slots[..], base, len + i) == old(Window(slots[..], base, len)) + objs[..i]
      {
        PlaceOf(cfg, mask, base, len, i);
        WindowWrite(slots[..], base, len + i, objs[i]);
        var p := And((head + i) % U32, mask);
        slots[p] := objs[i];
      }
    }

    /** The copy loop of dequeue_bulk. */
    method CopyOut(head: nat, n: nat) returns (objs: seq<T>)
      requires Shaped() && head < U32
      ensures objs == Window(slots[..], head, n)
    {
      hide And, Pow2, Place;
      objs := [];
      for i := 0 to n
        invariant objs == Window(slots[..], head, i)
      {
        PlaceOf(cfg, mask, head, 0, i);
        WindowNext(slots[..], head, i);
        var p := And((head + i) % U32, mask);
        objs := objs + [slots[p]];
      }
    }

    /** enqueue_bulk: all or nothing, and nothing exactly when the objects do not fit. */
    method EnqueueBulk(objs: seq<T>, misses: nat) returns (moved: nat)
      requires Valid() && |objs| < U32
      modifies this, slots
      ensures Valid()
      ensures if |objs| <= mask - |old(Contents())|
              then moved == |objs| && Contents() == old(Contents()) + objs
              else moved == 0 && Contents() == old(Contents())
    {
      hide And, Pow2, Place, Window;
      var n := |objs|;
      if n == 0 {
        return 0;
      }
      ghost var len := Length();
      SizeBound(cfg);
      var head, next := MoveProdHead(n, misses);
      if next == head {
        return 0;
      }
      HeadPosition(consTail, prodTail);
      CopyIn(head, objs, consTail, len);
      prodTail := next;
      LengthAfter(consTail, len, n);
      moved := n;
    }

    /** dequeue_bulk: all or nothing, oldest entries first. */
    method DequeueBulk(n: nat, misses: nat) returns (moved: nat, objs: seq<T>)
      requires Valid() && n < U32
      modifies this
      ensures Valid()
      ensures if n <= |old(Contents())|
              then moved == n && objs == old(Contents())[..n] && Contents() == old(Contents())[n..]
              else moved == 0 && objs == [] && Contents() == old(Contents())
    {
      hide And, Pow2, Place;
      if n == 0 {
        return 0, [];
      }
      ghost var len := Length();
      SizeBound(cfg);
      var head, next := MoveConsHead(n, misses);
      if next == head {
        return 0, [];
      }
      objs := CopyOut(head, n);
      LengthBefore(head, prodTail, n);
      WindowAdvance(cfg, slots[..], head, n, len);
      WindowPrefix(slots[..], head, n, len);
      consTail := next;
      moved := n;
    }

    method Enqueue(obj: T, misses: nat) returns (ok: bool)
      requires Valid()
      modifies this, slots
      ensures Valid()
      ensures ok <==> |old(Contents())| < mask
      ensures Contents() == if ok then old(Contents()) + [obj] else old(Contents())
    {
      var moved := EnqueueBulk([obj], misses);
      ok := moved == 1;
    }

    method Dequeue(misses: nat) returns (ok: bool, objs: seq<T>)
      requires Valid()
      modifies this
      ensures Valid()
      ensures ok <==> old(Contents()) != []
      ensures ok ==> objs == [old(Contents())[0]] && Contents() == old(Contents())[1..]
      ensures !ok ==> Contents() == old(Contents())
    {
      var moved;
      moved, objs := DequeueBulk(1, misses);
      ok := moved == 1;
    }

    /** count: exact while the ring is quiescent. */
    method Count() returns (n: nat)
      requires Valid()
      ensures n == |Contents()|
    {
      var prod, cons := prodTail, consTail;
      n := And((prod - cons) % U32, mask);
      AndMask(Length(), cfg.logSize);
      DivModUnique(Length(), size, 0, Length());
    }

    function Capacity(): (n: nat)
      reads this
      requires Valid()
      ensures n == size - 1
    {
      mask
    }
  }

  // ---------- Cursor arithmetic ----------

  lemma RoomWhenQuiet(mask: nat, head: nat, cons: nat)
    requires head < U32 && cons < U32 && (head - cons) % U32 <= mask < U32
    ensures (mask + cons - head) % U32 == mask - (head - cons) % U32
  {
  }

  lemma HeadPosition(cons: nat, prod: nat)
    requires cons < U32 && prod < U32
    ensures prod == (cons + (prod - cons) % U32) % U32
  {
  }

  lemma LengthAfter(cons: nat, len: nat, n: nat)
    requires cons < U32 && len + n < U32
    ensures (((cons + len) % U32 + n) % U32 - cons) % U32 == len + n
  {
  }

  lemma LengthBefore(head: nat, prod: nat, n: nat)
    requires head < U32 && prod < U32 && n <= (prod - head) % U32
    ensures (prod - (head + n) % U32) % U32 == (prod - head) % U32 - n
  {
  }

  lemma ShiftPosition(head: nat, n: nat, j: nat, k: nat)
    requires k <= 32
    ensures ((head + n) % U32 + j) % Pow2(k) == (head + (n + j)) % Pow2(k)
  {
    WrapKeepsSlot((head + n) % U32 + j, k);
    WrapKeepsSlot(head + n + j, k);
    WrapAdd(head + n, j);
  }
}
