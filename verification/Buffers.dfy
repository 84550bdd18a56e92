/** Bytes, and memcpy into a buffer. */
module Buffers {

  type Byte = x: int | 0 <= x < 256

  method CopyInto<T>(dst: array<T>, at: nat, src: seq<T>)
    requires at + |src| <= dst.Length
    modifies dst
    ensures dst[..] == old(dst[..at]) + src + old(dst[at + |src|..])
  {
    for i := 0 to |src|
      invariant forall k | 0 <= k < dst.Length :: dst[k] == if at <= k < at + i then src[k - at] else old(dst[k])
    {
      dst[at + i] := src[i];
    }
  }

  lemma Pieces<T>(a: seq<T>, pre: seq<T>, mid: seq<T>, post: seq<T>)
    requires a == pre + mid + post
    ensures a[..|pre|] == pre && a[|pre|..|pre| + |mid|] == mid && a[|pre| + |mid|..] == post
  {
  }
}
