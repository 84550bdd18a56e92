/** set_bits_be: writing a bit field into a byte buffer, most significant bit first. */
module BitField {
  import opened Words

  type Octet = bv8

  datatype Field = Field(offset: nat, width: nat)

  // ---------- One bit ----------

  /** 1 << pos in a byte. */
  function Mask(pos: nat): Octet
    requires pos < 8
  {
    if pos == 0 then 0x01 else if pos == 1 then 0x02 else if pos == 2 then 0x04 else if pos == 3 then 0x08
    else if pos == 4 then 0x10 else if pos == 5 then 0x20 else if pos == 6 then 0x40 else 0x80
  }

  /** The byte update of set_bits_be. */
  function PutBit(x: Octet, pos: nat, bit: bool): Octet
    requires pos < 8
  {
    (x & !Mask(pos)) | (if bit then Mask(pos) else 0)
  }

  predicate BitOf(x: Octet, pos: nat)
    requires pos < 8
  {
    x & Mask(pos) != 0
  }

  lemma PutBitExact(x: Octet, pos: nat, bit: bool, at: nat)
    requires pos < 8 && at < 8
    ensures BitOf(PutBit(x, pos, bit), at) == if at == pos then bit else BitOf(x, at)
  {
  }

  /** Bit k of a buffer, counted from the most significant bit of its first byte. */
  predicate Bit(data: seq<Octet>, k: nat)
    requires k / 8 < |data|
  {
    BitOf(data[k / 8], 7 - k % 8)
  }

  function SetBit(data: seq<Octet>, k: nat, bit: bool): (r: seq<Octet>)
    requires k / 8 < |data|
    ensures |r| == |data|
  {
    data[k / 8 := PutBit(data[k / 8], 7 - k % 8, bit)]
  }

  lemma SetBitExact(data: seq<Octet>, k: nat, bit: bool, m: nat)
    requires k / 8 < |data| && m / 8 < |data|
    ensures Bit(SetBit(data, k, bit), m) == if m == k then bit else Bit(data, m)
  {
    hide BitOf, PutBit;
    if m / 8 == k / 8 {
      PutBitExact(data[k / 8], 7 - k % 8, bit, 7 - m % 8);
    }
  }

  // ---------- A field ----------

  /** Bit i of a field of the given width holding `value`, most significant first. */
  predicate ValueBit(value: nat, width: nat, i: nat)
    requires i < width
  {
    Shr(value, width - 1 - i) % 2 == 1
  }

  predicate Fits(f: Field, bytes: nat) {
    f.offset + f.width <= 8 * bytes
  }

  /** The buffer after the first n bits of the field have been written. */
  function SetFirst(data: seq<Octet>, f: Field, value: nat, n: nat): (r: seq<Octet>)
    requires n <= f.width && Fits(f, |data|)
    ensures |r| == |data|
  {
    if n == 0 then data else SetBit(SetFirst(data, f, value, n - 1), f.offset + n - 1, ValueBit(value, f.width, n - 1))
  }

  function SetField(data: seq<Octet>, f: Field, value: nat): (r: seq<Octet>)
    requires Fits(f, |data|)
    ensures |r| == |data|
  {
    SetFirst(data, f, value, f.width)
  }

  lemma {:induction false} SetFirstExact(data: seq<Octet>, f: Field, value: nat, n: nat, m: nat)
    requires n <= f.width && Fits(f, |data|) && m / 8 < |data|
    ensures Bit(SetFirst(data, f, value, n), m) ==
            if f.offset <= m < f.offset + n then ValueBit(value, f.width, m - f.offset) else Bit(data, m)
  {
    hide Bit, SetBit, ValueBit;
    if n > 0 {
      SetFirstExact(data, f, value, n - 1, m);
      SetBitExact(SetFirst(data, f, value, n - 1), f.offset + n - 1, ValueBit(value, f.width, n - 1), m);
    }
  }

  /** Bits of the field hold the value, most significant first; every other bit is kept. */
  lemma SetFieldExact(data: seq<Octet>, f: Field, value: nat, m: nat)
    requires Fits(f, |data|) && m / 8 < |data|
    ensures Bit(SetField(data, f, value), m) ==
            if f.offset <= m < f.offset + f.width then ValueBit(value, f.width, m - f.offset) else Bit(data, m)
  {
    SetFirstExact(data, f, value, f.width, m);
  }

  // ---------- The field as the code writes it ----------

  /** Like SetFirst, with the bit index computed in 32 bits. */
  function WrapFirst(data: seq<Octet>, f: Field, value: nat, n: nat): (r: seq<Octet>)
    requires n <= f.width && Fits(f, |data|)
    ensures |r| == |data|
  {
    if n == 0 then data
    else SetBit(WrapFirst(data, f, value, n - 1), (f.offset + n - 1) % U32, ValueBit(value, f.width, n - 1))
  }

  function SetWrapped(data: seq<Octet>, f: Field, value: nat): (r: seq<Octet>)
    requires Fits(f, |data|)
    ensures |r| == |data|
  {
    WrapFirst(data, f, value, f.width)
  }

  lemma {:induction false} WrapFirstPlain(data: seq<Octet>, f: Field, value: nat, n: nat)
    requires n <= f.width && Fits(f, |data|) && f.offset + f.width <= U32
    ensures WrapFirst(data, f, value, n) == SetFirst(data, f, value, n)
  {
    hide SetBit, ValueBit;
    if n > 0 { WrapFirstPlain(data, f, value, n - 1); }
  }

  /** A field that ends within 32-bit bit indices is written where it should be. */
  lemma WrappedIsField(data: seq<Octet>, f: Field, value: nat)
    requires Fits(f, |data|) && f.offset + f.width <= U32
    ensures SetWrapped(data, f, value) == SetField(data, f, value)
  {
    WrapFirstPlain(data, f, value, f.width);
  }

  lemma {:induction false} WrapFirstBeyond(data: seq<Octet>, f: Field, value: nat, n: nat, m: nat)
    requires n <= f.width && Fits(f, |data|) && U32 <= m && m / 8 < |data|
    ensures Bit(WrapFirst(data, f, value, n), m) == Bit(data, m)
  {
    hide Bit, SetBit, ValueBit;
    if n > 0 {
      WrapFirstBeyond(data, f, value, n - 1, m);
      SetBitExact(WrapFirst(data, f, value, n - 1), (f.offset + n - 1) % U32, ValueBit(value, f.width, n - 1), m);
    }
  }

  /** Bits past the 32-bit indices are never written. */
  lemma NeverBeyond(data: seq<Octet>, f: Field, value: nat, m: nat)
    requires Fits(f, |data|) && U32 <= m && m / 8 < |data|
    ensures Bit(SetWrapped(data, f, value), m) == Bit(data, m)
  {
    WrapFirstBeyond(data, f, value, f.width, m);
  }

  /** A prefix of the result depends only on that prefix of the buffer. */
  lemma {:induction false} WrapFirstPrefix(a: seq<Octet>, b: seq<Octet>, f: Field, value: nat, n: nat, k: nat)
    requires |a| == |b| && k <= |a| && a[..k] == b[..k] && n <= f.width && Fits(f, |a|)
    ensures WrapFirst(a, f, value, n)[..k] == WrapFirst(b, f, value, n)[..k]
  {
    hide SetBit, ValueBit;
    if n > 0 {
      WrapFirstPrefix(a, b, f, value, n - 1, k);
      SetBitPrefix(WrapFirst(a, f, value, n - 1), WrapFirst(b, f, value, n - 1), (f.offset + n - 1) % U32,
                   ValueBit(value, f.width, n - 1), k);
    }
  }

  lemma SetBitPrefix(a: seq<Octet>, b: seq<Octet>, m: nat, bit: bool, k: nat)
    requires |a| == |b| && k <= |a| && a[..k] == b[..k] && m / 8 < |a|
    ensures SetBit(a, m, bit)[..k] == SetBit(b, m, bit)[..k]
  {
    hide PutBit;
    if m / 8 < k {
      assert a[m / 8] == a[..k][m / 8] == b[..k][m / 8] == b[m / 8];
    }
  }

  lemma WrappedPrefix(a: seq<Octet>, b: seq<Octet>, f: Field, value: nat, k: nat)
    requires |a| == |b| && k <= |a| && a[..k] == b[..k] && Fits(f, |a|)
    ensures SetWrapped(a, f, value)[..k] == SetWrapped(b, f, value)[..k]
  {
    WrapFirstPrefix(a, b, f, value, f.width, k);
  }

  // ---------- Bytes are their bits ----------

  lemma OctetBits(x: Octet, y: Octet)
    requires forall pos: nat | pos < 8 :: BitOf(x, pos) == BitOf(y, pos)
    ensures x == y
  {
    assert BitOf(x, 0) == BitOf(y, 0) && BitOf(x, 1) == BitOf(y, 1);
    assert BitOf(x, 2) == BitOf(y, 2) && BitOf(x, 3) == BitOf(y, 3);
    assert BitOf(x, 4) == BitOf(y, 4) && BitOf(x, 5) == BitOf(y, 5);
    assert BitOf(x, 6) == BitOf(y, 6) && BitOf(x, 7) == BitOf(y, 7);
  }

  /** Buffers that agree on every bit from byte k on agree on those bytes. */
  lemma SameBits(a: seq<Octet>, b: seq<Octet>, k: nat)
    requires |a| == |b| && k <= |a|
    requires forall m: nat | 8 * k <= m && m / 8 < |a| :: Bit(a, m) == Bit(b, m)
    ensures a[k..] == b[k..]
  {
    forall j | k <= j < |a| ensures a[j] == b[j] {
      forall pos: nat | pos < 8 ensures BitOf(a[j], pos) == BitOf(b[j], pos) {
        var m := 8 * j + (7 - pos);
        assert m / 8 == j && 7 - m % 8 == pos;
        assert Bit(a, m) == Bit(b, m);
      }
      OctetBits(a[j], b[j]);
    }
  }

  // ---------- Reading back ----------

  /** The number held by n bits from `offset` on, most significant first. */
  function ReadBits(data: seq<Octet>, offset: nat, n: nat): nat
    requires offset + n <= 8 * |data|
  {
    if n == 0 then 0 else 2 * ReadBits(data, offset, n - 1) + (if Bit(data, offset + n - 1) then 1 else 0)
  }

  lemma {:induction false} ShrAddsBit(v: nat, j: nat)
    ensures Shr(v, j + 1) == Shr(v, j) / 2
  {
    if j > 0 { ShrAddsBit(v / 2, j - 1); }
  }

  lemma {:induction false} ReadsPrefix(data: seq<Octet>, f: Field, value: nat, n: nat)
    requires n <= f.width && Fits(f, |data|)
    requires forall i | 0 <= i < f.width :: Bit(data, f.offset + i) == ValueBit(value, f.width, i)
    ensures ReadBits(data, f.offset, n) == Shr(value, f.width - n) % Pow2(n)
  {
    hide Bit;
    if n > 0 {
      ReadsPrefix(data, f, value, n - 1);
      assert Bit(data, f.offset + (n - 1)) == ValueBit(value, f.width, n - 1);
      ShrAddsBit(value, f.width - n);
      ModDouble(Shr(value, f.width - n), Pow2(n - 1));
    }
  }

  /** A field reads back as the value it was given, modulo its width. */
  lemma FieldRoundTrip(data: seq<Octet>, f: Field, value: nat)
    requires Fits(f, |data|)
    ensures ReadBits(SetField(data, f, value), f.offset, f.width) == value % Pow2(f.width)
  {
    hide Bit, ValueBit, SetField;
    var r := SetField(data, f, value);
    forall i | 0 <= i < f.width
      ensures Bit(r, f.offset + i) == ValueBit(value, f.width, i)
    {
      SetFieldExact(data, f, value, f.offset + i);
    }
    ReadsPrefix(r, f, value, f.width);
  }

  /** And writing one field leaves what a disjoint field reads as it was. */
  lemma {:induction false} OtherFieldKept(data: seq<Octet>, f: Field, value: nat, offset: nat, n: nat)
    requires Fits(f, |data|) && offset + n <= 8 * |data|
    requires offset + n <= f.offset || f.offset + f.width <= offset
    ensures ReadBits(SetField(data, f, value), offset, n) == ReadBits(data, offset, n)
  {
    hide Bit, SetField;
    if n > 0 {
      OtherFieldKept(data, f, value, offset, n - 1);
      SetFieldExact(data, f, value, offset + n - 1);
    }
  }

  // ---------- A field inside a slice ----------

  function Shifted(f: Field, bytes: nat): Field
    requires 8 * bytes <= f.offset
  {
    Field(f.offset - 8 * bytes, f.width)
  }

  predicate Within(f: Field, lo: nat, hi: nat) {
    8 * lo <= f.offset && f.offset + f.width <= 8 * hi
  }

  lemma ByteIndex(bytes: nat, k: nat)
    ensures (8 * bytes + k) / 8 == bytes + k / 8 && (8 * bytes + k) % 8 == k % 8
  {
  }

  lemma UpdateMiddle(a: seq<Octet>, b: seq<Octet>, c: seq<Octet>, j: nat, x: Octet)
    requires j < |b|
    ensures (a + b + c)[|a| + j := x] == a + b[j := x] + c
  {
  }

  lemma SetBitMiddle(a: seq<Octet>, b: seq<Octet>, c: seq<Octet>, k: nat, bit: bool)
    requires k / 8 < |b|
    ensures (8 * |a| + k) / 8 < |a + b + c|
    ensures SetBit(a + b + c, 8 * |a| + k, bit) == a + SetBit(b, k, bit) + c
  {
    hide PutBit;
    ByteIndex(|a|, k);
    assert (a + b + c)[|a| + k / 8] == b[k / 8];
    UpdateMiddle(a, b, c, k / 8, PutBit(b[k / 8], 7 - k % 8, bit));
  }

  lemma {:induction false} SetFirstInSlice(data: seq<Octet>, f: Field, value: nat, n: nat, lo: nat, hi: nat)
    requires lo <= hi <= |data| && Within(f, lo, hi) && n <= f.width
    ensures SetFirst(data, f, value, n) ==
            data[..lo] + SetFirst(data[lo..hi], Shifted(f, lo), value, n) + data[hi..]
  {
    hide SetBit, ValueBit;
    if n == 0 {
      assert data == data[..lo] + data[lo..hi] + data[hi..];
    } else {
      SetFirstInSlice(data, f, value, n - 1, lo, hi);
      SetBitMiddle(data[..lo], SetFirst(data[lo..hi], Shifted(f, lo), value, n - 1), data[hi..],
                   f.offset - 8 * lo + n - 1, ValueBit(value, f.width, n - 1));
    }
  }

  /** Writing a field into a slice at the shifted offset is writing it into the whole buffer. */
  lemma FieldInSlice(data: seq<Octet>, f: Field, value: nat, lo: nat, hi: nat)
    requires lo <= hi <= |data| && Within(f, lo, hi)
    ensures SetField(data, f, value) ==
            data[..lo] + SetField(data[lo..hi], Shifted(f, lo), value) + data[hi..]
  {
    SetFirstInSlice(data, f, value, f.width, lo, hi);
  }

  // ---------- The code ----------

  /** set_bits_be on the n bytes of `a` that start at `at`. */
  method SetBitsBe(a: array<Octet>, at: nat, n: nat, f: Field, value: nat)
    requires at + n <= a.Length && Fits(f, n) && value < U32
    modifies a
    ensures a[..] == old(a[..at]) + SetWrapped(old(a[at..at + n]), f, value) + old(a[at + n..])
  {
    hide SetBit, Shr;
    ghost var pre, data, post := a[..at], a[at..at + n], a[at + n..];
    assert a[..] == pre + data + post;
    for i := 0 to f.width
      invariant a[..] == pre + WrapFirst(data, f, value, i) + post
    {
      var bit := Shr(value, f.width - 1 - i) % 2 == 1;
      var bitIdx := (f.offset + i) % U32;
      IndexFits(f.offset + i, n);
      PutBitAt(a, at, bitIdx, bit);
      SetBitMiddle(pre, WrapFirst(data, f, value, i), post, bitIdx, bit);
    }
  }

  lemma IndexFits(k: nat, n: nat)
    requires k < 8 * n
    ensures k % U32 / 8 < n
  {
  }

  /** The store at the end of the loop body. */
  method PutBitAt(a: array<Octet>, at: nat, k: nat, bit: bool)
    requires at + k / 8 < a.Length
    modifies a
    ensures (8 * at + k) / 8 < a.Length && a[..] == SetBit(old(a[..]), 8 * at + k, bit)
  {
    ByteIndex(at, k);
    var byteIdx, bitPos := k / 8, 7 - k % 8;
    a[at + byteIdx] := PutBit(a[at + byteIdx], bitPos, bit);
  }
}
