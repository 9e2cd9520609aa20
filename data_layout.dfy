/** `storageStride(of:)` of the data layout wrapper (the same body in both the
    `LLVM` and the `SwiftyLLVM` trees): the storage size of a type rounded up
    to a multiple of its ABI alignment, computed as
    `(size + align - 1) / align * align` on Swift's 64-bit `Int`. */
module DataLayouts {
  import opened Wrappers

  /** The largest value of Swift's `Int`. */
  const IntMax: int := 0x7FFF_FFFF_FFFF_FFFF

  /** The largest value of `UInt32`, the type of the backend's alignment. */
  const UInt32Max: int := 0xFFFF_FFFF

  /** The stride for a storage size `size` and an ABI alignment `align`, both
      as the backend reports them.  The alignment is asserted to be positive
      (in a build without assertions a zero alignment still traps, at the
      division).  `None` is the overflow trap of `size + align`, the first
      of the two checked operations `(size + align) - 1`. */
  function StorageStride(size: nat, align: nat): (r: Option<nat>)
    requires size <= IntMax && 0 < align <= UInt32Max
    ensures r.None? <==> size + align > IntMax
    ensures r.Some? ==> r.value % align == 0
    ensures r.Some? ==> size <= r.value < size + align
    ensures r.Some? ==> forall m: int | size <= m && m % align == 0 :: r.value <= m
  {
    if size + align > IntMax then None
    else
      var stride := (size + align - 1) / align * align;
      RoundUpBounds(size, align);
      Some(stride)
  }

  /** Rounding up to a multiple: the result is at least `size`, within one
      alignment of it, and no multiple of `align` lies in between. */
  lemma RoundUpBounds(size: nat, align: nat)
    requires 0 < align
    ensures var s := (size + align - 1) / align * align;
      s % align == 0 && size <= s < size + align &&
      forall m: int | size <= m && m % align == 0 :: s <= m
  {
    var q := (size + align - 1) / align;
    var k := (size + align - 1) % align;
    var s := q * align;
    assert size + align - 1 == s + k && 0 <= k < align;
    assert s % align == 0 by {
      MultipleModulo(q, align);
    }
    assert (q - 1) * align == s - align;
    forall m: int | size <= m && m % align == 0
      ensures s <= m
    {
      var p := m / align;
      assert m == p * align;
      if p < q {
        MonotoneProduct(p, q - 1, align);
      }
    }
  }

  lemma MultipleModulo(q: int, align: nat)
    requires 0 < align
    ensures (q * align) % align == 0
  {
    var x := q * align;
    var d, r := x / align, x % align;
    assert x == d * align + r;
    assert r == (q - d) * align;
    if q - d >= 1 {
      MonotoneProduct(1, q - d, align);
    } else if q - d <= -1 {
      MonotoneProduct(q - d, -1, align);
    }
  }

  lemma MonotoneProduct(a: int, b: int, c: nat)
    requires a <= b
    ensures a * c <= b * c
  {
  }

  /** A size that is already a multiple of the alignment is its own
      stride. */
  lemma StrideOfAlignedSize(size: nat, align: nat)
    requires size <= IntMax && 0 < align <= UInt32Max
    requires size + align <= IntMax
    requires size % align == 0
    ensures StorageStride(size, align) == Some(size)
  {
  }

  /** The largest storage size traps even with alignment 1, where the
      rounded-up result would fit: the sum overflows before the
      subtraction. */
  lemma StrideOfLargestSize()
    ensures StorageStride(IntMax, 1) == None
  {
  }

  /** A 32-bit integer, stored in 4 bytes with 4-byte alignment, has stride
      4. */
  lemma StrideOfI32()
    ensures StorageStride(4, 4) == Some(4)
  {
  }
}
