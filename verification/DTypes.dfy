/** Numeric types sized in bits (core/dtypes.py). */
module DTypes {
  import opened Arithmetic

  datatype DType = FP32 | FP16 | BF16 | FP8_E4M3 | FP8_E5M2 | INT8 | FP4 | NVFP4 | INT4 {
    function Bits(): nat {
      match this
      case FP32 => 32
      case FP16 | BF16 => 16
      case FP8_E4M3 | FP8_E5M2 | INT8 => 8
      case FP4 | NVFP4 | INT4 => 4
    }

    predicate IsFloat8() { FP8_E4M3? || FP8_E5M2? }

    predicate IsSubByte() { Bits() < 8 }
  }

  /** Whole bytes holding `count` elements; a partial byte still occupies a byte. */
  function BytesFor(count: nat, dtype: DType): (b: nat)
    ensures 8 * b - 8 < count * dtype.Bits() <= 8 * b
  {
    CeilDiv(count * dtype.Bits(), 8)
  }

  lemma BytesForMonotone(count: nat, count': nat, dtype: DType)
    requires count <= count'
    ensures BytesFor(count, dtype) <= BytesFor(count', dtype)
  {
    MulMonotone(count, count', dtype.Bits(), dtype.Bits());
  }

  /** Rounding up is per call, so splitting a tensor into `n` pieces is free only for whole-byte types. */
  lemma BytesForScales(count: nat, n: nat, dtype: DType)
    requires !dtype.IsSubByte()
    ensures BytesFor(count * n, dtype) == BytesFor(count, dtype) * n
  {
    var w := dtype.Bits() / 8;
    assert dtype.Bits() == 8 * w;
    assert count * dtype.Bits() == 8 * (count * w);
    assert (count * n) * dtype.Bits() == 8 * (count * w * n);
  }

  /** A four-bit type packs two elements a byte. */
  lemma BytesForSubByte(count: nat, dtype: DType)
    requires dtype.IsSubByte()
    ensures BytesFor(count, dtype) == (count + 1) / 2
  {}

  /** Storing `n` copies together costs as much as storing them apart, unless halves are rounded up. */
  lemma GroupingExact(count: nat, n: nat, dtype: DType)
    requires n >= 1
    ensures BytesFor(count * n, dtype) == BytesFor(count, dtype) * n
            <==> !dtype.IsSubByte() || count % 2 == 0 || n == 1
  {
    if dtype.IsSubByte() {
      var h := count / 2;
      BytesForSubByte(count * n, dtype);
      BytesForSubByte(count, dtype);
      Distribute(2 * h, count % 2, n);
      Distribute(h, count % 2, n);
      Reassociate(2, h, n);
    } else {
      BytesForScales(count, n, dtype);
    }
  }

  lemma Reassociate(a: int, b: int, c: int)
    ensures a * b * c == a * (b * c)
  {}
}
