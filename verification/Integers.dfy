/** The fixed-width numbers of the source. */
module Integers {
  /** The C++ `int` of the target platforms. */
  type Int32 = n: int | -0x8000_0000 <= n < 0x8000_0000
  type Int64 = n: int | -0x8000_0000_0000_0000 <= n < 0x8000_0000_0000_0000
  type UInt64 = n: int | 0 <= n < 0x1_0000_0000_0000_0000

  /** `static_cast<int>` of a container size. */
  function AsInt32(n: nat): Int32 {
    var low := n % 0x1_0000_0000;
    if low < 0x8000_0000 then low else low - 0x1_0000_0000
  }

  /** Conversion to `float`, in which scores and confidences are kept. */
  type Rounding = real -> real

  /** The cast keeps the value modulo 2^32, hence every size below 2^31. */
  lemma AsInt32Wraps(n: nat)
    ensures (n - AsInt32(n)) % 0x1_0000_0000 == 0
    ensures n < 0x8000_0000 ==> AsInt32(n) == n
  {
  }
}
