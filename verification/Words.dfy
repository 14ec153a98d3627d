/** 32-bit words and their arithmetic. */
module Words {
  const TWO_32: nat := 0x1_0000_0000

  /** The value of a 32-bit unsigned computation. */
  function U32(x: int): (r: nat)
    ensures r < TWO_32
    ensures 0 <= x < TWO_32 ==> r == x
  {
    x % TWO_32
  }

  /** A 32-bit word, bit `k` at index `k`. */
  type Word = w: seq<bool> | |w| == 32 witness seq(32, _ => false)
}
