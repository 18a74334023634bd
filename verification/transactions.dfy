/** The budget transaction record and the 32-bit integer its id is held in. */
module Transactions {
  import opened Categories

  const Int32Min: int := -0x8000_0000
  const Int32Max: int := 0x7fff_ffff

  /** A C# `int`. */
  type Int32 = x: int | Int32Min <= x <= Int32Max

  /** `x + 1` in an unchecked 32-bit context: the largest value wraps to the smallest. */
  function Increment(x: Int32): (r: Int32)
    ensures x < Int32Max ==> r == x + 1 && r > x
    ensures x == Int32Max ==> r == Int32Min
    ensures (r - (x + 1)) % 0x1_0000_0000 == 0
  {
    if x == Int32Max then Int32Min else x + 1
  }

  /** A `DateTime`, compared only for equality; its tick count is all that is kept. */
  datatype Date = Date(ticks: int)

  /**
   * One recorded movement of money. The amount is a `decimal`, so it is kept
   * as an exact rational; the category ranges over the closed enumeration.
   */
  datatype Transaction = Transaction(
    id: Int32,
    amount: real,
    category: Category,
    date: Date,
    description: string)
}
