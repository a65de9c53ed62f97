/** Fixed-width words of the debug hardware, and the two readings of a line whose text
    departs from what the repository's documentation says it is for. */
module Words {
  type Nibble = x: int | 0 <= x < 0x10
  type Byte = x: int | 0 <= x < 0x100
  type Word = x: int | 0 <= x < 0x1_0000
  type Address = x: int | 0 <= x < 0x100_0000

  /** `AsWritten` follows the source text; `Intended` follows the documented meaning of
      the few lines where the two differ. */
  datatype Design = AsWritten | Intended

  function Bit(b: bool): Word {
    if b then 1 else 0
  }

  /** The 16-bit word stored low byte first. */
  function Join(lo: Byte, hi: Byte): Word {
    var l: int, h: int := lo, hi;
    l + 0x100 * h
  }

  /** The bytes of a 16-bit word, low byte first. */
  function Bytes16(w: Word): (b: seq<Byte>)
    ensures |b| == 2
  {
    [w % 0x100, w / 0x100]
  }

  /** Bitwise disjunction of two non-negative numbers. */
  function Or(x: nat, y: nat): nat
    decreases x + y
  {
    if x == 0 then y
    else if y == 0 then x
    else 2 * Or(x / 2, y / 2) + (if x % 2 == 1 || y % 2 == 1 then 1 else 0)
  }
}
