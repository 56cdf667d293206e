/** Bytes, 16-bit cells and little-endian integers, shared by the wire format modules. */
module Bytes {

  type Byte = x: int | 0 <= x < 256

  /** One element of a type's byte code: the source's `uint16_t`. */
  type Cell = x: int | 0 <= x < 0x10000

  datatype Option<+T> = None | Some(value: T)

  datatype Result<+T, +E> = Ok(value: T) | Err(error: E)

  /** `flip_bytes(uint16_t)`: swaps the two bytes of a cell. */
  function Flip(c: Cell): Cell {
    (c % 256) * 256 + c / 256
  }

  function Pow256(width: nat): (p: nat)
    ensures p > 0
  {
    if width == 0 then 1 else 256 * Pow256(width - 1)
  }

  /** The `width` lowest bytes of n, least significant byte first. */
  function LittleEndian(n: nat, width: nat): (b: seq<Byte>)
    ensures |b| == width
  {
    if width == 0 then [] else [n % 256] + LittleEndian(n / 256, width - 1)
  }

  function FromLittleEndian(b: seq<Byte>): (n: nat)
    ensures n < Pow256(|b|)
  {
    if b == [] then 0 else b[0] + 256 * FromLittleEndian(b[1..])
  }

  /** Writing an integer that fits and reading it back gives the integer. */
  lemma {:induction false} ReadBackInteger(n: nat, width: nat)
    requires n < Pow256(width)
    ensures FromLittleEndian(LittleEndian(n, width)) == n
  {
    if width > 0 {
      assert n / 256 < Pow256(width - 1);
      ReadBackInteger(n / 256, width - 1);
    }
  }

  /** Reading bytes as an integer and writing it back gives the bytes. */
  lemma {:induction false} WriteBackInteger(b: seq<Byte>)
    ensures LittleEndian(FromLittleEndian(b), |b|) == b
  {
    if b != [] {
      WriteBackInteger(b[1..]);
      var n := FromLittleEndian(b);
      assert n % 256 == b[0] && n / 256 == FromLittleEndian(b[1..]);
    }
  }
}
