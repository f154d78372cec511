/** Byte memories.  A cache line is 64 bytes; `uint64_t` loads and stores move 8 of them. */
module Memory {

  type byte = x: int | 0 <= x < 256

  type Line = s: seq<byte> | |s| == 64 ghost witness seq(64, _ => 0)

  /** Memory after writing `data` at `off`. */
  function Store(mem: seq<byte>, off: nat, data: seq<byte>): (r: seq<byte>)
    requires off + |data| <= |mem|
    ensures |r| == |mem|
  {
    mem[..off] + data + mem[off + |data|..]
  }

  /** The 64-byte line with the given index. */
  function LineAt(mem: seq<byte>, index: nat): (r: Line)
    requires 64 * index + 64 <= |mem|
  {
    mem[64 * index..64 * index + 64]
  }
}
