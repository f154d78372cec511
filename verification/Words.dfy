/** Byte buffers as sequences of little-endian 64-bit words. */
module Words {
  import opened Bits
  import opened Memory

  function Pow256(n: nat): (p: nat)
    ensures p > 0
  {
    if n == 0 then 1 else 256 * Pow256(n - 1)
  }

  function JoinBytes(b: seq<byte>): nat {
    if b == [] then 0 else b[0] + 256 * JoinBytes(b[1..])
  }

  function SplitWord(x: nat, n: nat): (b: seq<byte>)
    ensures |b| == n
  {
    if n == 0 then [] else [x % 256] + SplitWord(x / 256, n - 1)
  }

  lemma {:induction false} JoinOfSplit(x: nat, n: nat)
    requires x < Pow256(n)
    ensures JoinBytes(SplitWord(x, n)) == x
  {
    if n > 0 {
      JoinOfSplit(x / 256, n - 1);
      assert SplitWord(x, n)[1..] == SplitWord(x / 256, n - 1);
    }
  }

  lemma {:induction false} SplitOfJoin(b: seq<byte>)
    ensures JoinBytes(b) < Pow256(|b|)
    ensures SplitWord(JoinBytes(b), |b|) == b
  {
    if b != [] {
      SplitOfJoin(b[1..]);
      assert JoinBytes(b) % 256 == b[0] && JoinBytes(b) / 256 == JoinBytes(b[1..]);
      assert b == [b[0]] + b[1..];
    }
  }

  lemma SplitCons(q: nat, b: byte, n: nat)
    ensures SplitWord(256 * q + b, n + 1) == [b] + SplitWord(q, n)
  {
    hide SplitWord;
    ByteAndRest(q, b);
    UnfoldSplit(256 * q + b, n);
  }

  lemma ByteAndRest(q: nat, b: byte)
    ensures (256 * q + b) / 256 == q && (256 * q + b) % 256 == b
  {
  }

  lemma UnfoldSplit(x: nat, n: nat)
    ensures SplitWord(x, n + 1) == [x % 256] + SplitWord(x / 256, n)
  {
  }

  lemma WordRange()
    ensures Pow256(8) == TWO64
  {
    assert Pow256(4) == TWO32;
  }

  /** Word j of a buffer. */
  function WordAt(bs: seq<byte>, j: nat): uint64
    requires 8 * j + 8 <= |bs|
  {
    SplitOfJoin(bs[8 * j..8 * j + 8]);
    WordRange();
    JoinBytes(bs[8 * j..8 * j + 8])
  }

  /** Words are little-endian. */
  lemma WordIsLittleEndian(bs: seq<byte>, j: nat)
    requires 8 * j + 8 <= |bs|
    ensures var b: seq<nat> := bs[8 * j..8 * j + 8];
      WordAt(bs, j)
      == b[0] + 0x100 * b[1] + 0x1_0000 * b[2] + 0x100_0000 * b[3] + 0x1_0000_0000 * b[4]
         + 0x100_0000_0000 * b[5] + 0x1_0000_0000_0000 * b[6] + 0x100_0000_0000_0000 * b[7]
  {
    var b := bs[8 * j..8 * j + 8];
    JoinFour(b);
    JoinFour(b[4..]);
    assert b[4..][4..] == [];
  }

  lemma JoinFour(b: seq<byte>)
    requires |b| >= 4
    ensures var n: seq<nat> := b;
      JoinBytes(b) == n[0] + 0x100 * n[1] + 0x1_0000 * n[2] + 0x100_0000 * n[3] + 0x1_0000_0000 * JoinBytes(b[4..])
  {
    assert b[1..][1..] == b[2..] && b[2..][1..] == b[3..] && b[3..][1..] == b[4..];
    assert JoinBytes(b[1..]) == b[1] + 256 * JoinBytes(b[2..]);
    assert JoinBytes(b[2..]) == b[2] + 256 * JoinBytes(b[3..]);
    assert JoinBytes(b[3..]) == b[3] + 256 * JoinBytes(b[4..]);
  }

  function WordsOf(bs: seq<byte>): (ws: seq<uint64>)
    ensures |ws| == |bs| / 8
  {
    seq(|bs| / 8, j requires 0 <= j < |bs| / 8 => WordAt(bs, j))
  }

  /** A stored word reads back. */
  lemma WordOfStored(bs: seq<byte>, j: nat, x: uint64)
    requires 8 * j + 8 <= |bs| && bs[8 * j..8 * j + 8] == SplitWord(x, 8)
    ensures WordAt(bs, j) == x
  {
    WordRange();
    JoinOfSplit(x, 8);
  }
}
