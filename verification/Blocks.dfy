/** The initial state of a store as bytes cut into blocks. */
module Blocks {
  import opened Common

  /** 16 KiB. */
  const BLOCK_SIZE: nat := 16384

  type Bytes = seq<Byte>

  /** Division that rounds up. */
  function BlockCount(size: nat): nat {
    (size + BLOCK_SIZE - 1) / BLOCK_SIZE
  }

  function Block(bytes: Bytes, i: nat): Bytes
    requires i < BlockCount(|bytes|)
  {
    bytes[i * BLOCK_SIZE..Min((i + 1) * BLOCK_SIZE, |bytes|)]
  }

  /** The blocks in order; all are full except perhaps the last. */
  function Chunks(bytes: Bytes): seq<Bytes> {
    seq(BlockCount(|bytes|), i requires 0 <= i < BlockCount(|bytes|) => Block(bytes, i))
  }

  /** There are just enough blocks, all but the last of them are full, and the last is not empty. */
  lemma ChunkSizes(bytes: Bytes, i: nat)
    requires i < |Chunks(bytes)|
    ensures (|Chunks(bytes)| - 1) * BLOCK_SIZE < |bytes| <= |Chunks(bytes)| * BLOCK_SIZE
    ensures if i < |Chunks(bytes)| - 1 then |Chunks(bytes)[i]| == BLOCK_SIZE
            else |Chunks(bytes)[i]| == |bytes| - i * BLOCK_SIZE > 0
  {
    assert i * BLOCK_SIZE < |bytes|;
  }

  function Concat(blocks: seq<Bytes>): Bytes {
    if blocks == [] then [] else Concat(blocks[..|blocks| - 1]) + blocks[|blocks| - 1]
  }

  lemma {:induction false} ConcatPrefix(bytes: Bytes, n: nat)
    requires n <= BlockCount(|bytes|)
    ensures Concat(Chunks(bytes)[..n]) == bytes[..Min(n * BLOCK_SIZE, |bytes|)]
  {
    if n > 0 {
      ConcatPrefix(bytes, n - 1);
      var cs := Chunks(bytes)[..n];
      assert cs[..n - 1] == Chunks(bytes)[..n - 1];
      assert cs[n - 1] == Block(bytes, n - 1);
    }
  }

  /** Putting the blocks together again gives back the bytes. */
  lemma ConcatChunks(bytes: Bytes)
    ensures Concat(Chunks(bytes)) == bytes
  {
    var n := BlockCount(|bytes|);
    ConcatPrefix(bytes, n);
    assert Chunks(bytes)[..n] == Chunks(bytes);
    assert bytes[..Min(n * BLOCK_SIZE, |bytes|)] == bytes;
  }
}
