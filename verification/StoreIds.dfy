/** The id of a store is the hash of its metadata fields, one after the other. */
module StoreIds {
  import opened Common

  type StoreId = nat

  type Bytes32 = b: seq<Byte> | |b| == 32 witness seq(32, _ => 0)

  type U64 = n: nat | n < 0x1_0000_0000_0000_0000

  /** The Merkle root is a digest, read as a number. */
  datatype Metadata = Metadata(nonce: Bytes32, protocolVersion: Byte, storeType: Bytes32, initialStateSize: U64,
                               merkleRoot: nat)

  /** Big-endian bytes. */
  function BigEndian(n: nat, width: nat): (bs: seq<Byte>)
    ensures |bs| == width
  {
    if width == 0 then [] else BigEndian(n / 256, width - 1) + [n % 256]
  }

  function Pow256(k: nat): nat {
    if k == 0 then 1 else 256 * Pow256(k - 1)
  }

  lemma {:induction false} BigEndianInjective(n: nat, n': nat, width: nat)
    requires n < Pow256(width) && n' < Pow256(width) && BigEndian(n, width) == BigEndian(n', width)
    ensures n == n'
  {
    if width > 0 {
      var bs, bs' := BigEndian(n, width), BigEndian(n', width);
      assert bs[..width - 1] == BigEndian(n / 256, width - 1) && bs'[..width - 1] == BigEndian(n' / 256, width - 1);
      assert bs[width - 1] == n % 256 && bs'[width - 1] == n' % 256;
      BigEndianInjective(n / 256, n' / 256, width - 1);
    }
  }

  /** The bytes of a digest. Digests have no bound here, so they take as many as they need. */
  function DigestBytes(n: nat): seq<Byte> {
    if n == 0 then [] else DigestBytes(n / 256) + [n % 256]
  }

  lemma {:induction false} DigestBytesInjective(n: nat, n': nat)
    requires DigestBytes(n) == DigestBytes(n')
    ensures n == n'
  {
    if n > 0 && n' > 0 {
      var bs, bs' := DigestBytes(n), DigestBytes(n');
      var k := |bs| - 1;
      assert bs[..k] == DigestBytes(n / 256) && bs'[..k] == DigestBytes(n' / 256);
      assert bs[k] == n % 256 && bs'[k] == n' % 256;
      DigestBytesInjective(n / 256, n' / 256);
    }
  }

  /** What is fed to the hash. */
  function HashInput(m: Metadata): seq<Byte> {
    m.nonce + [m.protocolVersion] + m.storeType + BigEndian(m.initialStateSize, 8) + DigestBytes(m.merkleRoot)
  }

  /** All fields but the last have a fixed width, so different metadata never give the hash the same input. */
  lemma HashInputInjective(m: Metadata, m': Metadata)
    requires HashInput(m) == HashInput(m')
    ensures m == m'
  {
    var s, s' := HashInput(m), HashInput(m');
    assert s[..32] == m.nonce && s'[..32] == m'.nonce;
    assert s[32] == m.protocolVersion && s'[32] == m'.protocolVersion;
    assert s[33..65] == m.storeType && s'[33..65] == m'.storeType;
    assert s[65..73] == BigEndian(m.initialStateSize, 8) && s'[65..73] == BigEndian(m'.initialStateSize, 8);
    assert s[73..] == DigestBytes(m.merkleRoot) && s'[73..] == DigestBytes(m'.merkleRoot);
    assert Pow256(8) == 0x1_0000_0000_0000_0000;
    BigEndianInjective(m.initialStateSize, m'.initialStateSize, 8);
    DigestBytesInjective(m.merkleRoot, m'.merkleRoot);
  }

  /** The number that bytes stand for, the most significant byte first. */
  function FromBigEndian(bs: seq<Byte>): nat {
    if bs == [] then 0 else 256 * FromBigEndian(bs[..|bs| - 1]) + bs[|bs| - 1]
  }

  lemma {:induction false} BigEndianValue(n: nat, width: nat)
    requires n < Pow256(width)
    ensures FromBigEndian(BigEndian(n, width)) == n
  {
    if width > 0 {
      BigEndianValue(n / 256, width - 1);
      assert BigEndian(n, width)[..width - 1] == BigEndian(n / 256, width - 1);
    }
  }

  lemma {:induction false} DigestValue(n: nat)
    ensures FromBigEndian(DigestBytes(n)) == n
  {
    if n > 0 {
      DigestValue(n / 256);
      assert DigestBytes(n)[..|DigestBytes(n)| - 1] == DigestBytes(n / 256);
    }
  }

  /** Where the fields stand: the nonce, the protocol version, the store type, the size and the Merkle root. */
  lemma HashInputLayout(m: Metadata)
    ensures var s := HashInput(m);
      && |s| >= 73 && s[..32] == m.nonce && s[32] == m.protocolVersion && s[33..65] == m.storeType
      && FromBigEndian(s[65..73]) == m.initialStateSize
      && FromBigEndian(s[73..]) == m.merkleRoot
  {
    var s := HashInput(m);
    assert Pow256(8) == 0x1_0000_0000_0000_0000;
    assert s[65..73] == BigEndian(m.initialStateSize, 8) && s[73..] == DigestBytes(m.merkleRoot);
    BigEndianValue(m.initialStateSize, 8);
    DigestValue(m.merkleRoot);
  }

  function StoreIdOf(hash: seq<Byte> -> StoreId, m: Metadata): StoreId {
    hash(HashInput(m))
  }

  ghost predicate HashCollisionFree(hash: seq<Byte> -> StoreId) {
    forall a, b :: hash(a) == hash(b) ==> a == b
  }

  /** Under a collision-free hash, metadata validates against a store id exactly if it is the metadata of that id. */
  lemma ValidatesIff(hash: seq<Byte> -> StoreId, m: Metadata, m': Metadata)
    requires HashCollisionFree(hash)
    ensures StoreIdOf(hash, m) == StoreIdOf(hash, m') <==> m == m'
  {
    if StoreIdOf(hash, m) == StoreIdOf(hash, m') { HashInputInjective(m, m'); }
  }
}
