/** The foreign primitives of the node, as parameters: keccak and secp256k1. */
module Crypto {
  import opened Bytes

  type PubKey = k: Bytes | |k| == 65 witness seq(65, _ => 0)
  type Signature = s: Bytes | |s| == 65 witness seq(65, _ => 0)
  type PrivKey = Hash

  /** Nothing is assumed of these functions unless a `requires` says so. */
  datatype Crypto = Crypto(
    sha3: Bytes -> Hash,
    recover: (Signature, Hash) -> PubKey,
    sign: (Hash, PrivKey) -> Signature,
    toUPub: PrivKey -> PubKey)

  /** What `recover` returns when no key can be recovered. */
  const NO_KEY: PubKey := Zeros(65)

  const EC_ORDER: nat := 0xfffffffffffffffffffffffffffffffebaaedce6af48a03bbfd25e8cd0364141

  predicate VerifySig(r: nat, s: nat, v: nat) {
    v <= 1 && 0 < r < EC_ORDER && 0 < s < EC_ORDER
  }

  function MakeSig(r: U256, s: U256, v: Byte): Signature {
    Fixed(r, 32) + Fixed(s, 32) + [v]
  }

  function SigR(sig: Signature): U256 {
    FromBigEndianBound(sig[..32]);
    Pow256Values();
    FromBigEndian(sig[..32])
  }

  function SigS(sig: Signature): U256 {
    FromBigEndianBound(sig[32..64]);
    Pow256Values();
    FromBigEndian(sig[32..64])
  }

  /** Splitting a signature into r, s and v loses nothing. */
  lemma MakeSigOfParts(sig: Signature)
    ensures MakeSig(SigR(sig), SigS(sig), sig[64]) == sig
  {
    FixedOfFromBigEndian(sig[..32]);
    FixedOfFromBigEndian(sig[32..64]);
    assert sig == sig[..32] + sig[32..64] + [sig[64]];
  }

  function ToAddress(c: Crypto, key: PubKey): Address {
    c.sha3(key[1..])[12..]
  }

  /** An address is the low 160 bits of the hash of the key without its first byte. */
  lemma AddressIsLowBits(c: Crypto, key: PubKey)
    ensures var h := c.sha3(key[1..]);
            FromBigEndian(h) == FromBigEndian(h[..12]) * Pow256(20) + FromBigEndian(ToAddress(c, key))
    ensures FromBigEndian(ToAddress(c, key)) < Pow256(20)
  {
    hide FromBigEndian, Pow256;
    var h := c.sha3(key[1..]);
    assert h == h[..12] + h[12..];
    FromBigEndianConcat(h[..12], h[12..]);
    FromBigEndianBound(h[12..]);
  }

  /** A signature is r, s and v in this order: as one number, r counts most. */
  lemma SignatureIsOneNumber(r: U256, s: U256, v: Byte)
    ensures FromBigEndian(MakeSig(r, s, v)) == (r * Pow256(32) + s) * 256 + v
  {
    hide FromBigEndian, Pow256, Fixed;
    Pow256Values();
    FromBigEndianOfFixed(r, 32);
    FromBigEndianOfFixed(s, 32);
    FromBigEndianConcat(Fixed(r, 32), Fixed(s, 32));
    FromBigEndianConcat(Fixed(r, 32) + Fixed(s, 32), [v]);
    OneByte(v);
  }

  lemma OneByte(v: Byte)
    ensures FromBigEndian([v]) == v && Pow256(1) == 256
  {
    assert [v][..0] == [];
  }

  /** Signing with `key` can be undone by recovery. */
  ghost predicate SignRecovers(c: Crypto, msg: Hash, key: PrivKey) {
    c.recover(c.sign(msg, key), msg) == c.toUPub(key)
  }
}
