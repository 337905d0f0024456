/** The signing and hashing construction over abstract Ed25519 and SHA-256. */
module Crypto {
  import opened Base
  import opened Cbor
  import opened Schema

  // SHA-256 and Ed25519 are parameters; secret keys, public keys and signatures are byte strings.
  datatype Suite = Suite(
    hash: Bytes -> Bytes,
    sign: (Bytes, Bytes) -> Bytes,
    publicKey: Bytes -> Bytes,
    verify: (Bytes, Bytes, Bytes) -> bool)

  // All that is assumed of them: lengths, and that an honest signature verifies.
  ghost predicate Sound(c: Suite) {
    && (forall m: Bytes :: |c.hash(m)| == 32)
    && (forall sk: Bytes :: |c.publicKey(sk)| == 32)
    && (forall sk: Bytes, m: Bytes :: |c.sign(sk, m)| == 64)
    && (forall sk: Bytes, m: Bytes :: c.verify(c.publicKey(sk), m, c.sign(sk, m)))
  }

  // A suite whose keys are told apart by the length of the secret, and where a signature names its key.
  function NamingSuite(): Suite {
    Suite(m => BigEndian(|m|, 32),
          (sk, m) => NamedKey(sk) + NamedKey(sk),
          sk => NamedKey(sk),
          (pk, m, sig) => sig == pk + pk)
  }

  function NamedKey(sk: Bytes): Bytes {
    BigEndian(|sk|, 32)
  }

  // So the assumptions can be met together.
  lemma {:induction false} NamingSound()
    ensures Sound(NamingSuite())
  {
    hide BigEndian;
  }

  // No two different messages among ms collide, and none hashes to the genesis value.
  ghost predicate CollisionFree(c: Suite, ms: set<Bytes>) {
    && (forall m, n :: m in ms && n in ms && c.hash(m) == c.hash(n) ==> m == n)
    && (forall m :: m in ms ==> c.hash(m) != GENESIS_PREV)
  }

  const DOMAIN_DAC: Bytes := Ascii("zil-provenance/v1/dac") + [0]
  const GENESIS_PREV: Bytes := BigEndian(0, 32)  // 32 zero bytes
  const SIGNATURE_LEN: nat := 64

  // The exact bytes that are signed.
  function SigningBytes(struct: Value): Option<Bytes> {
    Append(Some(DOMAIN_DAC), Encode(struct))
  }

  // The bytes under the record hash: the signed bytes, then the encoded signature set.
  function RecordMessage(struct: Value, sigs: Value): Option<Bytes> {
    Append(SigningBytes(struct), Encode(sigs))
  }
}
