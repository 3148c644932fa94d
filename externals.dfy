/** What the hash value relies on but does not define: the Base58 codec, the
    two digests, the hash-type registry, the per-network alphabets, the two
    reserved account texts and the named network and version bytes. None of
    them is defined in crypto/hash.go, so they are parameters here: an `Env`
    record, with the one property of the codec that the round trip needs
    stated as a predicate over it. */
module Externals {
  import opened Bytes

  /** Go's `HashNetwork` and `HashVersion`: each is stored in one byte of the hash. */
  type NetworkId = byte
  type VersionId = byte

  /** The ordered symbol set one network writes its Base58 text with. */
  type Alphabet = string

  /** A DoubleSha256 digest: 32 bytes. */
  type Digest = s: seq<byte> | |s| == 32 witness seq(32, _ => 0)

  /** The errors the constructors return. */
  datatype Error =
    | WrongSize(expected: nat, got: nat)   // payload longer than the registry allows
    | CodecError(reason: string)          // raised by Base58Decode, passed on unchanged
    | DigestError(reason: string)         // raised by Sha512Quarter, passed on unchanged
    | TooShort(got: nat)                  // decoded text too short to hold a version and a checksum

  datatype Result<+T> = Success(value: T) | Failure(error: Error)

  /** The named network and version bytes the wrapper constructors bind. */
  datatype Ids = Ids(
    ripple: NetworkId,
    bitcoin: NetworkId,
    litecoin: NetworkId,
    rippleAccountId: VersionId,
    rippleNodePublic: VersionId,
    rippleNodePrivate: VersionId,
    rippleAccountPublic: VersionId,
    rippleAccountPrivate: VersionId,
    rippleFamilyGenerator: VersionId,
    rippleFamilySeed: VersionId,
    bitcoinAddress: VersionId,
    litecoinAddress: VersionId)

  datatype Env = Env(
    // Base58Encode / Base58Decode with an alphabet
    base58Encode: (seq<byte>, Alphabet) -> string,
    base58Decode: (string, Alphabet) -> Result<seq<byte>>,
    // DoubleSha256 (its failure is not modelled) and Sha512Quarter
    doubleSha256: seq<byte> -> Digest,
    sha512Quarter: seq<byte> -> Result<seq<byte>>,
    // hashTypes[network][version].Payload: the largest payload allowed
    hashTypes: (NetworkId, VersionId) -> nat,
    // alphabets[network]
    alphabets: NetworkId -> Alphabet,
    // ACCOUNT_ZERO and ACCOUNT_ONE: the texts of the two reserved accounts
    accountZero: string,
    accountOne: string,
    ids: Ids)

  /** Base58Decode undoes Base58Encode under every network's alphabet. */
  ghost predicate DecodeInvertsEncode(env: Env)
  {
    forall b: seq<byte>, n: NetworkId ::
      env.base58Decode(env.base58Encode(b, env.alphabets(n)), env.alphabets(n)) == Success(b)
  }
}
