# Tagged hashes of the ripple crypto package, in Dafny

This project models the `hash` value of `crypto/hash.go`. A hash is a byte
string laid out as `[network][version][payload...]`. It identifies an account,
a key, a node or a seed of a given network. The model covers:

- building a hash from a payload, checked against the `hashTypes` registry bound;
- building a hash from its Base58 text, including the reserved literals `"0"` and `"1"`;
- the accessors `Network`, `Version` and `Payload`;
- `PayloadTrimmed` and `Value`;
- the Base58Check text form `ToJSON`;
- `Clone`, and deriving a family seed from a password.

Files:

- `bytes.dfy` (module `Bytes`): the byte type and the big-endian reading of a
  byte string, which is what `big.Int.SetBytes` computes.
- `externals.dfy` (module `Externals`): what the hash uses but does not define.
  This is the Base58 codec, `DoubleSha256`, `Sha512Quarter`, the `hashTypes`
  registry, the `alphabets` table, `ACCOUNT_ZERO`, `ACCOUNT_ONE` and the named
  network and version bytes. They are gathered in one record, `Env`, which
  every operation that uses them takes as a parameter. The only assumption about them is
  `DecodeInvertsEncode` (Base58Decode undoes Base58Encode under each
  network's alphabet from the `alphabets` table), and only the
  round-trip lemmas assume it. A DoubleSha256 digest has 32 bytes by its type.
- `hash.dfy` (module `Hashes`): the hash itself, as a value (`seq<byte>`).
- `clone.dfy` (module `HashBuffers`): `Clone` on arrays, with Go's `copy`.

Two behaviours of the code are worth stating up front:

- The code has no unknown-hash-type error: `newHash` reads
  `hashTypes[network][version].Payload` and compares the payload length
  against it, so the registry is a total function `(NetworkId, VersionId) -> nat`.
- The trailing four checksum bytes are dropped unchecked when text is
  decoded; `ChecksumNotVerified` states it.

## Model

| member | source | states |
|---|---|---|
| `Hashes.Payload` | crypto/hash.go:106-116 | the payload is the hash minus its two header bytes, and header plus payload rebuild the hash |
| `Hashes.TaggedLayout` | crypto/hash.go:19-22 | a hash reads as network `n`, version `v`, payload `b` exactly when its bytes are `[n, v] ++ b` |
| `Hashes.NewHash` | crypto/hash.go:80-86 | fails exactly when the payload is longer than the registry bound, with the expected and actual sizes; on success `Network`, `Version` and `Payload` give back the arguments |
| `Hashes.NewRippleAccount` | crypto/hash.go:36-38 | succeeds exactly within the Ripple account-id bound, and the result is tagged Ripple / account id / `b` |
| `Hashes.NewRipplePublicNode` | crypto/hash.go:40-42 | the same for the Ripple public-node version |
| `Hashes.NewRipplePrivateNode` | crypto/hash.go:44-46 | the same for the Ripple private-node version |
| `Hashes.NewRipplePublicAccount` | crypto/hash.go:48-50 | the same for the Ripple public-account version |
| `Hashes.NewRipplePrivateAccount` | crypto/hash.go:52-54 | the same for the Ripple private-account version |
| `Hashes.NewRippleFamilyGenerator` | crypto/hash.go:56-58 | the same for the Ripple family-generator version |
| `Hashes.NewRippleFamilySeed` | crypto/hash.go:60-62 | the same for the Ripple family-seed version |
| `Hashes.NewBitcoinAddress` | crypto/hash.go:72-74 | the same for the Bitcoin network and address version |
| `Hashes.NewLitecoinAddress` | crypto/hash.go:76-78 | the same for the Litecoin network and address version |
| `Hashes.GenerateFamilySeed` | crypto/hash.go:64-70 | a digest error is passed on unchanged; otherwise the result is a Ripple family seed whose payload is the password's SHA-512 quarter, failing exactly when that is over the bound |
| `Hashes.TrimmedOfFirstNonZero` | crypto/hash.go:118-127 | when the first non-zero payload byte is at `k`, the trimmed payload is the suffix from `k` |
| `Hashes.TrimmedOfAllZero` | crypto/hash.go:126 | an all-zero payload trims to the single byte `0`, never to nothing |
| `Hashes.PayloadTrimmed` | crypto/hash.go:118-127 | the result is a non-empty suffix of the payload, everything before it is zero, and it starts with a non-zero byte unless it is the last byte alone; it reads as the same number as `Value` |
| `Hashes.Value` | crypto/hash.go:129-131 | the payload's big-endian number, below 256 to the payload length |
| `Hashes.ValueDeterminesPayload` | crypto/hash.go:129-131 | two payloads of the same length with the same `Value` are equal |
| `Hashes.ValueExamples` | crypto/hash.go:129-131 | payload `[0x00, 0x01]` has value 1 and `[0xFF]` has value 255 |
| `Bytes.BigEndian` | crypto/hash.go:129-131 | the big-endian number of `n` bytes is below 256 to the `n` |
| `Bytes.LeadingZeroValue` | crypto/hash.go:119-131 | a leading zero byte does not change the big-endian number |
| `Bytes.ZeroPrefixValue` | crypto/hash.go:119-131 | dropping an all-zero prefix does not change the big-endian number |
| `Bytes.BigEndianInjective` | crypto/hash.go:129-131 | equal-length byte strings with equal numbers are equal |
| `Hashes.WithChecksum` | crypto/hash.go:97-102 | the checksummed body is the body followed by the first four bytes of its double SHA-256 |
| `Hashes.ToJSON` | crypto/hash.go:96-104 | when the codec round-trips, the text decodes under the network's alphabet to version, payload and checksum |
| `Hashes.ToJSONOmitsNetwork` | crypto/hash.go:96-104 | hashes differing only in network bytes that share an alphabet have the same text |
| `Hashes.NewHashFromString` | crypto/hash.go:88-94 | a decode error is passed on; a successful decoding always gives a success, and the result is the network byte followed by the decoding minus its last four bytes; a decoding shorter than four bytes is excluded, as Go panics on it |
| `Hashes.FourByteDecodingLosesVersion` | crypto/hash.go:93 | a four-byte decoding yields the one-byte hash `[network]`, with no version, where the checked constructor refuses it |
| `Hashes.NewHashFromStringChecked` | crypto/hash.go:88-94 | as `newHashFromString`, but fails with `TooShort` carrying the decoded length on a decoding under five bytes, and succeeds on every other successful decoding, so every hash it returns has both header bytes |
| `Hashes.CheckedAgreesWhenLongEnough` | crypto/hash.go:88-94 | on decodings of five bytes or more the checked and as-written constructors agree |
| `Hashes.ChecksumNotVerified` | crypto/hash.go:88-94 | whatever four bytes end the decoding, the hash is the same: the checksum is never compared |
| `Hashes.NewRippleHash` | crypto/hash.go:24-34 | `"0"` and `"1"` give what decoding `ACCOUNT_ZERO` and `ACCOUNT_ONE` gives; any other text is decoded itself under the Ripple network |
| `Hashes.TextRoundTrip` | crypto/hash.go:88-104 | if Base58Decode inverts Base58Encode under each network's alphabet, decoding `ToJSON(h)` under `h`'s network rebuilds `h` exactly, through either constructor |
| `Hashes.NewHashTextRoundTrip` | crypto/hash.go:80-104 | a hash built from a payload comes back from its text with that same payload, network and version |
| `Hashes.RippleTextRoundTrip` | crypto/hash.go:24-104 | `NewRippleHash` of a Ripple hash's text rebuilds the hash, unless the text is one of the two reserved literals |
| `HashBuffers.Copy` | crypto/hash.go:139 | copies `min(len(dst), len(src))` bytes, returns that count and leaves the rest of `dst` unchanged |
| `HashBuffers.Clone` | crypto/hash.go:137-141 | the clone is a freshly allocated buffer with the same length and bytes |
| `HashBuffers.WriteToClone` | crypto/hash.go:137-141 | writing a byte into the clone leaves the original buffer unchanged |

## Findings

| source | as written | input that shows it | evidently intended | confidence | as-written member | corrected member |
|---|---|---|---|---|---|---|
| crypto/hash.go:93 | drops the last four bytes of the decoding with `decoded[:len(decoded)-4]` and never checks the length | under the Ripple alphabet, whose zero symbol is `r`, the text `"rrrr"` decodes to four zero bytes; the result is the one-byte hash `[RIPPLE]`, and its `Version()` indexes past the end. The texts `""` and `"r"` decode to fewer than four bytes, so the slice itself panics | refuse with an error any decoding shorter than five bytes (a version byte plus the checksum) | medium, not executed; relies on the decoder giving one zero byte per leading zero symbol | `Hashes.FourByteDecodingLosesVersion` (on `Hashes.NewHashFromString`) | `Hashes.NewHashFromStringChecked` |

`Hashes.NewRippleHash` is built on the checked constructor.

## Left out

- `Network` and `Version` are plain reads of the first two bytes. Their meaning is stated through `Payload` and `Tagged`.
- `MarshalJSON` (crypto/hash.go:133-135) is left out: the `encoding/json` quoting is not modelled.
- The `panic` in `ToJSON` when `DoubleSha256` fails is left out: the digest is a total function returning 32 bytes.
- The radix-58 arithmetic of `Base58Encode`/`Base58Decode` is not part of this model. The source of those functions is not available, so they are parameters.
- The SHA-256 and SHA-512 internals are not part of this model. The digests are deterministic functions passed in.
- The contents of `hashTypes` and `alphabets`, `ACCOUNT_ZERO`, `ACCOUNT_ONE` and the network and version byte values are not part of this model. They are fields of `Env`.
- The alphabets' integrity (58 distinct symbols each) cannot be stated without their contents.
- `Hashes.GenerateFamilySeed`: the password is taken as its bytes, which is what Go's `[]byte(password)` gives. That distinct passwords give distinct seeds "with overwhelming probability" is not modelled.
- `Hashes.PayloadTrimmed` requires a non-empty payload. Go slices `payload[len(payload)-1:]` after the loop, which panics on an empty payload, and `newHash` does accept an empty payload.
- Aliasing is not modelled. `Payload` and `PayloadTrimmed` return slices sharing the hash's storage, but the model works on values. Only `Clone` is modelled on arrays, where freshness matters.
- `Hashes.NewRippleHash` uses the checked decoder, so it refuses decodings shorter than five bytes where the code panics or builds a one-byte hash (see Findings).
- The presentation layer in `terminal/terminal.go` is not part of this model.
