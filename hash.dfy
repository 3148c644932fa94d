/** The tagged hash of crypto/hash.go: a byte string laid out as
    `[network][version][payload...]`, its constructors, accessors, numeric
    reading and Base58Check text form. */
module Hashes {
  import opened Bytes
  import opened Externals

  /** Go's `type hash []byte`. */
  type Hash = seq<byte>

  // ---------------------------------------------------------------------
  // Accessors

  function Network(h: Hash): (n: NetworkId)
    requires |h| >= 1
  {
    h[0]
  }

  function Version(h: Hash): (v: VersionId)
    requires |h| >= 2
  {
    h[1]
  }

  /** Everything after the two header bytes. */
  function Payload(h: Hash): (p: seq<byte>)
    requires |h| >= 2
    ensures |p| == |h| - 2
    ensures h == [Network(h), Version(h)] + p
  {
    h[2..]
  }

  /** `h` carries network `n`, version `v` and payload `b`. */
  predicate Tagged(h: Hash, n: NetworkId, v: VersionId, b: seq<byte>)
  {
    |h| >= 2 && Network(h) == n && Version(h) == v && Payload(h) == b
  }

  /** Being tagged with `(n, v, b)` is exactly having the bytes `[n, v] ++ b`. */
  lemma TaggedLayout(h: Hash, n: NetworkId, v: VersionId, b: seq<byte>)
    ensures Tagged(h, n, v, b) <==> h == [n, v] + b
  {
  }

  // ---------------------------------------------------------------------
  // Construction from a payload

  /** Tags payload `b` with `network` and `version`, refusing a payload longer
      than the registry's bound for that pair. */
  function NewHash(env: Env, b: seq<byte>, network: NetworkId, version: VersionId): (r: Result<Hash>)
    ensures r.Success? <==> |b| <= env.hashTypes(network, version)
    ensures r.Success? ==> Tagged(r.value, network, version, b)
    ensures r.Failure? ==> r.error == WrongSize(env.hashTypes(network, version), |b|)
  {
    var n := env.hashTypes(network, version);
    if |b| > n then Failure(WrongSize(n, |b|)) else Success([network, version] + b)
  }

  function NewRippleAccount(env: Env, b: seq<byte>): (r: Result<Hash>)
    ensures r.Success? <==> |b| <= env.hashTypes(env.ids.ripple, env.ids.rippleAccountId)
    ensures r.Success? ==> Tagged(r.value, env.ids.ripple, env.ids.rippleAccountId, b)
  {
    NewHash(env, b, env.ids.ripple, env.ids.rippleAccountId)
  }

  function NewRipplePublicNode(env: Env, b: seq<byte>): (r: Result<Hash>)
    ensures r.Success? <==> |b| <= env.hashTypes(env.ids.ripple, env.ids.rippleNodePublic)
    ensures r.Success? ==> Tagged(r.value, env.ids.ripple, env.ids.rippleNodePublic, b)
  {
    NewHash(env, b, env.ids.ripple, env.ids.rippleNodePublic)
  }

  function NewRipplePrivateNode(env: Env, b: seq<byte>): (r: Result<Hash>)
    ensures r.Success? <==> |b| <= env.hashTypes(env.ids.ripple, env.ids.rippleNodePrivate)
    ensures r.Success? ==> Tagged(r.value, env.ids.ripple, env.ids.rippleNodePrivate, b)
  {
    NewHash(env, b, env.ids.ripple, env.ids.rippleNodePrivate)
  }

  function NewRipplePublicAccount(env: Env, b: seq<byte>): (r: Result<Hash>)
    ensures r.Success? <==> |b| <= env.hashTypes(env.ids.ripple, env.ids.rippleAccountPublic)
    ensures r.Success? ==> Tagged(r.value, env.ids.ripple, env.ids.rippleAccountPublic, b)
  {
    NewHash(env, b, env.ids.ripple, env.ids.rippleAccountPublic)
  }

  function NewRipplePrivateAccount(env: Env, b: seq<byte>): (r: Result<Hash>)
    ensures r.Success? <==> |b| <= env.hashTypes(env.ids.ripple, env.ids.rippleAccountPrivate)
    ensures r.Success? ==> Tagged(r.value, env.ids.ripple, env.ids.rippleAccountPrivate, b)
  {
    NewHash(env, b, env.ids.ripple, env.ids.rippleAccountPrivate)
  }

  function NewRippleFamilyGenerator(env: Env, b: seq<byte>): (r: Result<Hash>)
    ensures r.Success? <==> |b| <= env.hashTypes(env.ids.ripple, env.ids.rippleFamilyGenerator)
    ensures r.Success? ==> Tagged(r.value, env.ids.ripple, env.ids.rippleFamilyGenerator, b)
  {
    NewHash(env, b, env.ids.ripple, env.ids.rippleFamilyGenerator)
  }

  function NewRippleFamilySeed(env: Env, b: seq<byte>): (r: Result<Hash>)
    ensures r.Success? <==> |b| <= env.hashTypes(env.ids.ripple, env.ids.rippleFamilySeed)
    ensures r.Success? ==> Tagged(r.value, env.ids.ripple, env.ids.rippleFamilySeed, b)
  {
    NewHash(env, b, env.ids.ripple, env.ids.rippleFamilySeed)
  }

  function NewBitcoinAddress(env: Env, b: seq<byte>): (r: Result<Hash>)
    ensures r.Success? <==> |b| <= env.hashTypes(env.ids.bitcoin, env.ids.bitcoinAddress)
    ensures r.Success? ==> Tagged(r.value, env.ids.bitcoin, env.ids.bitcoinAddress, b)
  {
    NewHash(env, b, env.ids.bitcoin, env.ids.bitcoinAddress)
  }

  function NewLitecoinAddress(env: Env, b: seq<byte>): (r: Result<Hash>)
    ensures r.Success? <==> |b| <= env.hashTypes(env.ids.litecoin, env.ids.litecoinAddress)
    ensures r.Success? ==> Tagged(r.value, env.ids.litecoin, env.ids.litecoinAddress, b)
  {
    NewHash(env, b, env.ids.litecoin, env.ids.litecoinAddress)
  }

  /** A family seed derived from a password: its payload is the first quarter
      of the password's SHA-512 digest. The same password always gives the
      same result, since every collaborator here is a function. */
  function GenerateFamilySeed(env: Env, password: seq<byte>): (r: Result<Hash>)
    ensures env.sha512Quarter(password).Failure? ==> r == Failure(env.sha512Quarter(password).error)
    ensures env.sha512Quarter(password).Success? ==>
      (r.Success? <==> |env.sha512Quarter(password).value| <= env.hashTypes(env.ids.ripple, env.ids.rippleFamilySeed))
    ensures r.Success? ==>
      env.sha512Quarter(password).Success? &&
      Tagged(r.value, env.ids.ripple, env.ids.rippleFamilySeed, env.sha512Quarter(password).value)
  {
    match env.sha512Quarter(password)
    case Failure(e) => Failure(e)
    case Success(seed) => NewRippleFamilySeed(env, seed)
  }

  // ---------------------------------------------------------------------
  // Reading the payload

  /** `r` is the payload `p` with its leading zero bytes dropped, keeping the
      last byte when every byte is zero. */
  ghost predicate TrimmedOf(p: seq<byte>, r: seq<byte>)
  {
    1 <= |r| <= |p| && r == p[|p| - |r|..] &&
    (forall j :: 0 <= j < |p| - |r| ==> p[j] == 0) &&
    (r[0] != 0 || |r| == 1)
  }

  /** When the first non-zero byte is at `k`, the trimmed payload starts there. */
  lemma TrimmedOfFirstNonZero(p: seq<byte>, r: seq<byte>, k: nat)
    requires k < |p| && p[k] != 0 && forall j :: 0 <= j < k ==> p[j] == 0
    requires TrimmedOf(p, r)
    ensures r == p[k..]
  {
  }

  /** An all-zero payload trims to its single last byte, a zero. */
  lemma TrimmedOfAllZero(p: seq<byte>, r: seq<byte>)
    requires forall j :: 0 <= j < |p| ==> p[j] == 0
    requires TrimmedOf(p, r)
    ensures r == [0]
  {
  }

  /** The payload without its leading zero bytes, never empty. Go slices the
      last byte off the payload after the loop, so the payload must not be
      empty. The result reads as the same number as the whole payload. */
  method PayloadTrimmed(h: Hash) returns (r: seq<byte>)
    requires |h| >= 3
    ensures TrimmedOf(Payload(h), r)
    ensures BigEndian(r) == Value(h)
  {
    var payload := Payload(h);
    var i := 0;
    while i < |payload|
      invariant 0 <= i <= |payload|
      invariant forall j :: 0 <= j < i ==> payload[j] == 0
    {
      if payload[i] != 0 {
        ZeroPrefixValue(payload, i);
        return payload[i..];
      }
      i := i + 1;
    }
    ZeroPrefixValue(payload, |payload| - 1);
    return payload[|payload| - 1..];
  }

  /** The payload read as an unsigned big-endian number. */
  function Value(h: Hash): (v: nat)
    requires |h| >= 2
    ensures v < Pow256(|Payload(h)|)
  {
    BigEndian(Payload(h))
  }

  /** Two payloads of one length with the same value are the same payload. */
  lemma ValueDeterminesPayload(h1: Hash, h2: Hash)
    requires |h1| == |h2| >= 2 && Value(h1) == Value(h2)
    ensures Payload(h1) == Payload(h2)
  {
    BigEndianInjective(Payload(h1), Payload(h2));
  }

  lemma ValueExamples(n: NetworkId, v: VersionId)
    ensures Value([n, v, 0, 1]) == 1
    ensures Value([n, v, 255]) == 255
  {
    assert Payload([n, v, 0, 1]) == [0, 1];
    assert [0, 1][..1] == [0] && [0][..0] == [];
    assert Payload([n, v, 255]) == [255];
    assert [255][..0] == [];
  }

  // ---------------------------------------------------------------------
  // Text form

  /** The Base58Check body: `body` followed by the first four bytes of its
      double SHA-256 digest. */
  function WithChecksum(env: Env, body: seq<byte>): (r: seq<byte>)
    ensures |r| == |body| + 4 && r[..|body|] == body
    ensures r[|body|..] == env.doubleSha256(body)[..4]
  {
    body + env.doubleSha256(body)[..4]
  }

  /** The text form: version, payload and checksum in the network's Base58
      alphabet. The network byte itself is not written. */
  function ToJSON(env: Env, h: Hash): (s: string)
    requires |h| >= 2
    ensures DecodeInvertsEncode(env) ==>
      env.base58Decode(s, env.alphabets(Network(h))) == Success(WithChecksum(env, [Version(h)] + Payload(h)))
  {
    env.base58Encode(WithChecksum(env, [Version(h)] + Payload(h)), env.alphabets(Network(h)))
  }

  /** The text depends on the network only through its alphabet. */
  lemma ToJSONOmitsNetwork(env: Env, h1: Hash, h2: Hash)
    requires |h1| >= 2 && |h2| >= 2 && h1[1..] == h2[1..]
    requires env.alphabets(Network(h1)) == env.alphabets(Network(h2))
    ensures ToJSON(env, h1) == ToJSON(env, h2)
  {
    assert [Version(h1)] + Payload(h1) == h1[1..];
    assert [Version(h2)] + Payload(h2) == h2[1..];
  }

  // ---------------------------------------------------------------------
  // Construction from text

  /** Whether the text decodes (if at all) to at least `k` bytes. */
  predicate DecodesToAtLeast(env: Env, s: string, network: NetworkId, k: nat)
  {
    match env.base58Decode(s, env.alphabets(network))
    case Failure(_) => true
    case Success(d) => |d| >= k
  }

  /** newHashFromString as written: decode, drop the last four (checksum)
      bytes unchecked, prefix the network byte. Go's slice expression panics
      on a decoding shorter than four bytes, hence the precondition; a
      decoding of exactly four bytes yields a one-byte hash. */
  function NewHashFromString(env: Env, s: string, network: NetworkId): (r: Result<Hash>)
    requires DecodesToAtLeast(env, s, network, 4)
    ensures env.base58Decode(s, env.alphabets(network)).Failure? ==>
      r == Failure(env.base58Decode(s, env.alphabets(network)).error)
    ensures r.Success? ==>
      var d := env.base58Decode(s, env.alphabets(network)).value;
      |r.value| == |d| - 3 && Network(r.value) == network && r.value[1..] == d[..|d| - 4]
    ensures env.base58Decode(s, env.alphabets(network)).Success? ==> r.Success?
  {
    match env.base58Decode(s, env.alphabets(network))
    case Failure(e) => Failure(e)
    case Success(decoded) => Success([network] + decoded[..|decoded| - 4])
  }

  /** A decoding of exactly four bytes: the as-written constructor returns a
      hash holding only the network byte, with no version to read; the
      checked constructor refuses it. */
  lemma FourByteDecodingLosesVersion(env: Env, s: string, network: NetworkId)
    requires env.base58Decode(s, env.alphabets(network)).Success?
    requires |env.base58Decode(s, env.alphabets(network)).value| == 4
    ensures NewHashFromString(env, s, network) == Success([network])
    ensures NewHashFromStringChecked(env, s, network) == Failure(TooShort(4))
  {
    var d := env.base58Decode(s, env.alphabets(network)).value;
    assert [network] + d[..0] == [network];
  }

  /** newHashFromString with the length check it lacks: a decoding must hold
      a version byte and the four checksum bytes, so that every hash it
      returns has its header. */
  function NewHashFromStringChecked(env: Env, s: string, network: NetworkId): (r: Result<Hash>)
    ensures env.base58Decode(s, env.alphabets(network)).Failure? ==>
      r == Failure(env.base58Decode(s, env.alphabets(network)).error)
    ensures r.Success? <==>
      env.base58Decode(s, env.alphabets(network)).Success? &&
      |env.base58Decode(s, env.alphabets(network)).value| >= 5
    ensures var dr := env.base58Decode(s, env.alphabets(network));
      dr.Success? && |dr.value| < 5 ==> r == Failure(TooShort(|dr.value|))
    ensures r.Success? ==>
      var d := env.base58Decode(s, env.alphabets(network)).value;
      |r.value| >= 2 && Network(r.value) == network && r.value[1..] == d[..|d| - 4]
  {
    match env.base58Decode(s, env.alphabets(network))
    case Failure(e) => Failure(e)
    case Success(decoded) =>
      if |decoded| < 5 then Failure(TooShort(|decoded|))
      else Success([network] + decoded[..|decoded| - 4])
  }

  /** Wherever the decoding is long enough, the checked constructor agrees
      with the as-written one. */
  lemma CheckedAgreesWhenLongEnough(env: Env, s: string, network: NetworkId)
    requires DecodesToAtLeast(env, s, network, 5)
    ensures NewHashFromStringChecked(env, s, network) == NewHashFromString(env, s, network)
  {
  }

  /** The trailing four bytes are never compared with a digest: any four
      bytes in their place give the same hash. */
  lemma ChecksumNotVerified(env: Env, s: string, network: NetworkId, body: seq<byte>, check: seq<byte>)
    requires |check| == 4
    requires env.base58Decode(s, env.alphabets(network)) == Success(body + check)
    ensures NewHashFromString(env, s, network) == Success([network] + body)
  {
  }

  /** NewRippleHash: the literals "0" and "1" stand for the reserved accounts
      ACCOUNT_ZERO and ACCOUNT_ONE; any other text is decoded itself, under the
      Ripple network. */
  function NewRippleHash(env: Env, s: string): (r: Result<Hash>)
    ensures s == "0" ==> r == NewHashFromStringChecked(env, env.accountZero, env.ids.ripple)
    ensures s == "1" ==> r == NewHashFromStringChecked(env, env.accountOne, env.ids.ripple)
    ensures s != "0" && s != "1" ==> r == NewHashFromStringChecked(env, s, env.ids.ripple)
  {
    if s == "0" then NewHashFromStringChecked(env, env.accountZero, env.ids.ripple)
    else if s == "1" then NewHashFromStringChecked(env, env.accountOne, env.ids.ripple)
    else NewHashFromStringChecked(env, s, env.ids.ripple)
  }

  // ---------------------------------------------------------------------
  // Round trips

  /** Decoding a hash's text under its own network rebuilds the hash exactly. */
  lemma {:induction false} TextRoundTrip(env: Env, h: Hash)
    requires DecodeInvertsEncode(env) && |h| >= 2
    ensures DecodesToAtLeast(env, ToJSON(env, h), Network(h), 5)
    ensures NewHashFromString(env, ToJSON(env, h), Network(h)) == Success(h)
    ensures NewHashFromStringChecked(env, ToJSON(env, h), Network(h)) == Success(h)
  {
    var body := [Version(h)] + Payload(h);
    var d := WithChecksum(env, body);
    assert env.base58Decode(ToJSON(env, h), env.alphabets(Network(h))) == Success(d);
    assert d[..|d| - 4] == body;
    assert [Network(h)] + body == h;
  }

  /** A hash built from a payload gives that payload back after a trip
      through its text form. */
  lemma NewHashTextRoundTrip(env: Env, b: seq<byte>, network: NetworkId, version: VersionId)
    requires DecodeInvertsEncode(env) && |b| <= env.hashTypes(network, version)
    ensures var h := NewHash(env, b, network, version).value;
      NewHashFromString(env, ToJSON(env, h), network) == Success(h) &&
      Tagged(h, network, version, b)
  {
    var h := NewHash(env, b, network, version).value;
    TextRoundTrip(env, h);
  }

  /** The same trip through NewRippleHash, for any Ripple hash whose text is
      not one of the two reserved literals. */
  lemma RippleTextRoundTrip(env: Env, h: Hash)
    requires DecodeInvertsEncode(env) && |h| >= 2 && Network(h) == env.ids.ripple
    requires ToJSON(env, h) != "0" && ToJSON(env, h) != "1"
    ensures NewRippleHash(env, ToJSON(env, h)) == Success(h)
  {
    TextRoundTrip(env, h);
  }
}
