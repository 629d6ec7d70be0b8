/** Device identities and their public bundles (core/identity.py:73-377).  Text fields are held
    as the UTF-8 bytes the source encodes them to. */
module Identity {
  import opened Bytes
  import opened Primitives
  import opened Wrappers

  const ID_WIDTH: nat := 36
  const CALLSIGN_WIDTH: nat := 32
  const MLKEM_PK_LEN: nat := 1184
  const MLKEM_SK_LEN: nat := 2400
  /** Where the public key lies in an ML-KEM-768 decapsulation key (section 6.1 of FIPS 203). */
  const MLKEM_PK_OFFSET: nat := 1152

  datatype Rank = COMMAND | OFFICER | NCO | SQUAD

  function Code(r: Rank): byte {
    match r
    case COMMAND => 1
    case OFFICER => 2
    case NCO => 3
    case SQUAD => 4
  }

  function OfCode(b: byte): Option<Rank> {
    match b
    case 1 => Some(COMMAND)
    case 2 => Some(OFFICER)
    case 3 => Some(NCO)
    case 4 => Some(SQUAD)
    case _ => None
  }

  // ---------------------------------------------------------------- text

  predicate Ascii(b: Bytes) {
    forall i :: 0 <= i < |b| ==> b[i] < 128
  }

  predicate Continues(b: Bytes, i: nat) {
    i < |b| && 0x80 <= b[i] <= 0xBF
  }

  /** The length of the well-formed character b starts with, or 0 (section 4 of RFC 3629). */
  function CharLen(b: Bytes): (n: nat)
    requires b != []
    ensures n <= |b|
  {
    var lead := b[0];
    if lead < 0x80 then 1
    else if 0xC2 <= lead <= 0xDF && Continues(b, 1) then 2
    else if 0xE0 <= lead <= 0xEF && Continues(b, 1) && Continues(b, 2)
            && (lead == 0xE0 ==> b[1] >= 0xA0) && (lead == 0xED ==> b[1] <= 0x9F) then 3
    else if 0xF0 <= lead <= 0xF4 && Continues(b, 1) && Continues(b, 2) && Continues(b, 3)
            && (lead == 0xF0 ==> b[1] >= 0x90) && (lead == 0xF4 ==> b[1] <= 0x8F) then 4
    else 0
  }

  predicate Utf8(b: Bytes) {
    b == [] || (CharLen(b) > 0 && Utf8(b[CharLen(b)..]))
  }

  lemma {:induction false} AsciiIsUtf8(b: Bytes)
    requires Ascii(b)
    ensures Utf8(b)
  {
    if b != [] {
      AsciiIsUtf8(b[1..]);
    }
  }

  /** A text field of width w keeps the text. */
  predicate Fits(b: Bytes, w: nat) {
    |b| <= w && (b == [] || b[|b| - 1] != 0)
  }

  // ---------------------------------------------------------------- public bundles

  datatype PublicBundle = PublicBundle(
    deviceId: Bytes, callsign: Bytes, rank: Rank, verifyKey: Bytes, encryptPub: Bytes, kemPub: Bytes, sig: Bytes)

  /** What the source's types give: text is text, and keys have the length their classes check. */
  predicate WellTyped(b: PublicBundle) {
    && Utf8(b.deviceId) && Utf8(b.callsign)
    && |b.verifyKey| == 32 && |b.encryptPub| == 32 && |b.kemPub| == MLKEM_PK_LEN
  }

  /** The bytes a bundle signature covers. */
  function Canonical(b: PublicBundle): Bytes {
    Padded(b.deviceId, ID_WIDTH) + Padded(b.callsign, CALLSIGN_WIDTH) + [Code(b.rank)]
    + b.verifyKey + b.encryptPub + b.kemPub
  }

  predicate Verified(c: Crypto, b: PublicBundle) {
    c.verify(b.verifyKey, Canonical(b), b.sig)
  }

  /** What fixed-width fields leave of a bundle: text cut to its width, without trailing NULs. */
  function Trimmed(b: PublicBundle): PublicBundle {
    b.(deviceId := Stripped(Padded(b.deviceId, ID_WIDTH)), callsign := Stripped(Padded(b.callsign, CALLSIGN_WIDTH)))
  }

  lemma TrimmedIsSame(b: PublicBundle)
    ensures Trimmed(b) == b <==> Fits(b.deviceId, ID_WIDTH) && Fits(b.callsign, CALLSIGN_WIDTH)
  {
    StripsBack(b.deviceId, ID_WIDTH);
    StripsBack(b.callsign, CALLSIGN_WIDTH);
  }

  /** A full-width field survives stripping and padding again. */
  lemma PadsBack(f: Bytes)
    ensures Padded(Stripped(f), |f|) == f
  {
    var s := Stripped(f);
    assert forall i :: 0 <= i < |s| ==> f[i] == s[i];
  }

  lemma FieldsAgree(a: Bytes, b: Bytes, w: nat)
    ensures Padded(a, w) == Padded(b, w) <==> Stripped(Padded(a, w)) == Stripped(Padded(b, w))
  {
    PadsBack(Padded(a, w));
    PadsBack(Padded(b, w));
  }

  lemma CanonicalParts(b: PublicBundle)
    requires WellTyped(b)
    ensures var m := Canonical(b);
            && |m| == 1317
            && m[..36] == Padded(b.deviceId, ID_WIDTH) && m[36..68] == Padded(b.callsign, CALLSIGN_WIDTH)
            && m[68] == Code(b.rank) == (match b.rank case COMMAND => 1 case OFFICER => 2 case NCO => 3 case SQUAD => 4)
            && m[69..101] == b.verifyKey && m[101..133] == b.encryptPub && m[133..] == b.kemPub
  {
  }

  /** The fields of the signed bytes are the same. */
  predicate SameFields(a: PublicBundle, b: PublicBundle) {
    && Padded(a.deviceId, ID_WIDTH) == Padded(b.deviceId, ID_WIDTH)
    && Padded(a.callsign, CALLSIGN_WIDTH) == Padded(b.callsign, CALLSIGN_WIDTH)
    && a.rank == b.rank && a.verifyKey == b.verifyKey && a.encryptPub == b.encryptPub && a.kemPub == b.kemPub
  }

  lemma CanonicalAgrees(a: PublicBundle, b: PublicBundle)
    requires WellTyped(a) && WellTyped(b)
    ensures Canonical(a) == Canonical(b) <==> SameFields(a, b)
  {
    if Canonical(a) == Canonical(b) {
      CanonicalParts(a);
      CanonicalParts(b);
    }
  }

  lemma TrimmedAgrees(a: PublicBundle, b: PublicBundle)
    ensures SameFields(a, b) <==> Trimmed(a).(sig := []) == Trimmed(b).(sig := [])
  {
    FieldsAgree(a.deviceId, b.deviceId, ID_WIDTH);
    FieldsAgree(a.callsign, b.callsign, CALLSIGN_WIDTH);
  }

  /** Signed bytes determine every signed field, up to what the fixed widths cut off. */
  lemma CanonicalDetermines(a: PublicBundle, b: PublicBundle)
    requires WellTyped(a) && WellTyped(b)
    ensures |Canonical(a)| == 1317
    ensures Canonical(a) == Canonical(b) <==> Trimmed(a).(sig := []) == Trimmed(b).(sig := [])
  {
    CanonicalParts(a);
    CanonicalAgrees(a, b);
    TrimmedAgrees(a, b);
  }

  /** So a signature holds for a bundle exactly when it holds for what is left of it. */
  lemma TrimmedVerifies(c: Crypto, b: PublicBundle)
    ensures Canonical(Trimmed(b)) == Canonical(b)
    ensures Verified(c, Trimmed(b)) <==> Verified(c, b)
  {
    PadsBack(Padded(b.deviceId, ID_WIDTH));
    PadsBack(Padded(b.callsign, CALLSIGN_WIDTH));
  }

  /** A signature that verifies one text alone, made for bundle b, is refused with every other bundle:
      whatever is changed in a signed field, short of what the widths cut off anyway. */
  lemma TamperedIsRefused(c: Crypto, b: PublicBundle, b': PublicBundle)
    requires WellTyped(b) && WellTyped(b') && b'.verifyKey == b.verifyKey && b'.sig == b.sig
    requires forall m :: c.verify(b.verifyKey, m, b.sig) <==> m == Canonical(b)
    ensures Verified(c, b') <==> Trimmed(b') == Trimmed(b)
  {
    CanonicalDetermines(b', b);
  }

  // ---------------------------------------------------------------- key pairs

  datatype KeyPair = KeyPair(secret: Bytes, public: Bytes)

  datatype Keys = Keys(signing: KeyPair, encrypt: KeyPair, kem: KeyPair)

  datatype DeviceIdentity = DeviceIdentity(deviceId: Bytes, callsign: Bytes, rank: Rank, keys: Keys)

  /** Public halves computed from Ed25519 and X25519 secrets by the library. */
  datatype KeyMath = KeyMath(edPublic: Bytes -> Bytes, xPublic: Bytes -> Bytes)

  /** The lengths the secret key classes check. */
  predicate SecretsSized(k: Keys) {
    |k.signing.secret| == 32 && |k.encrypt.secret| == 32 && |k.kem.secret| == MLKEM_SK_LEN
  }

  /** The lengths the public key classes check. */
  predicate PublicsSized(k: Keys) {
    |k.signing.public| == 32 && |k.encrypt.public| == 32 && |k.kem.public| == MLKEM_PK_LEN
  }

  /** Each public half belongs to its secret half. */
  predicate Consistent(km: KeyMath, k: Keys) {
    && k.signing.public == km.edPublic(k.signing.secret)
    && k.encrypt.public == km.xPublic(k.encrypt.secret)
    && |k.kem.secret| == MLKEM_SK_LEN
    && k.kem.public == k.kem.secret[MLKEM_PK_OFFSET..MLKEM_PK_OFFSET + MLKEM_PK_LEN]
  }

  function BundleOf(c: Crypto, id: DeviceIdentity): PublicBundle {
    var unsigned := PublicBundle(id.deviceId, id.callsign, id.rank,
                                 id.keys.signing.public, id.keys.encrypt.public, id.keys.kem.public, []);
    unsigned.(sig := c.sign(id.keys.signing.secret, Canonical(unsigned)))
  }

  /** An identity's bundle verifies when its verify key belongs to its signing key. */
  lemma OwnBundleVerifies(c: Crypto, id: DeviceIdentity)
    requires Sound(c) && id.keys.signing.public == c.publicOf(id.keys.signing.secret)
    ensures Verified(c, BundleOf(c, id)) && |BundleOf(c, id).sig| == SIG_SIZE
    ensures BundleOf(c, id).(sig := []) == PublicBundle(id.deviceId, id.callsign, id.rank, id.keys.signing.public,
                                                        id.keys.encrypt.public, id.keys.kem.public, [])
  {
    var b := BundleOf(c, id);
    assert Canonical(b) == Canonical(b.(sig := []));
  }

  // ---------------------------------------------------------------- the private key blob

  datatype BlobError = BadBlobLength

  function Serialize(k: Keys): Bytes {
    k.signing.secret + k.encrypt.secret + k.kem.secret
  }

  function Deserialize(km: KeyMath, raw: Bytes): Result<Keys, BlobError> {
    if |raw| != 32 + 32 + MLKEM_SK_LEN then Err(BadBlobLength)
    else
      var kem := raw[64..];
      Ok(Keys(KeyPair(raw[..32], km.edPublic(raw[..32])),
              KeyPair(raw[32..64], km.xPublic(raw[32..64])),
              KeyPair(kem, kem[MLKEM_PK_OFFSET..MLKEM_PK_OFFSET + MLKEM_PK_LEN])))
  }

  /** Secret keys always come back; the whole key set does exactly when it was consistent. */
  lemma KeysComeBack(km: KeyMath, k: Keys)
    requires SecretsSized(k)
    ensures var r := Deserialize(km, Serialize(k));
            && r.Ok? && Consistent(km, r.value)
            && r.value.signing.secret == k.signing.secret && r.value.encrypt.secret == k.encrypt.secret
            && r.value.kem.secret == k.kem.secret
            && (r.value == k <==> Consistent(km, k))
  {
    var raw := Serialize(k);
    assert raw[..32] == k.signing.secret && raw[32..64] == k.encrypt.secret && raw[64..] == k.kem.secret;
  }

  lemma BlobComesBack(km: KeyMath, raw: Bytes)
    ensures Deserialize(km, raw).Ok? <==> |raw| == 2464
    ensures Deserialize(km, raw).Ok? ==>
              var k := Deserialize(km, raw).value;
              && Serialize(k) == raw
              && k.signing.secret == raw[..32] && k.encrypt.secret == raw[32..64] && k.kem.secret == raw[64..]
  {
    if |raw| == 2464 {
      assert raw[..32] + raw[32..64] + raw[64..] == raw;
    }
  }
}
