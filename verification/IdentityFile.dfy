/** The identity file and its duress passphrase (core/identity.py:380-553).

    The file is an abstract record.  Key derivation and key wrapping are perfect: a wrap key is
    the passphrase, salt and parameters it was derived from, and a box opens only under the key
    and nonce that sealed it.  Random salts and nonces, and the fresh id and keys of a decoy, are
    arguments. */
module IdentityFile {
  import opened Bytes
  import opened Identity
  import opened Wrappers

  const FILE_VERSION: nat := 1

  type Passphrase = Bytes

  datatype Draws = Draws(salt: nat, nonce: nat)

  datatype Kdf =
    | Argon2id(timeCost: nat, memoryCost: nat, parallelism: nat, hashLen: nat)
    | Scrypt(n: nat, r: nat, p: nat)
    | OtherKdf(name: string)

  datatype WrapKey = WrapKey(passphrase: Passphrase, salt: nat, kdf: Kdf)

  datatype Box = Box(key: WrapKey, nonce: nat, plain: Bytes)

  datatype PublicKeys = PublicKeys(verifyKey: Bytes, encryptPub: Bytes, kemPub: Bytes)

  datatype Duress = Duress(draws: Draws, box: Box, deviceId: Bytes, publicKeys: PublicKeys)

  datatype Doc = Doc(
    version: nat, deviceId: Bytes, callsign: Bytes, rank: byte, kdf: Kdf,
    draws: Draws, publicKeys: PublicKeys, box: Box, duress: Option<Duress>)

  datatype FileError =
    | NotFound | BadVersion | UnsupportedKdf | Argon2Missing | InvalidTag | BadBlob | BadRank
    | SigningKeyMismatch | EncryptKeyMismatch | KemKeyMismatch | BadCallsign

  // ---------------------------------------------------------------- saving

  function PlatformKdf(argon2: bool): Kdf {
    if argon2 then Argon2id(3, 65536, 4, 32) else Scrypt(131072, 8, 1)
  }

  function PublicHalves(k: Keys): PublicKeys {
    PublicKeys(k.signing.public, k.encrypt.public, k.kem.public)
  }

  function Sealed(k: Keys, passphrase: Passphrase, draws: Draws, kdf: Kdf): Box {
    Box(WrapKey(passphrase, draws.salt, kdf), draws.nonce, Serialize(k))
  }

  function SavedDoc(argon2: bool, id: DeviceIdentity, passphrase: Passphrase, draws: Draws): Doc {
    var kdf := PlatformKdf(argon2);
    Doc(FILE_VERSION, id.deviceId, id.callsign, Code(id.rank), kdf, draws,
        PublicHalves(id.keys), Sealed(id.keys, passphrase, draws, kdf), None)
  }

  /** `decoy` supplies a device id and key pairs. */
  function DuressDoc(argon2: bool, id: DeviceIdentity, passphrase: Passphrase, draws: Draws,
                     decoy: DeviceIdentity, duress: Passphrase, duressDraws: Draws): Doc {
    SavedDoc(argon2, id, passphrase, draws).(
      duress := Some(Duress(duressDraws, Sealed(decoy.keys, duress, duressDraws, PlatformKdf(argon2)),
                            decoy.deviceId, PublicHalves(decoy.keys))))
  }

  // ---------------------------------------------------------------- loading

  function Derive(argon2: bool, passphrase: Passphrase, salt: nat, kdf: Kdf): Result<WrapKey, FileError> {
    match kdf
    case Argon2id(_, _, _, _) => if argon2 then Ok(WrapKey(passphrase, salt, kdf)) else Err(Argon2Missing)
    case Scrypt(_, _, _) => Ok(WrapKey(passphrase, salt, kdf))
    case OtherKdf(_) => Err(UnsupportedKdf)
  }

  function Open(box: Box, key: WrapKey, nonce: nat): Option<Bytes> {
    if box.key == key && box.nonce == nonce then Some(box.plain) else None
  }

  /** The identity in an opened file, after the public key checks. */
  function Checked(km: KeyMath, doc: Doc, blob: Bytes): Result<DeviceIdentity, FileError> {
    var keys := Deserialize(km, blob);
    if keys.Err? then Err(BadBlob)
    else if keys.value.signing.public != doc.publicKeys.verifyKey then Err(SigningKeyMismatch)
    else if keys.value.encrypt.public != doc.publicKeys.encryptPub then Err(EncryptKeyMismatch)
    else if keys.value.kem.public != doc.publicKeys.kemPub then Err(KemKeyMismatch)
    else
      match OfCode(doc.rank)
      case None => Err(BadRank)
      case Some(rank) => Ok(DeviceIdentity(doc.deviceId, doc.callsign, rank, keys.value))
  }

  function Decoy(km: KeyMath, doc: Doc, blob: Bytes): Result<DeviceIdentity, FileError>
    requires doc.duress.Some?
  {
    var keys := Deserialize(km, blob);
    if keys.Err? then Err(BadBlob)
    else
      match OfCode(doc.rank)
      case None => Err(BadRank)
      case Some(rank) => Ok(DeviceIdentity(doc.duress.value.deviceId, doc.callsign, rank, keys.value))
  }

  /** What a load returns, and the file it leaves. */
  datatype Loaded = Loaded(result: Result<DeviceIdentity, FileError>, file: Option<Doc>)

  function OnDuress(km: KeyMath, argon2: bool, doc: Doc, passphrase: Passphrase, draws: Draws): Loaded {
    if doc.duress.None? then Loaded(Err(InvalidTag), Some(doc))
    else
      var d := doc.duress.value;
      match Derive(argon2, passphrase, d.draws.salt, doc.kdf)
      case Err(e) => Loaded(Err(e), Some(doc))
      case Ok(key) =>
        match Open(d.box, key, d.draws.nonce)
        case None => Loaded(Err(InvalidTag), Some(doc))
        case Some(blob) =>
          var decoy := Decoy(km, doc, blob);
          Loaded(decoy, Some(if decoy.Ok? then SavedDoc(argon2, decoy.value, passphrase, draws) else doc))
  }

  function OnLoad(km: KeyMath, argon2: bool, file: Option<Doc>, passphrase: Passphrase, draws: Draws): Loaded {
    if file.None? then Loaded(Err(NotFound), file)
    else if file.value.version != FILE_VERSION then Loaded(Err(BadVersion), file)
    else
      var doc := file.value;
      match Derive(argon2, passphrase, doc.draws.salt, doc.kdf)
      case Err(e) => Loaded(Err(e), file)
      case Ok(key) =>
        match Open(doc.box, key, doc.draws.nonce)
        case None => OnDuress(km, argon2, doc, passphrase, draws)
        case Some(blob) => Loaded(Checked(km, doc, blob), file)
  }

  // ---------------------------------------------------------------- creating a decoy

  predicate IsCallsignChar(c: byte) {
    'A' as int <= c as int <= 'Z' as int || '0' as int <= c as int <= '9' as int
    || c as int == '_' as int || c as int == '-' as int
  }

  /** What the pattern ^[A-Z0-9_-]{1,32}$ matches: its end also matches before one last newline. */
  predicate ValidCallsign(b: Bytes) {
    var n := if b != [] && b[|b| - 1] as int == '\n' as int then |b| - 1 else |b|;
    1 <= n <= CALLSIGN_WIDTH && forall i :: 0 <= i < n ==> IsCallsignChar(b[i])
  }

  /** One to 32 capital letters, digits, underscores and hyphens. */
  predicate IsCallsign(b: Bytes) {
    1 <= |b| <= 32
    && forall i :: 0 <= i < |b| ==> 65 <= b[i] <= 90 || 48 <= b[i] <= 57 || b[i] == 95 || b[i] == 45
  }

  /** What is accepted: a callsign, or one followed by a newline. */
  lemma CallsignExactly(b: Bytes)
    ensures ValidCallsign(b) <==> IsCallsign(b) || (b != [] && b[|b| - 1] == 10 && IsCallsign(b[..|b| - 1]))
  {
    var last := b != [] && b[|b| - 1] == 10;
    var text := if last then b[..|b| - 1] else b;
    assert ValidCallsign(b) <==> IsCallsign(text) by {
      assert forall i :: 0 <= i < |text| ==> text[i] == b[i];
    }
  }

  /** A valid callsign is ASCII and fits its field, but for one of full width that ends in a newline. */
  lemma CallsignFits(b: Bytes)
    requires ValidCallsign(b)
    ensures Ascii(b) && |b| <= CALLSIGN_WIDTH + 1
    ensures Fits(b, CALLSIGN_WIDTH) <==> |b| <= CALLSIGN_WIDTH
  {
    var n := if b[|b| - 1] as int == '\n' as int then |b| - 1 else |b|;
    assert forall i :: 0 <= i < n ==> IsCallsignChar(b[i]);
  }

  /** `upper` is str.upper on UTF-8 text; None where the callsign is refused. */
  function CreateIdentity(upper: Bytes -> Bytes, callsign: Bytes, rank: Rank, deviceId: Bytes, keys: Keys)
    : (r: Option<DeviceIdentity>)
    ensures r.Some? ==> ValidCallsign(r.value.callsign) && r.value.rank == rank
  {
    if ValidCallsign(upper(callsign)) then Some(DeviceIdentity(deviceId, upper(callsign), rank, keys)) else None
  }

  /** One identity file on disk, on a platform with or without argon2. */
  class Store {
    const km: KeyMath
    const upper: Bytes -> Bytes
    const argon2: bool
    var file: Option<Doc>

    constructor (km: KeyMath, upper: Bytes -> Bytes, argon2: bool)
      ensures this.km == km && this.upper == upper && this.argon2 == argon2 && file == None
    {
      this.km, this.upper, this.argon2, file := km, upper, argon2, None;
    }

    method SaveIdentity(id: DeviceIdentity, passphrase: Passphrase, draws: Draws)
      modifies this`file
      ensures file == Some(SavedDoc(argon2, id, passphrase, draws))
      ensures file.value.kdf == if argon2 then Argon2id(3, 65536, 4, 32) else Scrypt(131072, 8, 1)
    {
      var doc := NewDoc(id, passphrase, draws);
      file := Some(doc);
    }

    method NewDoc(id: DeviceIdentity, passphrase: Passphrase, draws: Draws) returns (doc: Doc)
      ensures doc == SavedDoc(argon2, id, passphrase, draws)
    {
      var kdf := PlatformKdf(argon2);
      var wrapKey := WrapKey(passphrase, draws.salt, kdf);
      doc := Doc(FILE_VERSION, id.deviceId, id.callsign, Code(id.rank), kdf, draws,
                 PublicHalves(id.keys), Box(wrapKey, draws.nonce, Serialize(id.keys)), None);
    }

    /** `deviceId` and `keys` are the fresh ones of the decoy. */
    method SaveWithDuress(id: DeviceIdentity, passphrase: Passphrase, draws: Draws,
                          duress: Passphrase, duressDraws: Draws, deviceId: Bytes, keys: Keys)
      returns (r: Result<Doc, FileError>)
      modifies this`file
      ensures var decoy := CreateIdentity(upper, id.callsign, id.rank, deviceId, keys);
              if decoy.None? then r == Err(BadCallsign) && file == old(file)
              else
                && r == Ok(DuressDoc(argon2, id, passphrase, draws, decoy.value, duress, duressDraws))
                && file == Some(r.value)
                && r.value.duress.value.publicKeys
                   == PublicKeys(keys.signing.public, keys.encrypt.public, keys.kem.public)
    {
      var doc := NewDoc(id, passphrase, draws);
      var decoy := CreateIdentity(upper, id.callsign, id.rank, deviceId, keys);
      if decoy.None? {
        return Err(BadCallsign);
      }
      var spare := decoy.value;
      var wrapKey := WrapKey(duress, duressDraws.salt, doc.kdf);
      var box := Box(wrapKey, duressDraws.nonce, Serialize(spare.keys));
      doc := doc.(duress := Some(Duress(duressDraws, box, spare.deviceId, PublicHalves(spare.keys))));
      file := Some(doc);
      return Ok(doc);
    }

    /** `draws` are used only if the load overwrites the file. */
    method LoadIdentity(passphrase: Passphrase, draws: Draws) returns (r: Result<DeviceIdentity, FileError>)
      modifies this`file
      ensures Loaded(r, file) == OnLoad(km, argon2, old(file), passphrase, draws)
    {
      if file.None? {
        return Err(NotFound);
      }
      var doc := file.value;
      if doc.version != FILE_VERSION {
        return Err(BadVersion);
      }
      var wrapKey := Derive(argon2, passphrase, doc.draws.salt, doc.kdf);
      if wrapKey.Err? {
        return Err(wrapKey.error);
      }
      var blob := Open(doc.box, wrapKey.value, doc.draws.nonce);
      if blob.Some? {
        return Checked(km, doc, blob.value);
      }
      if doc.duress.None? {
        return Err(InvalidTag);
      }
      var d := doc.duress.value;
      var duressKey := Derive(argon2, passphrase, d.draws.salt, doc.kdf);
      if duressKey.Err? {
        return Err(duressKey.error);
      }
      var decoyBlob := Open(d.box, duressKey.value, d.draws.nonce);
      if decoyBlob.None? {
        return Err(InvalidTag);
      }
      r := Decoy(km, doc, decoyBlob.value);
      if r.Ok? {
        SaveIdentity(r.value, passphrase, draws);
      }
    }
  }

  // ---------------------------------------------------------------- one load

  /** What loading a saved identity with its own passphrase returns. */
  function Reloaded(km: KeyMath, id: DeviceIdentity): Result<DeviceIdentity, FileError> {
    if id.keys.signing.public != km.edPublic(id.keys.signing.secret) then Err(SigningKeyMismatch)
    else if id.keys.encrypt.public != km.xPublic(id.keys.encrypt.secret) then Err(EncryptKeyMismatch)
    else if !Consistent(km, id.keys) then Err(KemKeyMismatch)
    else Ok(id)
  }

  /** The decoy as it comes out of the file: the decoy's id and secrets under the real callsign and rank. */
  function DecoyOf(km: KeyMath, id: DeviceIdentity, decoy: DeviceIdentity): DeviceIdentity {
    var keys := Deserialize(km, Serialize(decoy.keys));
    id.(deviceId := decoy.deviceId, keys := if keys.Ok? then keys.value else decoy.keys)
  }

  /** A decoy that create_identity made is returned as it was made. */
  lemma DecoyIsFresh(km: KeyMath, id: DeviceIdentity, decoy: DeviceIdentity)
    requires SecretsSized(decoy.keys)
    ensures Consistent(km, DecoyOf(km, id, decoy).keys)
    ensures DecoyOf(km, id, decoy).keys == decoy.keys <==> Consistent(km, decoy.keys)
  {
    KeysComeBack(km, decoy.keys);
  }

  /** A platform without argon2 cannot read what one with it has saved; the other way round it can. */
  predicate Readable(saved: bool, here: bool) {
    saved ==> here
  }

  /** A file saved without duress opens with its own passphrase only, on every platform that has what it
      was saved with, and gives back the identity exactly when its public keys belong to its secret keys. */
  lemma LoadAfterSave(km: KeyMath, saved: bool, here: bool, id: DeviceIdentity, passphrase: Passphrase, draws: Draws,
                      tried: Passphrase, newDraws: Draws)
    requires SecretsSized(id.keys)
    ensures var file := Some(SavedDoc(saved, id, passphrase, draws));
            && OnLoad(km, here, file, tried, newDraws)
               == Loaded(if !Readable(saved, here) then Err(Argon2Missing)
                         else if tried == passphrase then Reloaded(km, id)
                         else Err(InvalidTag), file)
            && (Reloaded(km, id) == Ok(id) <==> Consistent(km, id.keys))
  {
    KeysComeBack(km, id.keys);
  }

  /** A file saved with a duress passphrase: the real passphrase is tried first; the duress
      passphrase replaces the file by one that holds the decoy alone, saved as this platform saves. */
  lemma LoadAfterDuressSave(km: KeyMath, saved: bool, here: bool, id: DeviceIdentity, passphrase: Passphrase,
                            draws: Draws, decoy: DeviceIdentity, duress: Passphrase, duressDraws: Draws,
                            tried: Passphrase, newDraws: Draws)
    requires SecretsSized(id.keys) && SecretsSized(decoy.keys)
    ensures var file := Some(DuressDoc(saved, id, passphrase, draws, decoy, duress, duressDraws));
            var d := DecoyOf(km, id, decoy);
            OnLoad(km, here, file, tried, newDraws) ==
              if !Readable(saved, here) then Loaded(Err(Argon2Missing), file)
              else if tried == passphrase then Loaded(Reloaded(km, id), file)
              else if tried == duress then Loaded(Ok(d), Some(SavedDoc(here, d, duress, newDraws)))
              else Loaded(Err(InvalidTag), file)
  {
    KeysComeBack(km, id.keys);
    KeysComeBack(km, decoy.keys);
  }

  // ---------------------------------------------------------------- any file at all

  predicate Usable(here: bool, kdf: Kdf) {
    kdf.Scrypt? || (kdf.Argon2id? && here)
  }

  /** The document holds the identity, sealed under the passphrase with the document's own parameters. */
  predicate Holds(doc: Doc, id: DeviceIdentity, passphrase: Passphrase) {
    && doc.version == 1 && doc.deviceId == id.deviceId && doc.callsign == id.callsign && doc.rank == Code(id.rank)
    && doc.publicKeys == PublicKeys(id.keys.signing.public, id.keys.encrypt.public, id.keys.kem.public)
    && doc.box == Sealed(id.keys, passphrase, doc.draws, doc.kdf)
  }

  /** The document's decoy, with the document's callsign and rank, is sealed under the passphrase. */
  predicate HoldsDecoy(doc: Doc, decoy: DeviceIdentity, passphrase: Passphrase) {
    && doc.version == 1 && doc.duress.Some? && doc.callsign == decoy.callsign && doc.rank == Code(decoy.rank)
    && var d := doc.duress.value;
    d.deviceId == decoy.deviceId && d.box == Sealed(decoy.keys, passphrase, d.draws, doc.kdf)
  }

  /** The passphrase opens the document's first box. */
  predicate OpensFirst(doc: Doc, passphrase: Passphrase) {
    doc.box.key == WrapKey(passphrase, doc.draws.salt, doc.kdf) && doc.box.nonce == doc.draws.nonce
  }

  lemma RanksAgree(r: Rank, b: byte)
    ensures OfCode(b) == Some(r) <==> Code(r) == b
  {
  }

  /** Checked accepts exactly the serialized keys of an identity whose public halves and rank are on file. */
  lemma ChecksExactly(km: KeyMath, doc: Doc, blob: Bytes, id: DeviceIdentity)
    ensures Checked(km, doc, blob) == Ok(id) <==>
              && doc.deviceId == id.deviceId && doc.callsign == id.callsign && doc.rank == Code(id.rank)
              && doc.publicKeys == PublicHalves(id.keys)
              && SecretsSized(id.keys) && Consistent(km, id.keys) && blob == Serialize(id.keys)
  {
    RanksAgree(id.rank, doc.rank);
    BlobComesBack(km, blob);
    if SecretsSized(id.keys) {
      KeysComeBack(km, id.keys);
    }
  }

  lemma DecoysExactly(km: KeyMath, doc: Doc, blob: Bytes, decoy: DeviceIdentity)
    requires doc.duress.Some?
    ensures Decoy(km, doc, blob) == Ok(decoy) <==>
              && doc.duress.value.deviceId == decoy.deviceId && doc.callsign == decoy.callsign
              && doc.rank == Code(decoy.rank)
              && SecretsSized(decoy.keys) && Consistent(km, decoy.keys) && blob == Serialize(decoy.keys)
  {
    RanksAgree(decoy.rank, doc.rank);
    BlobComesBack(km, blob);
    if SecretsSized(decoy.keys) {
      KeysComeBack(km, decoy.keys);
    }
  }

  /** Of all files there are, a load returns an identity from exactly those that hold it, first of all as
      the real one, and otherwise as the decoy; the file changes exactly when a decoy is returned. */
  lemma LoadsExactly(km: KeyMath, here: bool, file: Option<Doc>, passphrase: Passphrase, draws: Draws,
                     id: DeviceIdentity)
    ensures var l := OnLoad(km, here, file, passphrase, draws);
            && (l.result == Ok(id) <==>
                  && file.Some? && Usable(here, file.value.kdf)
                  && SecretsSized(id.keys) && Consistent(km, id.keys)
                  && (Holds(file.value, id, passphrase)
                      || (!OpensFirst(file.value, passphrase) && HoldsDecoy(file.value, id, passphrase))))
            && (l.result == Ok(id) && !OpensFirst(file.value, passphrase) ==>
                  l.file == Some(SavedDoc(here, id, passphrase, draws)))
            && (l.result.Err? || OpensFirst(file.value, passphrase) ==> l.file == file)
  {
    if file.Some? && file.value.version == 1 && Usable(here, file.value.kdf) {
      var doc := file.value;
      if OpensFirst(doc, passphrase) {
        ChecksExactly(km, doc, doc.box.plain, id);
      } else if doc.duress.Some? {
        DecoysExactly(km, doc, doc.duress.value.box.plain, id);
      }
    }
  }

  /** The errors that precede any decryption, and that nothing else raises. */
  lemma RefusesExactly(km: KeyMath, here: bool, file: Option<Doc>, passphrase: Passphrase, draws: Draws)
    ensures var r := OnLoad(km, here, file, passphrase, draws).result;
            && (r == Err(NotFound) <==> file.None?)
            && (r == Err(BadVersion) <==> file.Some? && file.value.version != 1)
            && (r == Err(UnsupportedKdf) <==> file.Some? && file.value.version == 1 && file.value.kdf.OtherKdf?)
            && (r == Err(Argon2Missing) <==>
                  file.Some? && file.value.version == 1 && file.value.kdf.Argon2id? && !here)
            && (r == Err(InvalidTag) <==>
                  && file.Some? && file.value.version == 1 && Usable(here, file.value.kdf)
                  && !OpensFirst(file.value, passphrase) && !OpensDecoy(file.value, passphrase))
  {
  }

  /** The passphrase opens the document's second box. */
  predicate OpensDecoy(doc: Doc, passphrase: Passphrase) {
    && doc.duress.Some?
    && var d := doc.duress.value;
    d.box.key == WrapKey(passphrase, d.draws.salt, doc.kdf) && d.box.nonce == d.draws.nonce
  }

  // ---------------------------------------------------------------- any run of loads

  datatype Attempt = Attempt(passphrase: Passphrase, draws: Draws)

  /** The outcome of the last of a nonempty run of attempts, or the untouched file. */
  function AfterAttempts(km: KeyMath, here: bool, file: Option<Doc>, tries: seq<Attempt>): Option<Doc> {
    if tries == [] then file
    else
      var last := tries[|tries| - 1];
      OnLoad(km, here, AfterAttempts(km, here, file, tries[..|tries| - 1]), last.passphrase, last.draws).file
  }

  function Answer(km: KeyMath, here: bool, file: Option<Doc>, tries: seq<Attempt>): Result<DeviceIdentity, FileError>
    requires tries != []
  {
    var last := tries[|tries| - 1];
    OnLoad(km, here, AfterAttempts(km, here, file, tries[..|tries| - 1]), last.passphrase, last.draws).result
  }

  predicate Tried(tries: seq<Attempt>, passphrase: Passphrase) {
    exists i :: 0 <= i < |tries| && tries[i].passphrase == passphrase
  }

  /** The file holds the decoy alone, under the duress passphrase. */
  predicate Wiped(here: bool, file: Option<Doc>, decoy: DeviceIdentity, duress: Passphrase) {
    file.Some? && file == Some(SavedDoc(here, decoy, duress, file.value.draws))
  }

  lemma {:induction false} FileAfterAttempts(km: KeyMath, saved: bool, here: bool, id: DeviceIdentity,
                                             passphrase: Passphrase, draws: Draws,
                                             decoy: DeviceIdentity, duress: Passphrase, duressDraws: Draws,
                                             tries: seq<Attempt>)
    requires SecretsSized(id.keys) && SecretsSized(decoy.keys) && passphrase != duress
    ensures var file := Some(DuressDoc(saved, id, passphrase, draws, decoy, duress, duressDraws));
            var after := AfterAttempts(km, here, file, tries);
            if Readable(saved, here) && Tried(tries, duress) then Wiped(here, after, DecoyOf(km, id, decoy), duress)
            else after == file
  {
    if tries != [] {
      var before, last := tries[..|tries| - 1], tries[|tries| - 1];
      assert tries == before + [last];
      assert Tried(tries, duress) <==> Tried(before, duress) || last.passphrase == duress;
      FileAfterAttempts(km, saved, here, id, passphrase, draws, decoy, duress, duressDraws, before);
      LoadAfterDuressSave(km, saved, here, id, passphrase, draws, decoy, duress, duressDraws, last.passphrase,
                          last.draws);
      if Readable(saved, here) && Tried(before, duress) {
        var file := Some(DuressDoc(saved, id, passphrase, draws, decoy, duress, duressDraws));
        DecoyReloads(km, here, id, decoy, duress, AfterAttempts(km, here, file, before), last);
      }
    }
  }

  lemma DecoyReloads(km: KeyMath, here: bool, id: DeviceIdentity, decoy: DeviceIdentity, duress: Passphrase,
                     file: Option<Doc>, last: Attempt)
    requires SecretsSized(decoy.keys) && Wiped(here, file, DecoyOf(km, id, decoy), duress)
    ensures OnLoad(km, here, file, last.passphrase, last.draws)
            == Loaded(if last.passphrase == duress then Ok(DecoyOf(km, id, decoy)) else Err(InvalidTag), file)
  {
    KeysComeBack(km, decoy.keys);
    var keys := DecoyOf(km, id, decoy).keys;
    KeysComeBack(km, keys);
  }

  /** The duress file over any run of loads on one platform, with any passphrases in any order.  If the
      platform can read it at all: until the duress passphrase is first used, the real one gives the real
      identity; from then on the duress passphrase always gives the same decoy and every other one, the
      real one too, fails; the file then holds nothing of the real identity's keys. */
  lemma DuressOverAnyRun(km: KeyMath, saved: bool, here: bool, id: DeviceIdentity, passphrase: Passphrase,
                         draws: Draws, decoy: DeviceIdentity, duress: Passphrase, duressDraws: Draws,
                         tries: seq<Attempt>)
    requires SecretsSized(id.keys) && SecretsSized(decoy.keys) && passphrase != duress && tries != []
    ensures var file := Some(DuressDoc(saved, id, passphrase, draws, decoy, duress, duressDraws));
            var before, last := tries[..|tries| - 1], tries[|tries| - 1];
            var fake := DecoyOf(km, id, decoy);
            && Answer(km, here, file, tries) ==
               (if !Readable(saved, here) then Err(Argon2Missing)
                else if last.passphrase == duress then Ok(fake)
                else if last.passphrase == passphrase && !Tried(before, duress) then Reloaded(km, id)
                else Err(InvalidTag))
            && (if Readable(saved, here) && Tried(tries, duress)
                then Wiped(here, AfterAttempts(km, here, file, tries), fake, duress)
                else AfterAttempts(km, here, file, tries) == file)
  {
    var file := Some(DuressDoc(saved, id, passphrase, draws, decoy, duress, duressDraws));
    var before, last := tries[..|tries| - 1], tries[|tries| - 1];
    FileAfterAttempts(km, saved, here, id, passphrase, draws, decoy, duress, duressDraws, before);
    FileAfterAttempts(km, saved, here, id, passphrase, draws, decoy, duress, duressDraws, tries);
    LoadAfterDuressSave(km, saved, here, id, passphrase, draws, decoy, duress, duressDraws, last.passphrase,
                        last.draws);
    if Readable(saved, here) && Tried(before, duress) {
      DecoyReloads(km, here, id, decoy, duress, AfterAttempts(km, here, file, before), last);
    }
  }

  /** A duress passphrase equal to the real one never takes effect: the file stays as it is. */
  lemma {:induction false} EqualPassphrasesNeverTrigger(km: KeyMath, saved: bool, here: bool, id: DeviceIdentity,
                                                        passphrase: Passphrase, draws: Draws,
                                                        decoy: DeviceIdentity, duressDraws: Draws, tries: seq<Attempt>)
    requires SecretsSized(id.keys) && SecretsSized(decoy.keys)
    ensures var file := Some(DuressDoc(saved, id, passphrase, draws, decoy, passphrase, duressDraws));
            && AfterAttempts(km, here, file, tries) == file
            && (tries != [] ==>
                  Answer(km, here, file, tries) ==
                  (if !Readable(saved, here) then Err(Argon2Missing)
                   else if tries[|tries| - 1].passphrase == passphrase then Reloaded(km, id)
                   else Err(InvalidTag)))
  {
    if tries != [] {
      var last := tries[|tries| - 1];
      EqualPassphrasesNeverTrigger(km, saved, here, id, passphrase, draws, decoy, duressDraws, tries[..|tries| - 1]);
      LoadAfterDuressSave(km, saved, here, id, passphrase, draws, decoy, passphrase, duressDraws, last.passphrase,
                          last.draws);
    }
  }
}
