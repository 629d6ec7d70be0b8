/** The wire form of a public bundle (mesh/transport.py:173-225). */
module Bundle {
  import opened Bytes
  import opened Identity
  import opened Primitives
  import opened Wrappers

  const BUNDLE_WIRE_LEN: nat := 1381

  datatype BundleError = WrongLength | BadText | BadRank

  /** None where encoding a callsign that is not ASCII raises. */
  function Pack(b: PublicBundle): Option<Bytes> {
    if !Ascii(b.callsign) then None
    else
      Some(Padded(b.deviceId, ID_WIDTH) + b.verifyKey + b.encryptPub + b.kemPub
           + Padded(b.callsign, CALLSIGN_WIDTH) + [Code(b.rank)] + b.sig)
  }

  function Unpack(data: Bytes): Result<PublicBundle, BundleError> {
    if |data| != BUNDLE_WIRE_LEN then Err(WrongLength)
    else
      var deviceId := Stripped(data[..36]);
      var callsign := Stripped(data[1284..1316]);
      if !Utf8(deviceId) || !Ascii(callsign) then Err(BadText)
      else
        match OfCode(data[1316])
        case None => Err(BadRank)
        case Some(rank) =>
          Ok(PublicBundle(deviceId, callsign, rank, data[36..68], data[68..100], data[100..1284], data[1317..]))
  }

  lemma WireParts(b: PublicBundle)
    requires WellTyped(b) && Ascii(b.callsign)
    ensures var d := Pack(b).value;
            && |d| == 1317 + |b.sig|
            && d[..36] == Padded(b.deviceId, ID_WIDTH)
            && d[36..68] == b.verifyKey && d[68..100] == b.encryptPub && d[100..1284] == b.kemPub
            && d[1284..1316] == Padded(b.callsign, CALLSIGN_WIDTH)
            && d[1316] == Code(b.rank) && d[1317..] == b.sig
  {
  }

  /** What the receiver reads from any bundle that can be packed. */
  lemma Transit(b: PublicBundle)
    requires WellTyped(b) && Ascii(b.callsign)
    ensures Unpack(Pack(b).value) ==
            if |b.sig| != SIG_SIZE then Err(WrongLength)
            else if !Utf8(Trimmed(b).deviceId) then Err(BadText)
            else Ok(Trimmed(b))
  {
    WireParts(b);
    var callsign := Trimmed(b).callsign;
    assert forall i :: 0 <= i < |callsign| ==> callsign[i] == Padded(b.callsign, CALLSIGN_WIDTH)[i];
  }

  /** A bundle comes back unchanged exactly when its texts fit their fields and its signature has 64 bytes. */
  lemma RoundTrip(b: PublicBundle)
    requires WellTyped(b) && Ascii(b.callsign)
    ensures Unpack(Pack(b).value) == Ok(b) <==>
            |b.sig| == SIG_SIZE && Fits(b.deviceId, ID_WIDTH) && Fits(b.callsign, CALLSIGN_WIDTH)
  {
    Transit(b);
    TrimmedIsSame(b);
  }

  lemma Rejoined(data: Bytes)
    requires |data| == BUNDLE_WIRE_LEN
    ensures data[..36] + data[36..68] + data[68..100] + data[100..1284] + data[1284..1316] + [data[1316]] + data[1317..]
            == data
  {
    assert data[..36] + data[36..68] == data[..68];
    assert data[..68] + data[68..100] == data[..100];
    assert data[..100] + data[100..1284] == data[..1284];
    assert data[..1284] + data[1284..1316] == data[..1316];
    assert data[..1316] + [data[1316]] == data[..1317];
  }

  /** Every wire form that is read at all is written back byte for byte, so no two are read alike. */
  lemma WireFormIsUnique(data: Bytes)
    ensures Unpack(data).Ok? ==> WellTyped(Unpack(data).value) && Pack(Unpack(data).value) == Some(data)
  {
    if Unpack(data).Ok? {
      var b := Unpack(data).value;
      AsciiIsUtf8(b.callsign);
      PadsBack(data[..36]);
      PadsBack(data[1284..1316]);
      Rejoined(data);
    }
  }

  /** Transit keeps signatures both ways, even when it shortens a text. */
  lemma TransitKeepsVerification(c: Crypto, b: PublicBundle)
    requires WellTyped(b) && Ascii(b.callsign) && Unpack(Pack(b).value).Ok?
    ensures var got := Unpack(Pack(b).value).value;
            Canonical(got) == Canonical(b) && (Verified(c, got) <==> Verified(c, b))
  {
    Transit(b);
    TrimmedVerifies(c, b);
  }

  /** A node's own bundle reaches its peer unchanged and verifies there. */
  lemma OwnBundleArrives(c: Crypto, id: DeviceIdentity)
    requires Sound(c) && PublicsSized(id.keys) && id.keys.signing.public == c.publicOf(id.keys.signing.secret)
    requires Utf8(id.deviceId) && Fits(id.deviceId, ID_WIDTH)
    requires Ascii(id.callsign) && Fits(id.callsign, CALLSIGN_WIDTH)
    ensures var b := BundleOf(c, id); Unpack(Pack(b).value) == Ok(b) && Verified(c, b)
  {
    AsciiIsUtf8(id.callsign);
    OwnBundleVerifies(c, id);
    RoundTrip(BundleOf(c, id));
  }
}
