/** The wire form of an ORIGINATOR and what relays do to it (mesh/router.py:79-123, 329-381).
    The layout is originator_id(32) seq_num(4) hop_count(1) max_hops(1) timestamp(8) signature(64);
    a timestamp is held as the eight bytes of its IEEE double. */
module OriginatorWire {
  import opened Bytes
  import opened Primitives
  import opened Wrappers

  const HEADER_SIZE: nat := 46
  const ORIGINATOR_WIRE_LEN: nat := HEADER_SIZE + SIG_SIZE

  datatype Fields = Fields(oid: Bytes, seqNum: nat, hopCount: nat, maxHops: nat, timestamp: Bytes)

  datatype Wire = Wire(fields: Fields, sig: Bytes)

  datatype WireError = WrongLength

  /** The fields struct.pack takes without raising. */
  predicate Packable(f: Fields) {
    |f.oid| == 32 && f.seqNum < Pow256(4) && f.hopCount < 256 && f.maxHops < 256 && |f.timestamp| == 8
  }

  function Header(f: Fields): (h: Bytes)
    requires Packable(f)
    ensures |h| == HEADER_SIZE
  {
    f.oid + BE(f.seqNum, 4) + [f.hopCount as byte, f.maxHops as byte] + f.timestamp
  }

  /** The bytes an originator signs; hop_count is not among them. */
  function SignedBytes(f: Fields): (m: Bytes)
    requires Packable(f)
    ensures |m| == 45
  {
    f.oid + BE(f.seqNum, 4) + f.timestamp + [f.maxHops as byte]
  }

  /** None where a field is out of the range of its format. */
  function Pack(c: Crypto, f: Fields, signKey: Bytes): Option<Bytes> {
    if !Packable(f) then None else Some(Header(f) + c.sign(signKey, SignedBytes(f)))
  }

  function Unpack(data: Bytes): Result<Wire, WireError> {
    if |data| != ORIGINATOR_WIRE_LEN then Err(WrongLength)
    else
      Ok(Wire(Fields(data[..32], FromBE(data[32..36]), data[36] as nat, data[37] as nat, data[38..46]), data[46..]))
  }

  predicate SignedBy(c: Crypto, w: Wire, verifyKey: Bytes)
    requires Packable(w.fields)
  {
    c.verify(verifyKey, SignedBytes(w.fields), w.sig)
  }

  function Repack(w: Wire, hopCount: nat): Bytes
    requires Packable(w.fields.(hopCount := hopCount))
  {
    Header(w.fields.(hopCount := hopCount)) + w.sig
  }

  lemma HeaderReads(w: Wire)
    requires Packable(w.fields) && |w.sig| == SIG_SIZE
    ensures Unpack(Header(w.fields) + w.sig) == Ok(w)
  {
    var f := w.fields;
    var data := Header(f) + w.sig;
    assert data[..32] == f.oid && data[32..36] == BE(f.seqNum, 4) && data[38..46] == f.timestamp && data[46..] == w.sig;
    DecodeBE(f.seqNum, 4);
  }

  lemma SeqFieldReads(b: Bytes)
    requires |b| == 4
    ensures FromBE(b) < Pow256(4) && BE(FromBE(b), 4) == b
  {
    EncodeBE(b);
  }

  /** Reading and writing are inverse: an accepted datagram is written back byte for byte. */
  lemma WireRoundTrip(data: Bytes)
    ensures Unpack(data).Ok? <==> |data| == 110
    ensures Unpack(data).Ok? ==>
              var w := Unpack(data).value; var f := w.fields;
              && Packable(f) && Repack(w, f.hopCount) == data
              && f.oid == data[..32] && f.seqNum == FromBE(data[32..36]) && f.hopCount == data[36] as nat
              && f.maxHops == data[37] as nat && f.timestamp == data[38..46] && w.sig == data[46..]
  {
    if |data| == 110 {
      var w := Unpack(data).value;
      SeqFieldReads(data[32..36]);
      assert data[..32] + data[32..36] == data[..36];
      assert data[..36] + [data[36], data[37]] == data[..38];
      assert data[..38] + data[38..46] == data[..46];
      assert data[..46] + data[46..] == data;
    }
  }

  lemma SignedParts(f: Fields)
    requires Packable(f)
    ensures var m := SignedBytes(f);
            m[..32] == f.oid && m[32..36] == BE(f.seqNum, 4) && m[36..44] == f.timestamp && m[44] == f.maxHops as byte
  {
  }

  /** A signature is for one claim: signed bytes agree exactly when all but the hop counts agree. */
  lemma SignedBytesDetermine(f: Fields, g: Fields)
    requires Packable(f) && Packable(g)
    ensures SignedBytes(f) == SignedBytes(g) <==> f.(hopCount := 0) == g.(hopCount := 0)
  {
    SignedParts(f);
    SignedParts(g);
    DecodeBE(f.seqNum, 4);
    DecodeBE(g.seqNum, 4);
  }

  // ---------------------------------------------------------------- relaying

  /** The payload sent on by a relay that knows the originator's bundle, having accepted `data`. */
  function Relay(data: Bytes): Option<Bytes> {
    var r := Unpack(data);
    if r.Err? then None
    else
      var f := r.value.fields;
      WireRoundTrip(data);
      if f.hopCount >= f.maxHops then None else Some(Repack(r.value, f.hopCount + 1))
  }

  function AfterRelays(data: Bytes, times: nat): Option<Bytes> {
    if times == 0 then Some(data)
    else
      var before := AfterRelays(data, times - 1);
      if before.None? then None else Relay(before.value)
  }

  predicate OnlyHopByteDiffers(a: Bytes, b: Bytes) {
    |a| == |b| == ORIGINATOR_WIRE_LEN && a[..36] == b[..36] && a[37..] == b[37..]
  }

  lemma RelayStep(w: Wire)
    requires Packable(w.fields) && |w.sig| == SIG_SIZE
    ensures var f := w.fields;
            Relay(Repack(w, f.hopCount)) == if f.hopCount >= f.maxHops then None else Some(Repack(w, f.hopCount + 1))
  {
    HeaderReads(w);
    assert w.fields.(hopCount := w.fields.hopCount) == w.fields;
  }

  lemma RepackChangesHopByte(w: Wire, h: nat, k: nat)
    requires Packable(w.fields) && |w.sig| == SIG_SIZE && h < 256 && k < 256
    ensures OnlyHopByteDiffers(Repack(w, h), Repack(w, k))
  {
  }

  lemma {:induction false} RelayedIsRepacked(w: Wire, times: nat)
    requires Packable(w.fields) && w.fields.hopCount == 0 && |w.sig| == SIG_SIZE
    ensures AfterRelays(Repack(w, 0), times) == if times <= w.fields.maxHops then Some(Repack(w, times)) else None
  {
    if times > 0 {
      RelayedIsRepacked(w, times - 1);
      if times - 1 <= w.fields.maxHops {
        RelayStep(w.(fields := w.fields.(hopCount := times - 1)));
      }
    }
  }

  /** An originator starts at hop 0; after any number of relays it either has run out of hops, which
      happens exactly past max_hops, or reads as the same claim at that many hops, verifies under the
      originator's key, and differs from the first datagram in its hop byte alone. */
  lemma RelayedStillVerifies(c: Crypto, f: Fields, signKey: Bytes, times: nat)
    requires Sound(c) && Packable(f) && f.hopCount == 0
    ensures var first := Pack(c, f, signKey).value; var r := AfterRelays(first, times);
            && (r.Some? <==> times <= f.maxHops)
            && (r.Some? ==>
                  var w := Wire(f.(hopCount := times), c.sign(signKey, SignedBytes(f)));
                  && Packable(w.fields) && Unpack(r.value) == Ok(w) && SignedBy(c, w, c.publicOf(signKey))
                  && OnlyHopByteDiffers(first, r.value))
  {
    var w := Wire(f, c.sign(signKey, SignedBytes(f)));
    assert f.(hopCount := 0) == f;
    RelayedIsRepacked(w, times);
    if times <= f.maxHops {
      HeaderReads(w.(fields := f.(hopCount := times)));
      RepackChangesHopByte(w, 0, times);
      SignedBytesDetermine(f, f.(hopCount := times));
    }
  }
}
