/** Packet framing (mesh/transport.py:61-284).  A packet is
    version(1) type(1) sender_id(32) payload_len(2) payload mac(16). */
module Packet {
  import opened Bytes
  import opened Wrappers
  import opened Primitives

  const PROTOCOL_VERSION: nat := 1
  const HEADER_SIZE: nat := 36
  const OVERHEAD: nat := HEADER_SIZE + MAC_SIZE
  const MTU: nat := 1400
  const FRAG_HEADER_SIZE: nat := 6
  const MAX_FRAG_PT: nat := MTU - OVERHEAD - FRAG_HEADER_SIZE - NONCE_SIZE - TAG_SIZE - SIG_SIZE   // 1250
  const MAX_FRAG_TOTAL: nat := 255

  datatype PacketType =
    | HANDSHAKE | HANDSHAKE_RESP | KEY_INIT | KEY_ACK | MESSAGE | ACK | PING | PONG | STORE_FORWARD | ORIGINATOR

  function Code(t: PacketType): byte {
    match t
    case HANDSHAKE => 0x01
    case HANDSHAKE_RESP => 0x02
    case KEY_INIT => 0x03
    case KEY_ACK => 0x04
    case MESSAGE => 0x05
    case ACK => 0x06
    case PING => 0x07
    case PONG => 0x08
    case STORE_FORWARD => 0x09
    case ORIGINATOR => 0x0A
  }

  function OfCode(b: byte): Option<PacketType> {
    match b
    case 0x01 => Some(HANDSHAKE)
    case 0x02 => Some(HANDSHAKE_RESP)
    case 0x03 => Some(KEY_INIT)
    case 0x04 => Some(KEY_ACK)
    case 0x05 => Some(MESSAGE)
    case 0x06 => Some(ACK)
    case 0x07 => Some(PING)
    case 0x08 => Some(PONG)
    case 0x09 => Some(STORE_FORWARD)
    case 0x0A => Some(ORIGINATOR)
    case _ => None
  }

  predicate IsHandshake(t: PacketType) {
    t in {HANDSHAKE, HANDSHAKE_RESP, KEY_INIT, KEY_ACK}
  }

  lemma Pow256Small()
    ensures Pow256(1) == 0x100 && Pow256(2) == 0x1_0000 && Pow256(4) == 0x1_0000_0000
  {
    assert Pow256(3) == 0x100 * Pow256(2);
  }

  function Header(t: PacketType, senderId: Bytes, payloadLen: nat): (h: Bytes)
    requires |senderId| == 32 && payloadLen < 0x1_0000
    ensures |h| == HEADER_SIZE
  {
    Pow256Small();
    [PROTOCOL_VERSION as byte, Code(t)] + senderId + BE(payloadLen, 2)
  }

  function ComputeMac(c: Crypto, key: Bytes, header: Bytes, payload: Bytes): Bytes {
    var digest := c.hmac(key, header + payload);
    if |digest| <= MAC_SIZE then digest else digest[..MAC_SIZE]
  }

  function BuildPacket(c: Crypto, t: PacketType, senderId: Bytes, payload: Bytes, key: Option<Bytes>): Bytes
    requires |senderId| == 32 && |payload| < 0x1_0000
  {
    var header := Header(t, senderId, |payload|);
    var mac := if key.None? || IsHandshake(t) then Zeros(MAC_SIZE) else ComputeMac(c, key.value, header, payload);
    header + payload + mac
  }

  datatype Parsed = Parsed(ptype: PacketType, senderId: Bytes, payload: Bytes)

  datatype ParseError = TooShort | BadVersion | BadType

  function ParsePacket(data: Bytes): Result<Parsed, ParseError> {
    if |data| < OVERHEAD then Err(TooShort)
    else if data[0] as nat != PROTOCOL_VERSION then Err(BadVersion)
    else
      var end := HEADER_SIZE + FromBE(data[34..36]);
      var payload := if end <= |data| then data[HEADER_SIZE..end] else data[HEADER_SIZE..];
      match OfCode(data[1])
      case None => Err(BadType)
      case Some(t) => Ok(Parsed(t, data[2..34], payload))
  }

  predicate VerifyMac(c: Crypto, key: Bytes, packet: Bytes)
    requires |packet| >= OVERHEAD
  {
    var n := |packet| - MAC_SIZE;
    ComputeMac(c, key, packet[..HEADER_SIZE], packet[HEADER_SIZE..n]) == packet[n..]
  }

  /** Whatever is built parses back to the same fields, and verifies under the key it was built with. */
  lemma BuiltPacketParses(c: Crypto, t: PacketType, senderId: Bytes, payload: Bytes, key: Option<Bytes>)
    requires Sound(c) && |senderId| == 32 && |payload| < 0x1_0000
    ensures var p := BuildPacket(c, t, senderId, payload, key);
            && |p| == |payload| + OVERHEAD
            && p[..HEADER_SIZE] == Header(t, senderId, |payload|)
            && ParsePacket(p) == Ok(Parsed(t, senderId, payload))
            && (key.Some? && !IsHandshake(t) ==> VerifyMac(c, key.value, p))
  {
    Pow256Small();
    var p := BuildPacket(c, t, senderId, payload, key);
    var h := Header(t, senderId, |payload|);
    assert p[..HEADER_SIZE] == h;
    assert p[34..36] == h[34..36] == BE(|payload|, 2);
    DecodeBE(|payload|, 2);
    assert p[2..34] == senderId;
    assert p[HEADER_SIZE..HEADER_SIZE + |payload|] == payload;
    if key.Some? && !IsHandshake(t) {
      assert p[|p| - MAC_SIZE..] == ComputeMac(c, key.value, h, payload);
    }
  }

  /** A packet passes under a key exactly if its last 16 bytes are the start of the HMAC of all before them. */
  lemma MacIsHmac(c: Crypto, key: Bytes, p: Bytes)
    requires Sound(c) && |p| >= 52
    ensures VerifyMac(c, key, p) <==> p[|p| - 16..] == c.hmac(key, p[..|p| - 16])[..16]
  {
    var n := |p| - 16;
    assert p[..36] + p[36..n] == p[..n];
  }

  /** The codes of the ten types; the first four are the handshake's. */
  lemma CodesAgree(t: PacketType, b: byte)
    ensures OfCode(b) == Some(t) <==> Code(t) == b
    ensures OfCode(b).Some? <==> 1 <= b <= 10
    ensures IsHandshake(t) <==> Code(t) <= 4
    ensures Code(HANDSHAKE) == 1 && Code(HANDSHAKE_RESP) == 2 && Code(KEY_INIT) == 3 && Code(KEY_ACK) == 4
    ensures Code(MESSAGE) == 5 && Code(ACK) == 6 && Code(PING) == 7 && Code(PONG) == 8
    ensures Code(STORE_FORWARD) == 9 && Code(ORIGINATOR) == 10
  {
  }

  lemma TwoBytes(b: Bytes)
    requires |b| == 2
    ensures FromBE(b) == 256 * b[0] as nat + b[1] as nat
  {
    assert b[..1][..0] == [] && FromBE(b[..1]) == b[0] as nat;
  }

  /** Exactly what is read of any datagram, and why others are refused.  The length field is trusted: a
      payload that would go past the end takes in the MAC. */
  lemma ParsesExactly(data: Bytes)
    ensures ParsePacket(data) == Err(TooShort) <==> |data| < 52
    ensures ParsePacket(data) == Err(BadVersion) <==> |data| >= 52 && data[0] != 1
    ensures ParsePacket(data) == Err(BadType) <==> |data| >= 52 && data[0] == 1 && !(1 <= data[1] <= 10)
    ensures ParsePacket(data).Ok? ==>
              var q := ParsePacket(data).value; var end := 36 + 256 * data[34] as nat + data[35] as nat;
              && Code(q.ptype) == data[1] && q.senderId == data[2..34]
              && q.payload == data[36..if end <= |data| then end else |data|]
  {
    if |data| >= 52 {
      TwoBytes(data[34..36]);
    }
  }

  /** A datagram whose length field is right is written back byte for byte from what was read. */
  lemma ReadIsWritten(data: Bytes)
    requires ParsePacket(data).Ok? && |data| == 52 + 256 * data[34] as nat + data[35] as nat
    ensures var q := ParsePacket(data).value;
            && |q.payload| == |data| - 52
            && Header(q.ptype, q.senderId, |q.payload|) + q.payload + data[|data| - 16..] == data
  {
    var q, n := ParsePacket(data).value, |data| - 16;
    ParsesExactly(data);
    TwoBytes(data[34..36]);
    EncodeBE(data[34..36]);
    Pow256Small();
    assert [data[0], data[1]] + data[2..34] + data[34..36] == data[..36];
    assert data[..36] + data[36..n] == data[..n];
    assert data[..n] + data[n..] == data;
  }

  // ---------------------------------------------------------------- MESSAGE payloads

  /** msg_id(4) frag_idx(1) frag_total(1) */
  function FragHeader(msgId: nat, idx: nat, total: nat): (h: Bytes)
    requires msgId < 0x1_0000_0000 && idx < 256 && total < 256
    ensures |h| == FRAG_HEADER_SIZE
  {
    Pow256Small();
    BE(msgId, 4) + [idx as byte, total as byte]
  }

  datatype Frag = Frag(msgId: nat, idx: nat, total: nat, chunk: Bytes)

  predicate Encodable(f: Frag) {
    f.msgId < 0x1_0000_0000 && f.idx < f.total <= MAX_FRAG_TOTAL && |f.chunk| <= MAX_FRAG_PT
  }

  function MessagePacket(c: Crypto, senderId: Bytes, key: Bytes, nonce: Bytes, f: Frag): Bytes
    requires Sound(c) && |senderId| == 32 && |nonce| == NONCE_SIZE && Encodable(f)
  {
    var aad := Header(MESSAGE, senderId, FRAG_HEADER_SIZE + NONCE_SIZE + |f.chunk| + TAG_SIZE);
    var payload := FragHeader(f.msgId, f.idx, f.total) + nonce + c.seal(key, nonce, f.chunk, aad);
    BuildPacket(c, MESSAGE, senderId, payload, Some(key))
  }

  /** What the receiver makes of a MESSAGE payload: None where it drops the packet. */
  function ReadFrag(c: Crypto, key: Bytes, payload: Bytes, header: Bytes): Option<Frag> {
    if |payload| < FRAG_HEADER_SIZE + NONCE_SIZE + TAG_SIZE then None
    else
      var msgId, idx, total := FromBE(payload[..4]), payload[4] as nat, payload[5] as nat;
      if total == 0 || idx >= total then None
      else
        var nonce := payload[FRAG_HEADER_SIZE..FRAG_HEADER_SIZE + NONCE_SIZE];
        match c.open(key, nonce, payload[FRAG_HEADER_SIZE + NONCE_SIZE..], header)
        case None => None
        case Some(chunk) => Some(Frag(msgId, idx, total, chunk))
  }

  /** Exactly which payloads hold a fragment, and which: the header must make sense and the rest must open. */
  lemma FragReadExactly(c: Crypto, key: Bytes, payload: Bytes, header: Bytes, f: Frag)
    ensures ReadFrag(c, key, payload, header) == Some(f) <==>
              && |payload| >= 34 && f.idx < f.total && f.msgId < 0x1_0000_0000 && f.total < 256
              && FromBE(payload[..4]) == f.msgId && payload[4] as nat == f.idx && payload[5] as nat == f.total
              && payload[..6] == FragHeader(f.msgId, f.idx, f.total)
              && c.open(key, payload[6..18], payload[18..], header) == Some(f.chunk)
  {
    Pow256Small();
    if |payload| >= 34 {
      EncodeBE(payload[..4]);
      assert payload[..6] == payload[..4] + [payload[4], payload[5]];
      if f.msgId < 0x1_0000_0000 {
        DecodeBE(f.msgId, 4);
      }
      if f.msgId < 0x1_0000_0000 && f.idx < f.total < 256 {
        assert FragHeader(f.msgId, f.idx, f.total)[..4] == BE(f.msgId, 4);
        assert payload[..6][..4] == payload[..4];
      }
    }
  }

  /** The receiver reads from a packet exactly the fragment the sender put in: it parses, its MAC
      verifies, the additional data agrees, and it fits the MTU. */
  lemma MessagePacketReads(c: Crypto, senderId: Bytes, key: Bytes, nonce: Bytes, f: Frag)
    requires Sound(c) && |senderId| == 32 && |nonce| == NONCE_SIZE && Encodable(f)
    ensures var p := MessagePacket(c, senderId, key, nonce, f);
            && OVERHEAD <= |p| <= 1336 && |p| <= MTU
            && VerifyMac(c, key, p)
            && ParsePacket(p).Ok?
            && var q := ParsePacket(p).value;
            && q.ptype == MESSAGE && q.senderId == senderId
            && ReadFrag(c, key, q.payload, p[..HEADER_SIZE]) == Some(f)
  {
    var aad := Header(MESSAGE, senderId, FRAG_HEADER_SIZE + NONCE_SIZE + |f.chunk| + TAG_SIZE);
    var fh := FragHeader(f.msgId, f.idx, f.total);
    var ct := c.seal(key, nonce, f.chunk, aad);
    var payload := fh + nonce + ct;
    BuiltPacketParses(c, MESSAGE, senderId, payload, Some(key));
    Pow256Small();
    DecodeBE(f.msgId, 4);
    assert payload[..4] == BE(f.msgId, 4);
    assert payload[4] == f.idx as byte && payload[5] == f.total as byte;
    assert payload[FRAG_HEADER_SIZE..FRAG_HEADER_SIZE + NONCE_SIZE] == nonce;
    assert payload[FRAG_HEADER_SIZE + NONCE_SIZE..] == ct;
  }
}
