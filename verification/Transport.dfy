/** The data path of one node's transport (mesh/transport.py): send, the MESSAGE and ACK handlers
    and one sweep of the retry loop, as methods over the fields the source updates. */
module Transport {
  import opened Addresses
  import opened Bytes
  import opened Fragments
  import opened Packet
  import opened Primitives
  import opened Wrappers

  const MAX_RETRIES: nat := 3
  const RETRY_BACKOFFS: seq<real> := [0.5, 1.0, 2.0]

  datatype SessionInfo = SessionInfo(
    peerId: PeerId, peerAddr: Addr, sessionKey: Bytes, verifyKey: Bytes,
    lastActive: real, bytesSent: nat, bytesRecv: nat)

  datatype InFlight = InFlight(msgId: nat, packet: Bytes, peerAddr: Addr, attempt: nat, nextRetryAt: real)

  datatype SendError = NoSession | StructError

  datatype Datagram = Datagram(dst: Addr, packet: Bytes)

  // ---------------------------------------------------------------- send

  function SignedText(c: Crypto, signKey: Bytes, message: Bytes): Bytes {
    c.sign(signKey, message) + message
  }

  /** struct.pack accepts the fragment header of every fragment. */
  predicate Sendable(msgId: nat, message: Bytes) {
    msgId < 0x1_0000_0000 && ChunkCount(SIG_SIZE + |message|) <= MAX_FRAG_TOTAL
  }

  function FragOf(c: Crypto, signKey: Bytes, msgId: nat, message: Bytes, i: nat): (f: Frag)
    requires Sound(c) && Sendable(msgId, message) && i < ChunkCount(SIG_SIZE + |message|)
    ensures Encodable(f)
  {
    Frag(msgId, i, ChunkCount(SIG_SIZE + |message|), Chunk(SignedText(c, signKey, message), i))
  }

  /** The i-th datagram of a message, whose nonce the caller's randomness supplies. */
  function DatagramOf(c: Crypto, senderId: Bytes, signKey: Bytes, s: SessionInfo, msgId: nat, message: Bytes,
                      nonces: nat -> Bytes, i: nat): Datagram
    requires Sound(c) && |senderId| == 32 && |nonces(i)| == NONCE_SIZE
    requires Sendable(msgId, message) && i < ChunkCount(SIG_SIZE + |message|)
  {
    Datagram(s.peerAddr, MessagePacket(c, senderId, s.sessionKey, nonces(i), FragOf(c, signKey, msgId, message, i)))
  }

  /** `sent` is the first n datagrams of the message, in order. */
  ghost predicate IsMessage(sent: seq<Datagram>, c: Crypto, senderId: Bytes, signKey: Bytes, s: SessionInfo,
                            msgId: nat, message: Bytes, nonces: nat -> Bytes, n: nat)
    requires Sound(c) && |senderId| == 32 && (forall i :: |nonces(i)| == NONCE_SIZE)
    requires Sendable(msgId, message) && n <= ChunkCount(SIG_SIZE + |message|)
  {
    && |sent| == n
    && forall i :: 0 <= i < n ==> sent[i] == DatagramOf(c, senderId, signKey, s, msgId, message, nonces, i)
  }

  lemma MessageGrows(sent: seq<Datagram>, d: Datagram, c: Crypto, senderId: Bytes, signKey: Bytes, s: SessionInfo,
                     msgId: nat, message: Bytes, nonces: nat -> Bytes, n: nat)
    requires Sound(c) && |senderId| == 32 && (forall i :: |nonces(i)| == NONCE_SIZE)
    requires Sendable(msgId, message) && n < ChunkCount(SIG_SIZE + |message|)
    requires IsMessage(sent, c, senderId, signKey, s, msgId, message, nonces, n)
    requires d == DatagramOf(c, senderId, signKey, s, msgId, message, nonces, n)
    ensures IsMessage(sent + [d], c, senderId, signKey, s, msgId, message, nonces, n + 1)
  {
  }

  /** The whole message went out, and the table holds its last fragment. */
  ghost predicate WentOut(sent: seq<Datagram>, c: Crypto, senderId: Bytes, signKey: Bytes, s: SessionInfo,
                          msgId: nat, message: Bytes, nonces: nat -> Bytes, clock: nat -> real,
                          before: InFlightTable, after: InFlightTable)
    requires Sound(c) && |senderId| == 32 && (forall i :: |nonces(i)| == NONCE_SIZE) && Sendable(msgId, message)
  {
    && IsMessage(sent, c, senderId, signKey, s, msgId, message, nonces, ChunkCount(SIG_SIZE + |message|))
    && after == WithLast(before, sent, msgId, s.peerAddr, clock)
  }

  /** The in-flight table after these fragments of a message: it holds the last of them. */
  function WithLast(before: InFlightTable, sent: seq<Datagram>, msgId: nat, peerAddr: Addr, clock: nat -> real)
    : InFlightTable
  {
    if sent == [] then before
    else before[msgId := FreshEntry(msgId, sent[|sent| - 1].packet, peerAddr, clock(|sent| - 1))]
  }

  function FreshEntry(msgId: nat, packet: Bytes, peerAddr: Addr, now: real): InFlight {
    InFlight(msgId, packet, peerAddr, 1, now + RETRY_BACKOFFS[0])
  }

  /** A message is sendable exactly up to 318686 bytes. */
  lemma SendableLimit(msgId: nat, message: Bytes)
    requires msgId < 0x1_0000_0000
    ensures Sendable(msgId, message) <==> |message| <= 318686
  {
  }

  // ---------------------------------------------------------------- retry

  predicate Expired(e: InFlight, now: real) {
    now >= e.nextRetryAt
  }

  /** An entry after it was transmitted again at `now`. */
  function Retried(e: InFlight, now: real): InFlight
    requires e.attempt < MAX_RETRIES
  {
    e.(nextRetryAt := now + RETRY_BACKOFFS[e.attempt], attempt := e.attempt + 1)
  }

  type InFlightTable = map<nat, InFlight>

  predicate GivesUp(t: InFlightTable, m: nat, now: real) {
    m in t && Expired(t[m], now) && t[m].attempt >= MAX_RETRIES
  }

  predicate Retransmits(t: InFlightTable, m: nat, now: real) {
    m in t && Expired(t[m], now) && t[m].attempt < MAX_RETRIES
  }

  function Swept(t: InFlightTable, now: real): InFlightTable {
    map m | m in t && !GivesUp(t, m, now) :: if Retransmits(t, m, now) then Retried(t[m], now) else t[m]
  }

  /** What a sweep does with an expired entry: send its packet again, or report the message as failed. */
  datatype SweepEvent = Resent(d: Datagram) | Failed(addr: Addr)

  function EventOf(e: InFlight): SweepEvent {
    if e.attempt >= MAX_RETRIES then Failed(e.peerAddr) else Resent(Datagram(e.peerAddr, e.packet))
  }

  /** What a sweep does: one event for every entry whose wait is over. */
  function Events(t: InFlightTable, now: real): map<nat, SweepEvent> {
    map m | m in t && Expired(t[m], now) :: EventOf(t[m])
  }

  function EventsPart(t: InFlightTable, done: set<nat>): map<nat, SweepEvent> {
    map m | m in t && m in done :: EventOf(t[m])
  }

  /** The table once the sweep has gone over the entries in `done`. */
  function SweptPart(t: InFlightTable, done: set<nat>, now: real): InFlightTable {
    map m | m in t && !(m in done && t[m].attempt >= MAX_RETRIES) :: if m in done then Retried(t[m], now) else t[m]
  }

  /** A session once a message of this size was received on it. */
  function Received(s: SessionInfo, size: nat, now: real): (r: SessionInfo)
    ensures r.bytesRecv == s.bytesRecv + size && r.lastActive == now && r.bytesSent == s.bytesSent
    ensures r.(bytesRecv := s.bytesRecv, lastActive := s.lastActive) == s
  {
    s.(bytesRecv := s.bytesRecv + size, lastActive := now)
  }

  function AckPacket(c: Crypto, senderId: Bytes, key: Bytes, msgId: Bytes): Bytes
    requires |senderId| == 32 && |msgId| == 4
  {
    BuildPacket(c, ACK, senderId, msgId, Some(key))
  }

  function PongPacket(c: Crypto, senderId: Bytes, key: Bytes): Bytes
    requires |senderId| == 32
  {
    BuildPacket(c, PONG, senderId, [], Some(key))
  }

  type Sessions = map<PeerId, SessionInfo>
  type ByAddr = map<Addr, PeerId>

  /** The fragment a MESSAGE payload carries and the session it belongs to. */
  function FragFrom(c: Crypto, sessions: Sessions, byAddr: ByAddr, payload: Bytes, addr: Addr, full: Bytes)
    : Option<Frag>
    requires |full| >= OVERHEAD
  {
    if addr !in byAddr || byAddr[addr] !in sessions then None
    else ReadFrag(c, sessions[byAddr[addr]].sessionKey, payload, full[..HEADER_SIZE])
  }

  function AfterPayload(c: Crypto, sessions: Sessions, byAddr: ByAddr, bufs: Buffers,
                        payload: Bytes, addr: Addr, full: Bytes): Buffers
    requires |full| >= OVERHEAD
  {
    match FragFrom(c, sessions, byAddr, payload, addr, full)
    case None => bufs
    case Some(f) => AfterFrag(bufs, byAddr[addr], f)
  }

  function DeliveredBy(c: Crypto, sessions: Sessions, byAddr: ByAddr, bufs: Buffers,
                       payload: Bytes, addr: Addr, full: Bytes): Option<(PeerId, Bytes)>
    requires |full| >= OVERHEAD
  {
    match FragFrom(c, sessions, byAddr, payload, addr, full)
    case None => None
    case Some(f) =>
      match Delivery(c, sessions[byAddr[addr]].verifyKey, bufs, byAddr[addr], f)
      case None => None
      case Some(message) => Some((byAddr[addr], message))
  }

  /** What a datagram does to the reassembly buffers: nothing unless it is a MESSAGE whose MAC verifies. */
  function AfterDatagram(c: Crypto, sessions: Sessions, byAddr: ByAddr, bufs: Buffers, data: Bytes, addr: Addr)
    : Buffers
  {
    if IsMessageDatagram(c, sessions, byAddr, data, addr)
    then AfterPayload(c, sessions, byAddr, bufs, ParsePacket(data).value.payload, addr, data)
    else bufs
  }

  function DatagramDelivers(c: Crypto, sessions: Sessions, byAddr: ByAddr, bufs: Buffers, data: Bytes, addr: Addr)
    : Option<(PeerId, Bytes)>
  {
    if IsMessageDatagram(c, sessions, byAddr, data, addr)
    then DeliveredBy(c, sessions, byAddr, bufs, ParsePacket(data).value.payload, addr, data)
    else None
  }

  /** Dispatch passes the MAC check for this address: no peer, or one whose session key verifies.  A
      peer whose id is the empty string counts as none. */
  predicate Authentic(c: Crypto, sessions: Sessions, byAddr: ByAddr, data: Bytes, addr: Addr)
    requires |data| >= OVERHEAD
  {
    addr in byAddr && byAddr[addr] != "" ==>
      byAddr[addr] in sessions && VerifyMac(c, sessions[byAddr[addr]].sessionKey, data)
  }

  predicate IsMessageDatagram(c: Crypto, sessions: Sessions, byAddr: ByAddr, data: Bytes, addr: Addr)
    ensures IsMessageDatagram(c, sessions, byAddr, data, addr) ==> ParsePacket(data).Ok? && |data| >= OVERHEAD
  {
    ParsePacket(data).Ok? && ParsePacket(data).value.ptype == MESSAGE && Authentic(c, sessions, byAddr, data, addr)
  }

  /** The message id a datagram acknowledges: it is an ACK whose MAC verifies and that holds an id. */
  function AckedBy(c: Crypto, sessions: Sessions, byAddr: ByAddr, data: Bytes, addr: Addr): Option<nat> {
    var p := ParsePacket(data);
    if p.Ok? && p.value.ptype == ACK && Authentic(c, sessions, byAddr, data, addr) && |p.value.payload| >= 4
    then Some(FromBE(p.value.payload[..4])) else None
  }

  /** Whose session a PING from this address is answered in. */
  function PingPeer(byAddr: ByAddr, addr: Addr): PeerId {
    if addr in byAddr then byAddr[addr] else ""
  }

  predicate IsPing(c: Crypto, sessions: Sessions, byAddr: ByAddr, data: Bytes, addr: Addr) {
    && ParsePacket(data).Ok? && ParsePacket(data).value.ptype == PING && Authentic(c, sessions, byAddr, data, addr)
    && PingPeer(byAddr, addr) in sessions
  }

  /** The type under which a datagram goes on to a handshake handler or a registered callback. */
  function HandedOn(c: Crypto, sessions: Sessions, byAddr: ByAddr, data: Bytes, addr: Addr): Option<PacketType> {
    var p := ParsePacket(data);
    if p.Ok? && p.value.ptype !in {MESSAGE, ACK, PING, PONG}
       && (IsHandshake(p.value.ptype) || Authentic(c, sessions, byAddr, data, addr))
    then Some(p.value.ptype) else None
  }

  // ---------------------------------------------------------------- which packets are handled

  /** The address has a peer (one of a nonempty id), but not one whose session key makes the last 16 bytes. */
  predicate Forged(c: Crypto, sessions: Sessions, byAddr: ByAddr, data: Bytes, addr: Addr)
    requires |data| >= 52
  {
    var n := |data| - 16;
    && addr in byAddr && byAddr[addr] != ""
    && (byAddr[addr] in sessions ==> data[n..] != ShortMac(c, sessions[byAddr[addr]].sessionKey, data[..n]))
  }

  /** The first 16 bytes of an HMAC. */
  function ShortMac(c: Crypto, key: Bytes, m: Bytes): Bytes {
    var digest := c.hmac(key, m);
    if |digest| <= 16 then digest else digest[..16]
  }

  /** A forged packet of any type but the handshake's has no effect at all. */
  lemma ForgedIsRefused(c: Crypto, sessions: Sessions, byAddr: ByAddr, bufs: Buffers, data: Bytes, addr: Addr)
    requires Sound(c) && |data| >= 52 && Forged(c, sessions, byAddr, data, addr)
    ensures !Authentic(c, sessions, byAddr, data, addr)
    ensures AfterDatagram(c, sessions, byAddr, bufs, data, addr) == bufs
    ensures DatagramDelivers(c, sessions, byAddr, bufs, data, addr) == None
    ensures AckedBy(c, sessions, byAddr, data, addr) == None && !IsPing(c, sessions, byAddr, data, addr)
    ensures HandedOn(c, sessions, byAddr, data, addr).Some? ==> data[1] in {0x01, 0x02, 0x03, 0x04}
  {
    if byAddr[addr] in sessions {
      MacIsHmac(c, sessions[byAddr[addr]].sessionKey, data);
    }
    ParsesExactly(data);
  }

  /** All others pass the check. */
  lemma OnlyForgedIsRefused(c: Crypto, sessions: Sessions, byAddr: ByAddr, data: Bytes, addr: Addr)
    requires Sound(c) && |data| >= 52
    ensures Authentic(c, sessions, byAddr, data, addr) <==> !Forged(c, sessions, byAddr, data, addr)
  {
    if addr in byAddr && byAddr[addr] in sessions {
      MacIsHmac(c, sessions[byAddr[addr]].sessionKey, data);
    }
  }

  /** Every packet made with the session key goes where its type belongs: a PING is answered, a PONG
      ignored, MESSAGE and ACK are handled here, and all others go on. */
  lemma BuiltGoesOn(c: Crypto, sessions: Sessions, byAddr: ByAddr, t: PacketType, id: Bytes, payload: Bytes, addr: Addr)
    requires Sound(c) && |id| == 32 && |payload| < 0x1_0000
    requires addr in byAddr && byAddr[addr] in sessions
    ensures var data := BuildPacket(c, t, id, payload, Some(sessions[byAddr[addr]].sessionKey));
            && (IsPing(c, sessions, byAddr, data, addr) <==> t == PING)
            && (IsMessageDatagram(c, sessions, byAddr, data, addr) <==> t == MESSAGE)
            && AckedBy(c, sessions, byAddr, data, addr)
               == (if t == ACK && |payload| >= 4 then Some(FromBE(payload[..4])) else None)
            && HandedOn(c, sessions, byAddr, data, addr)
               == if t in {MESSAGE, ACK, PING, PONG} then None else Some(t)
  {
    BuiltPacketParses(c, t, id, payload, Some(sessions[byAddr[addr]].sessionKey));
  }

  /** The ORIGINATOR packets of the router carry no MAC.  From an address with a peer they go on only
      if that peer has a session under which the MAC happens to be zero. */
  lemma UnkeyedGoesOn(c: Crypto, sessions: Sessions, byAddr: ByAddr, id: Bytes, payload: Bytes, addr: Addr)
    requires Sound(c) && |id| == 32 && |payload| < 0x1_0000
    ensures var data := BuildPacket(c, ORIGINATOR, id, payload, None);
            HandedOn(c, sessions, byAddr, data, addr) ==
              if Forged(c, sessions, byAddr, data, addr) then None else Some(ORIGINATOR)
    ensures var data := BuildPacket(c, ORIGINATOR, id, payload, None);
            Forged(c, sessions, byAddr, data, addr) <==>
              && addr in byAddr && byAddr[addr] != ""
              && (byAddr[addr] in sessions ==>
                    ShortMac(c, sessions[byAddr[addr]].sessionKey, Header(ORIGINATOR, id, |payload|) + payload)
                    != Zeros(16))
  {
    var data := BuildPacket(c, ORIGINATOR, id, payload, None);
    BuiltPacketParses(c, ORIGINATOR, id, payload, None);
    OnlyForgedIsRefused(c, sessions, byAddr, data, addr);
    assert data[..|data| - 16] == Header(ORIGINATOR, id, |payload|) + payload && data[|data| - 16..] == Zeros(16);
  }

  /** The sender reads from the receiver's acknowledgement the id of the message it sent. */
  lemma AckIsRead(c: Crypto, senderId: Bytes, key: Bytes, m: nat, sessions: Sessions, byAddr: ByAddr, addr: Addr)
    requires Sound(c) && |senderId| == 32 && m < Pow256(4)
    requires addr in byAddr ==> byAddr[addr] in sessions && sessions[byAddr[addr]].sessionKey == key
    ensures AckedBy(c, sessions, byAddr, AckPacket(c, senderId, key, BE(m, 4)), addr) == Some(m)
  {
    BuiltPacketParses(c, ACK, senderId, BE(m, 4), Some(key));
    DecodeBE(m, 4);
    assert BE(m, 4)[..4] == BE(m, 4);
  }

  /** The answer to a PING is an authentic PONG of the same session, which its receiver ignores. */
  lemma PongIsIgnored(c: Crypto, senderId: Bytes, sessions: Sessions, byAddr: ByAddr, addr: Addr)
    requires Sound(c) && |senderId| == 32 && addr in byAddr && byAddr[addr] in sessions
    ensures var data := PongPacket(c, senderId, sessions[byAddr[addr]].sessionKey);
            && ParsePacket(data) == Ok(Parsed(PONG, senderId, []))
            && Authentic(c, sessions, byAddr, data, addr) && !IsPing(c, sessions, byAddr, data, addr)
            && AckedBy(c, sessions, byAddr, data, addr).None? && HandedOn(c, sessions, byAddr, data, addr).None?
  {
    BuiltPacketParses(c, PONG, senderId, [], Some(sessions[byAddr[addr]].sessionKey));
  }

  class MeshTransport {
    const c: Crypto
    const senderId: Bytes
    const signKey: Bytes
    var sessions: map<PeerId, SessionInfo>
    var sessionsByAddr: map<Addr, PeerId>
    var inFlight: InFlightTable
    var fragBufs: Buffers
    var nextMsgId: nat

    /** Entries are filed under their own ids; nothing else is asked of the state. */
    ghost predicate Valid()
      reads this
    {
      && Sound(c) && |senderId| == 32
      && forall m :: m in inFlight ==> inFlight[m].msgId == m
    }

    constructor (c: Crypto, senderId: Bytes, signKey: Bytes)
      requires Sound(c) && |senderId| == 32
      ensures Valid() && this.c == c && this.senderId == senderId && this.signKey == signKey
      ensures sessions == map[] && sessionsByAddr == map[] && inFlight == map[] && fragBufs == map[] && nextMsgId == 1
    {
      this.c, this.senderId, this.signKey := c, senderId, signKey;
      sessions, sessionsByAddr, inFlight, fragBufs, nextMsgId := map[], map[], map[], map[], 1;
    }

    /** The packet of one fragment, put together by hand so that its header can serve as additional data. */
    method PackFragment(key: Bytes, nonce: Bytes, f: Frag) returns (packet: Bytes)
      requires Valid() && |nonce| == NONCE_SIZE && Encodable(f)
      ensures packet == MessagePacket(c, senderId, key, nonce, f)
    {
      var fragHeader := FragHeader(f.msgId, f.idx, f.total);
      var payloadLen := FRAG_HEADER_SIZE + NONCE_SIZE + |f.chunk| + TAG_SIZE;
      var header := Header(MESSAGE, senderId, payloadLen);
      var payload := fragHeader + nonce + c.seal(key, nonce, f.chunk, header);
      packet := header + payload + ComputeMac(c, key, header, payload);
    }

    /** The loop over the fragments; the in-flight entry is overwritten for each. */
    method SendFragments(s: SessionInfo, msgId: nat, message: Bytes, total: nat, nonces: nat -> Bytes,
                         clock: nat -> real)
      returns (sent: seq<Datagram>)
      requires Valid() && forall i :: |nonces(i)| == NONCE_SIZE
      requires Sendable(msgId, message) && total == ChunkCount(SIG_SIZE + |message|) > 0
      modifies this`inFlight
      ensures Valid()
      ensures WentOut(sent, c, senderId, signKey, s, msgId, message, nonces, clock, old(inFlight), inFlight)
    {
      sent := [];
      for i := 0 to total
        invariant Valid()
        invariant IsMessage(sent, c, senderId, signKey, s, msgId, message, nonces, i)
        invariant inFlight == WithLast(old(inFlight), sent, msgId, s.peerAddr, clock)
      {
        var d := SendFragment(s, msgId, message, i, nonces, clock(i));
        MessageGrows(sent, d, c, senderId, signKey, s, msgId, message, nonces, i);
        sent := sent + [d];
      }
    }

    method SendFragment(s: SessionInfo, msgId: nat, message: Bytes, i: nat, nonces: nat -> Bytes, now: real)
      returns (d: Datagram)
      requires Valid() && |nonces(i)| == NONCE_SIZE
      requires Sendable(msgId, message) && i < ChunkCount(SIG_SIZE + |message|)
      modifies this`inFlight
      ensures Valid()
      ensures d == DatagramOf(c, senderId, signKey, s, msgId, message, nonces, i)
      ensures inFlight == old(inFlight)[msgId := FreshEntry(msgId, d.packet, s.peerAddr, now)]
    {
      var packet := PackFragment(s.sessionKey, nonces(i), FragOf(c, signKey, msgId, message, i));
      inFlight := inFlight[msgId := FreshEntry(msgId, packet, s.peerAddr, now)];
      d := Datagram(s.peerAddr, packet);
    }

    /** `nonces` and `clock` are what os.urandom and time.monotonic return for each fragment, `now`
        what time.time does at the end. */
    method Send(peerId: PeerId, message: Bytes, nonces: nat -> Bytes, clock: nat -> real, now: real)
      returns (r: Result<nat, SendError>, sent: seq<Datagram>)
      requires Valid() && forall i :: |nonces(i)| == NONCE_SIZE
      modifies this`sessions, this`inFlight, this`nextMsgId
      ensures Valid()
      ensures peerId !in old(sessions) ==> r == Err(NoSession) && nextMsgId == old(nextMsgId)
      ensures peerId in old(sessions) ==> nextMsgId == old(nextMsgId) + 1
      ensures peerId in old(sessions) && !Sendable(old(nextMsgId), message) ==> r == Err(StructError)
      ensures peerId in old(sessions) && Sendable(old(nextMsgId), message) ==> r == Ok(old(nextMsgId))
      ensures r.Err? ==> sent == [] && inFlight == old(inFlight) && sessions == old(sessions)
      ensures peerId in old(sessions) && Sendable(old(nextMsgId), message) ==>
                var s, id := old(sessions)[peerId], old(nextMsgId);
                && WentOut(sent, c, senderId, signKey, s, id, message, nonces, clock, old(inFlight), inFlight)
                && sessions == old(sessions)[peerId := s.(bytesSent := s.bytesSent + |message|, lastActive := now)]
    {
      sent := [];
      if peerId !in sessions {
        return Err(NoSession), [];
      }
      var s := sessions[peerId];
      var msgId := nextMsgId;
      nextMsgId := nextMsgId + 1;
      var text := SignedText(c, signKey, message);
      assert |text| == SIG_SIZE + |message|;
      var total := ChunkCount(|text|);
      if msgId >= 0x1_0000_0000 || total > MAX_FRAG_TOTAL {
        return Err(StructError), [];   // the first struct.pack of the loop raises
      }
      sent := SendFragments(s, msgId, message, total, nonces, clock);
      sessions := sessions[peerId := s.(bytesSent := s.bytesSent + |message|, lastActive := now)];
      return Ok(msgId), sent;
    }

    /** Parse the fragment header and decrypt; nothing comes back where the packet is dropped. */
    method OpenFragment(key: Bytes, payload: Bytes, fullPacket: Bytes) returns (f: Option<Frag>)
      requires |fullPacket| >= OVERHEAD
      ensures f == ReadFrag(c, key, payload, fullPacket[..HEADER_SIZE])
    {
      if |payload| < FRAG_HEADER_SIZE + NONCE_SIZE + TAG_SIZE {
        return None;
      }
      var msgId, idx, total := FromBE(payload[..4]), payload[4] as nat, payload[5] as nat;
      if total == 0 || idx >= total {
        return None;
      }
      var nonce := payload[FRAG_HEADER_SIZE..FRAG_HEADER_SIZE + NONCE_SIZE];
      var ct := payload[FRAG_HEADER_SIZE + NONCE_SIZE..];
      var text := c.open(key, nonce, ct, fullPacket[..HEADER_SIZE]);
      if text.None? {
        return None;
      }
      return Some(Frag(msgId, idx, total, text.value));
    }

    /** Store a fragment; returns the joined text when it was the last one missing. */
    method StoreFragment(peer: PeerId, f: Frag) returns (assembled: Option<Bytes>)
      modifies this`fragBufs
      ensures fragBufs == AfterFrag(old(fragBufs), peer, f)
      ensures assembled == Assembled(old(fragBufs), peer, f)
    {
      var key := (peer, f.msgId);
      if key !in fragBufs {
        if |fragBufs| >= MAX_REASSEMBLY_BUFS {
          return None;
        }
        fragBufs := fragBufs[key := map[]];
      }
      var buf: Buffer := fragBufs[key][f.idx := f.chunk];
      fragBufs := fragBufs[key := buf];
      assert buf == BufferWith(old(fragBufs), key, f) && fragBufs == old(fragBufs)[key := buf];
      if |buf| < f.total {
        return None;
      }
      assembled := JoinAll(buf, f.total);
      if assembled.None? {
        return;   // KeyError: the buffer stays
      }
      fragBufs := fragBufs - {key};
      assert fragBufs == old(fragBufs) - {key};
    }

    static method JoinAll(buf: Buffer, total: nat) returns (joined: Option<Bytes>)
      ensures joined == if Joinable(buf, total) then Some(Join(buf, total)) else None
    {
      var text := [];
      for i := 0 to total
        invariant Joinable(buf, i) && text == Join(buf, i)
      {
        if i !in buf {
          return None;
        }
        text := text + buf[i];
      }
      return Some(text);
    }

    /** Returns the message given to the callbacks, if any, and the ACK sent for it. */
    method HandleMessage(payload: Bytes, addr: Addr, fullPacket: Bytes, now: real)
      returns (delivered: Option<(PeerId, Bytes)>, acks: seq<Datagram>)
      requires Valid() && |fullPacket| >= OVERHEAD
      modifies this`fragBufs, this`sessions
      ensures Valid()
      ensures fragBufs == AfterPayload(c, old(sessions), old(sessionsByAddr), old(fragBufs), payload, addr, fullPacket)
      ensures delivered == DeliveredBy(c, old(sessions), old(sessionsByAddr), old(fragBufs), payload, addr, fullPacket)
      ensures delivered.None? ==> acks == [] && sessions == old(sessions)
      ensures delivered.Some? ==>
                var peer := delivered.value.0; var s := old(sessions)[peer];
                && acks == [Datagram(addr, AckPacket(c, senderId, s.sessionKey, payload[..4]))]
                && sessions == old(sessions)[peer := Received(s, |delivered.value.1|, now)]
    {
      delivered, acks := None, [];
      var f := Incoming(payload, addr, fullPacket);
      if f.None? {
        return;
      }
      var peer := sessionsByAddr[addr];
      var plaintext := Receive(peer, sessions[peer].verifyKey, f.value);
      if plaintext.None? {
        return;
      }
      delivered := Some((peer, plaintext.value));
      acks := Acknowledge(peer, addr, payload[..4], |plaintext.value|, now);
    }

    method Acknowledge(peer: PeerId, addr: Addr, msgId: Bytes, size: nat, now: real) returns (acks: seq<Datagram>)
      requires Valid() && peer in sessions && |msgId| == 4
      modifies this`sessions
      ensures acks == [Datagram(addr, AckPacket(c, senderId, old(sessions)[peer].sessionKey, msgId))]
      ensures sessions == old(sessions)[peer := Received(old(sessions)[peer], size, now)]
    {
      var s := sessions[peer];
      acks := [Datagram(addr, AckPacket(c, senderId, s.sessionKey, msgId))];
      sessions := sessions[peer := s.(bytesRecv := s.bytesRecv + size, lastActive := now)];
    }

    /** Find the session of the address and open the fragment with its key. */
    method Incoming(payload: Bytes, addr: Addr, fullPacket: Bytes) returns (f: Option<Frag>)
      requires |fullPacket| >= OVERHEAD
      ensures f == FragFrom(c, sessions, sessionsByAddr, payload, addr, fullPacket)
      ensures f.Some? ==> addr in sessionsByAddr && sessionsByAddr[addr] in sessions && |payload| >= 4
    {
      if addr !in sessionsByAddr || sessionsByAddr[addr] !in sessions {
        return None;
      }
      f := OpenFragment(sessions[sessionsByAddr[addr]].sessionKey, payload, fullPacket);
    }

    /** Store, and when the message is complete verify the sender's signature. */
    method Receive(peer: PeerId, verifyKey: Bytes, f: Frag) returns (plaintext: Option<Bytes>)
      modifies this`fragBufs
      ensures fragBufs == AfterFrag(old(fragBufs), peer, f)
      ensures plaintext == Delivery(c, verifyKey, old(fragBufs), peer, f)
    {
      var assembled := StoreFragment(peer, f);
      if assembled.None? {
        return None;
      }
      plaintext := VerifyAssembled(verifyKey, assembled.value);
    }

    /** Split signature from text and verify it. */
    method VerifyAssembled(verifyKey: Bytes, assembled: Bytes) returns (plaintext: Option<Bytes>)
      ensures plaintext == Opened(c, verifyKey, assembled)
    {
      if |assembled| < SIG_SIZE {
        return None;
      }
      var sig, text := assembled[..SIG_SIZE], assembled[SIG_SIZE..];
      if !c.verify(verifyKey, text, sig) {
        return None;
      }
      return Some(text);
    }

    /** Returns the id whose callbacks fire; a payload under four bytes is ignored. */
    method HandleAck(payload: Bytes) returns (acked: Option<nat>)
      requires Valid()
      modifies this`inFlight
      ensures Valid()
      ensures acked == (if |payload| < 4 then None else Some(FromBE(payload[..4])))
      ensures inFlight == if acked.None? then old(inFlight) else old(inFlight) - {acked.value}
    {
      if |payload| < 4 {
        return None;
      }
      var msgId := FromBE(payload[..4]);
      inFlight := inFlight - {msgId};
      return Some(msgId);
    }

    /** One sweep, and what it does with each expired entry. */
    method RetrySweep(now: real) returns (events: map<nat, SweepEvent>)
      requires Valid()
      modifies this`inFlight
      ensures Valid()
      ensures inFlight == Swept(old(inFlight), now)
      ensures events == Events(old(inFlight), now)
      ensures forall m :: m in events <==> m in old(inFlight) && old(inFlight)[m].nextRetryAt <= now
      ensures forall m :: m in events ==>
                var e := old(inFlight)[m];
                events[m] == if e.attempt < 3 then Resent(Datagram(e.peerAddr, e.packet)) else Failed(e.peerAddr)
    {
      var expired := set m | m in inFlight && Expired(inFlight[m], now);
      events := SweepAll(expired, now);
    }

    method SweepAll(expired: set<nat>, now: real) returns (events: map<nat, SweepEvent>)
      requires forall m :: m in expired ==> m in inFlight
      modifies this`inFlight
      ensures events == EventsPart(old(inFlight), expired) && inFlight == SweptPart(old(inFlight), expired, now)
    {
      ghost var t := inFlight;
      var todo := expired;
      events := map[];
      while todo != {}
        invariant todo <= expired
        invariant events == EventsPart(t, expired - todo)
        invariant inFlight == SweptPart(t, expired - todo, now)
        decreases todo
      {
        var m :| m in todo;
        var event := SweepEntry(m, now);
        events := events[m := event];
        todo := todo - {m};
      }
    }

    method SweepEntry(m: nat, now: real) returns (event: SweepEvent)
      requires m in inFlight
      modifies this`inFlight
      ensures event == EventOf(old(inFlight)[m])
      ensures inFlight == if event.Failed? then old(inFlight) - {m}
                          else old(inFlight)[m := Retried(old(inFlight)[m], now)]
    {
      var e := inFlight[m];
      if e.attempt >= MAX_RETRIES {
        inFlight := inFlight - {m};
        return Failed(e.peerAddr);
      }
      inFlight := inFlight[m := Retried(e, now)];
      return Resent(Datagram(e.peerAddr, e.packet));
    }

    /** The MAC check that precedes every handler but those of the handshake. */
    method PassesMac(data: Bytes, addr: Addr, ptype: PacketType) returns (ok: bool)
      requires |data| >= OVERHEAD
      ensures ok <==> IsHandshake(ptype) || Authentic(c, sessions, sessionsByAddr, data, addr)
    {
      if addr !in sessionsByAddr || sessionsByAddr[addr] == "" || IsHandshake(ptype) {
        return true;
      }
      if sessionsByAddr[addr] !in sessions {
        return false;
      }
      ok := VerifyMac(c, sessions[sessionsByAddr[addr]].sessionKey, data);
    }

    /** A PONG to the peer, whose session is active now. */
    method HandlePing(peer: PeerId, addr: Addr, now: real) returns (replies: seq<Datagram>)
      requires Valid() && peer in sessions
      modifies this`sessions
      ensures replies == [Datagram(addr, PongPacket(c, senderId, old(sessions)[peer].sessionKey))]
      ensures sessions == old(sessions)[peer := old(sessions)[peer].(lastActive := now)]
    {
      var s := sessions[peer];
      replies := [Datagram(addr, PongPacket(c, senderId, s.sessionKey))];
      sessions := sessions[peer := s.(lastActive := now)];
    }

    /** The handlers, for a packet that parses and passed the MAC check. */
    method Handle(p: Parsed, data: Bytes, addr: Addr, now: real)
      returns (delivered: Option<(PeerId, Bytes)>, replies: seq<Datagram>, acked: Option<nat>,
               handedOn: Option<PacketType>)
      requires Valid() && |data| >= OVERHEAD
      modifies this`fragBufs, this`sessions, this`inFlight
      ensures Valid()
      ensures fragBufs == if p.ptype == MESSAGE
                          then AfterPayload(c, old(sessions), old(sessionsByAddr), old(fragBufs), p.payload, addr, data)
                          else old(fragBufs)
      ensures delivered == if p.ptype == MESSAGE
                           then DeliveredBy(c, old(sessions), old(sessionsByAddr), old(fragBufs), p.payload, addr, data)
                           else None
      ensures acked == if p.ptype == ACK && |p.payload| >= 4 then Some(FromBE(p.payload[..4])) else None
      ensures inFlight == if acked.None? then old(inFlight) else old(inFlight) - {acked.value}
      ensures handedOn == if p.ptype in {MESSAGE, ACK, PING, PONG} then None else Some(p.ptype)
      ensures delivered.Some? ==>
                var peer := delivered.value.0; var s := old(sessions)[peer];
                && replies == [Datagram(addr, AckPacket(c, senderId, s.sessionKey, p.payload[..4]))]
                && sessions == old(sessions)[peer := Received(s, |delivered.value.1|, now)]
      ensures p.ptype == PING && PingPeer(old(sessionsByAddr), addr) in old(sessions) ==>
                var peer := PingPeer(old(sessionsByAddr), addr); var s := old(sessions)[peer];
                && replies == [Datagram(addr, PongPacket(c, senderId, s.sessionKey))]
                && sessions == old(sessions)[peer := s.(lastActive := now)]
      ensures delivered.None? && !(p.ptype == PING && PingPeer(old(sessionsByAddr), addr) in old(sessions)) ==>
                replies == [] && sessions == old(sessions)
    {
      delivered, replies, acked, handedOn := None, [], None, None;
      if p.ptype == MESSAGE {
        delivered, replies := HandleMessage(p.payload, addr, data, now);
      } else if p.ptype == ACK {
        acked := HandleAck(p.payload);
      } else if p.ptype == PING {
        var peer := if addr in sessionsByAddr then sessionsByAddr[addr] else "";
        if peer in sessions {
          replies := HandlePing(peer, addr, now);
        }
      } else if p.ptype != PONG {
        handedOn := Some(p.ptype);
      }
    }

    /** `handedOn` is the type of a packet left to a handshake handler or a registered callback. */
    method Dispatch(data: Bytes, addr: Addr, now: real)
      returns (delivered: Option<(PeerId, Bytes)>, replies: seq<Datagram>, acked: Option<nat>,
               handedOn: Option<PacketType>)
      requires Valid()
      modifies this`fragBufs, this`sessions, this`inFlight
      ensures Valid()
      ensures fragBufs == AfterDatagram(c, old(sessions), old(sessionsByAddr), old(fragBufs), data, addr)
      ensures delivered == DatagramDelivers(c, old(sessions), old(sessionsByAddr), old(fragBufs), data, addr)
      ensures acked == AckedBy(c, old(sessions), old(sessionsByAddr), data, addr)
      ensures inFlight == if acked.None? then old(inFlight) else old(inFlight) - {acked.value}
      ensures handedOn == HandedOn(c, old(sessions), old(sessionsByAddr), data, addr)
      ensures delivered.Some? ==>
                var peer := delivered.value.0; var s := old(sessions)[peer];
                var payload := ParsePacket(data).value.payload;
                && replies == [Datagram(addr, AckPacket(c, senderId, s.sessionKey, payload[..4]))]
                && sessions == old(sessions)[peer := Received(s, |delivered.value.1|, now)]
      ensures IsPing(c, old(sessions), old(sessionsByAddr), data, addr) ==>
                var peer := PingPeer(old(sessionsByAddr), addr); var s := old(sessions)[peer];
                && replies == [Datagram(addr, PongPacket(c, senderId, s.sessionKey))]
                && sessions == old(sessions)[peer := s.(lastActive := now)]
      ensures delivered.None? && !IsPing(c, old(sessions), old(sessionsByAddr), data, addr) ==>
                replies == [] && sessions == old(sessions)
      ensures |data| >= 52 && Forged(c, old(sessions), old(sessionsByAddr), data, addr) ==>
                && fragBufs == old(fragBufs) && sessions == old(sessions) && inFlight == old(inFlight)
                && delivered.None? && replies == [] && acked.None?
                && (handedOn.Some? ==> data[1] in {0x01, 0x02, 0x03, 0x04})
    {
      if |data| >= 52 && Forged(c, sessions, sessionsByAddr, data, addr) {
        ForgedIsRefused(c, sessions, sessionsByAddr, fragBufs, data, addr);
      }
      delivered, replies, acked, handedOn := None, [], None, None;
      var parsed := ParsePacket(data);
      if parsed.Err? {
        return;
      }
      var ok := PassesMac(data, addr, parsed.value.ptype);
      if ok {
        delivered, replies, acked, handedOn := Handle(parsed.value, data, addr, now);
      }
    }
  }
}
