/** The four-message handshake of one endpoint (mesh/transport.py:374-421, 563-674).
    Keys are symbolic terms: X25519 agreement is the set of the two parties, ML-KEM encapsulation a
    draw that only the holder of the addressed key recovers, HKDF and AEAD perfect.  A node is named
    by its address, and its bundle by the node; bundles are taken as verified.
    Pending-handshake objects are reached through reference numbers, because `connect` keeps working
    on the object it created even when `_pending` holds another one by then. */
module Handshake {
  import opened Wrappers

  type Node = nat
  type Ref = nat

  /** An ML-KEM ciphertext: the draw, encapsulated to the key of `to`. */
  datatype Ciphertext = Ciphertext(to: Node, draw: nat)

  /** What decapsulation yields: the drawn secret, or the implicit rejection of a foreign ciphertext. */
  datatype Secret = Shared(draw: nat) | Rejected(ct: Ciphertext, holder: Node)

  datatype SessionKey = SessionKey(parties: set<Node>, secret: Secret)

  function Encapsulated(initiator: Node, bundle: Node, draw: nat): SessionKey {
    SessionKey({initiator, bundle}, Shared(draw))
  }

  function Decapsulated(me: Node, initiatorBundle: Node, ct: Ciphertext): SessionKey {
    SessionKey({me, initiatorBundle}, if ct.to == me then Shared(ct.draw) else Rejected(ct, me))
  }

  datatype Msg =
    | HandshakeMsg(bundle: Node)
    | RespMsg(bundle: Node)
    | KeyInitMsg(ct: Ciphertext)
    | KeyAckMsg(sealedUnder: SessionKey)

  datatype Packet = Packet(src: Node, dst: Node, msg: Msg)

  datatype Pending = Pending(
    peerAddr: Node, peerBundle: Option<Node>, ourKey: Option<SessionKey>, respSet: bool, ackSet: bool)

  datatype Phase = AwaitsResp | AwaitsAck | Over

  /** A running or finished `connect`; `draw` names the randomness its encapsulation uses. */
  datatype Connect = Connect(bundle: Node, draw: nat, phase: Phase)

  datatype KeyedSession = KeyedSession(addr: Node, key: SessionKey)

  datatype ConnectError = InvalidSignature

  datatype Role = Initiator | Responder

  /** A session established: by whom, with which peer, in which role and from which address. */
  datatype Install = Install(node: Node, peer: Node, key: SessionKey, role: Role, addr: Node)

  datatype NodeState = NodeState(
    me: Node,
    objs: map<Ref, Pending>,
    nextRef: Ref,
    pending: map<Node, Ref>,
    connects: map<Ref, Connect>,
    sessions: map<Node, KeyedSession>,
    sessionsByAddr: map<Node, Node>)

  datatype Effect = Effect(state: NodeState, sent: set<Packet>, installed: set<Install>)

  ghost predicate RefsValid(s: NodeState) {
    && (forall r :: r in s.objs ==> r < s.nextRef)
    && (forall x :: x in s.pending ==> s.pending[x] in s.objs && s.objs[s.pending[x]].peerAddr == x)
    && (forall r :: r in s.connects ==> r in s.objs)
  }

  // ---------------------------------------------------------------- connect, in its three parts

  function Started(s: NodeState, addr: Node, bundle: Node, draw: nat): (e: Effect)
    ensures RefsValid(s) ==> RefsValid(e.state)
  {
    var r := s.nextRef;
    Effect(
      s.(objs := s.objs[r := Pending(addr, Some(bundle), None, false, false)],
         nextRef := r + 1,
         pending := s.pending[addr := r],
         connects := s.connects[r := Connect(bundle, draw, AwaitsResp)]),
      {Packet(s.me, addr, HandshakeMsg(s.me))}, {})
  }

  predicate CanResume(s: NodeState, r: Ref) {
    r in s.connects && r in s.objs && s.connects[r].phase == AwaitsResp && s.objs[r].respSet
  }

  function Resumed(s: NodeState, r: Ref): (e: Effect)
    requires CanResume(s, r)
    ensures RefsValid(s) ==> RefsValid(e.state)
  {
    var c, p := s.connects[r], s.objs[r];
    Effect(
      s.(objs := s.objs[r := p.(ourKey := Some(Encapsulated(s.me, c.bundle, c.draw)))],
         connects := s.connects[r := c.(phase := AwaitsAck)]),
      {Packet(s.me, p.peerAddr, KeyInitMsg(Ciphertext(c.bundle, c.draw)))}, {})
  }

  predicate CanFinish(s: NodeState, r: Ref) {
    r in s.connects && r in s.objs && s.connects[r].phase == AwaitsAck && s.objs[r].ackSet
  }

  /** A wait that ends, in success or by timeout, pops whatever `_pending` holds for the address. */
  function Ended(s: NodeState, r: Ref): (s': NodeState)
    requires r in s.connects && r in s.objs
    ensures RefsValid(s) ==> RefsValid(s')
  {
    s.(pending := s.pending - {s.objs[r].peerAddr}, connects := s.connects[r := s.connects[r].(phase := Over)])
  }

  // ---------------------------------------------------------------- handlers

  function OnHandshake(s: NodeState, addr: Node, bundle: Node): (e: Effect)
    requires RefsValid(s)
    ensures RefsValid(e.state)
  {
    var known := addr in s.pending;
    var r := if known then s.pending[addr] else s.nextRef;
    var p := if known then s.objs[r] else Pending(addr, None, None, false, false);
    Effect(
      s.(objs := s.objs[r := p.(peerBundle := Some(bundle))],
         nextRef := if known then s.nextRef else r + 1,
         pending := s.pending[addr := r]),
      {Packet(s.me, addr, RespMsg(s.me))}, {})
  }

  function OnResp(s: NodeState, addr: Node, bundle: Node): (e: Effect)
    requires RefsValid(s)
    ensures RefsValid(e.state)
  {
    if addr !in s.pending then Effect(s, {}, {})
    else
      var r := s.pending[addr];
      Effect(s.(objs := s.objs[r := s.objs[r].(peerBundle := Some(bundle), respSet := true)]), {}, {})
  }

  function OnKeyInit(s: NodeState, addr: Node, ct: Ciphertext): (e: Effect)
    requires RefsValid(s)
    ensures RefsValid(e.state)
  {
    if addr !in s.pending || s.objs[s.pending[addr]].peerBundle.None? then Effect(s, {}, {})
    else
      var peer := s.objs[s.pending[addr]].peerBundle.value;
      var key := Decapsulated(s.me, peer, ct);
      Effect(
        s.(sessions := s.sessions[peer := KeyedSession(addr, key)],
           sessionsByAddr := s.sessionsByAddr[addr := peer],
           pending := s.pending - {addr}),
        {Packet(s.me, addr, KeyAckMsg(key))},
        {Install(s.me, peer, key, Responder, addr)})
  }

  /** The acknowledgement opens under our key exactly if it was sealed under it. */
  predicate TakesAck(s: NodeState, addr: Node, sealedUnder: SessionKey)
    requires RefsValid(s)
  {
    && addr in s.pending
    && s.objs[s.pending[addr]].ourKey == Some(sealedUnder)
    && s.objs[s.pending[addr]].peerBundle.Some?
  }

  function OnKeyAck(s: NodeState, addr: Node, sealedUnder: SessionKey): (e: Effect)
    requires RefsValid(s)
    ensures RefsValid(e.state)
  {
    if !TakesAck(s, addr, sealedUnder) then Effect(s, {}, {})
    else
      var r := s.pending[addr];
      var peer := s.objs[r].peerBundle.value;
      Effect(
        s.(sessions := s.sessions[peer := KeyedSession(addr, sealedUnder)],
           sessionsByAddr := s.sessionsByAddr[addr := peer],
           objs := s.objs[r := s.objs[r].(ackSet := true)]),
        {}, {Install(s.me, peer, sealedUnder, Initiator, addr)})
  }

  /** An answer from the address wakes the connect that waits there, whatever bundle it carries. */
  lemma RespWakesConnect(s: NodeState, r: Ref, bundle: Node)
    requires RefsValid(s) && r in s.connects && s.connects[r].phase == AwaitsResp
    requires s.objs[r].peerAddr in s.pending && s.pending[s.objs[r].peerAddr] == r
    ensures CanResume(OnResp(s, s.objs[r].peerAddr, bundle).state, r)
  {
  }

  /** The session a KEY_INIT installs is under the last bundle received from its address. */
  lemma LastBundleCounts(s: NodeState, x: Node, bundle: Node, ct: Ciphertext)
    requires RefsValid(s)
    ensures var i := Install(s.me, bundle, Decapsulated(s.me, bundle, ct), Responder, x);
            && OnKeyInit(OnHandshake(s, x, bundle).state, x, ct).installed == {i}
            && (x in s.pending ==> OnKeyInit(OnResp(s, x, bundle).state, x, ct).installed == {i})
  {
  }

  /** A KEY_ACK lets a waiting connect return True exactly if it opens under the key that connect drew. */
  lemma AckEnablesFinish(s: NodeState, r: Ref, sealedUnder: SessionKey)
    requires RefsValid(s) && r in s.connects && s.connects[r].phase == AwaitsAck && !s.objs[r].ackSet
    requires s.objs[r].peerAddr in s.pending && s.pending[s.objs[r].peerAddr] == r && s.objs[r].peerBundle.Some?
    ensures CanFinish(OnKeyAck(s, s.objs[r].peerAddr, sealedUnder).state, r)
            <==> s.objs[r].ourKey == Some(sealedUnder)
  {
  }

  /** Once a connect is over, the answers to it are ignored. */
  lemma OverIsDeaf(s: NodeState, r: Ref, bundle: Node, ct: Ciphertext, key: SessionKey)
    requires RefsValid(s) && r in s.connects
    ensures var s', x := Ended(s, r), s.objs[r].peerAddr;
            && OnResp(s', x, bundle) == Effect(s', {}, {}) && OnKeyInit(s', x, ct) == Effect(s', {}, {})
            && OnKeyAck(s', x, key) == Effect(s', {}, {})
            && !CanResume(s', r) && !CanFinish(s', r)
  {
  }

  /** A KEY_INIT that installs a session uses up what was pending: nothing more comes of it. */
  lemma KeyInitIsTakenOnce(s: NodeState, x: Node, ct: Ciphertext, bundle: Node, again: Ciphertext, key: SessionKey)
    requires RefsValid(s) && OnKeyInit(s, x, ct).installed != {}
    ensures var s' := OnKeyInit(s, x, ct).state;
            && OnResp(s', x, bundle) == Effect(s', {}, {}) && OnKeyInit(s', x, again) == Effect(s', {}, {})
            && OnKeyAck(s', x, key) == Effect(s', {}, {})
            && forall y :: y in s.pending && y != x ==> y in s'.pending && s'.pending[y] == s.pending[y]
  {
  }

  function OnPacket(s: NodeState, p: Packet): (e: Effect)
    requires RefsValid(s)
    ensures RefsValid(e.state)
  {
    match p.msg
    case HandshakeMsg(b) => OnHandshake(s, p.src, b)
    case RespMsg(b) => OnResp(s, p.src, b)
    case KeyInitMsg(ct) => OnKeyInit(s, p.src, ct)
    case KeyAckMsg(k) => OnKeyAck(s, p.src, k)
  }

  // ---------------------------------------------------------------- the endpoint's fields

  class Endpoint {
    const me: Node
    var objs: map<Ref, Pending>
    var nextRef: Ref
    var pending: map<Node, Ref>
    var connects: map<Ref, Connect>
    var sessions: map<Node, KeyedSession>
    var sessionsByAddr: map<Node, Node>

    function State(): NodeState
      reads this
    {
      NodeState(me, objs, nextRef, pending, connects, sessions, sessionsByAddr)
    }

    constructor (me: Node)
      ensures State() == NodeState(me, map[], 0, map[], map[], map[], map[])
    {
      this.me := me;
      objs, nextRef, pending, connects, sessions, sessionsByAddr := map[], 0, map[], map[], map[], map[];
    }

    /** No bundle stands for one that does not verify, for which connect raises. */
    method StartConnect(addr: Node, bundle: Option<Node>, draw: nat)
      returns (r: Result<Ref, ConnectError>, sent: set<Packet>)
      modifies this
      ensures bundle.None? ==> r == Err(InvalidSignature) && State() == old(State()) && sent == {}
      ensures bundle.Some? ==>
                var e := Started(old(State()), addr, bundle.value, draw);
                State() == e.state && sent == e.sent && r == Ok(old(nextRef))
    {
      if bundle.None? {
        return Err(InvalidSignature), {};
      }
      var ref := nextRef;
      nextRef := nextRef + 1;
      objs := objs[ref := Pending(addr, bundle, None, false, false)];
      pending := pending[addr := ref];
      connects := connects[ref := Connect(bundle.value, draw, AwaitsResp)];
      return Ok(ref), {Packet(me, addr, HandshakeMsg(me))};
    }

    method ResumeConnect(r: Ref) returns (sent: set<Packet>)
      requires CanResume(State(), r)
      modifies this
      ensures var e := Resumed(old(State()), r); State() == e.state && sent == e.sent
    {
      var c := connects[r];
      var key := Encapsulated(me, c.bundle, c.draw);
      objs := objs[r := objs[r].(ourKey := Some(key))];
      connects := connects[r := c.(phase := AwaitsAck)];
      sent := {Packet(me, objs[r].peerAddr, KeyInitMsg(Ciphertext(c.bundle, c.draw)))};
    }

    /** `acked` is whether the event was set in time; it is also what `connect` returns. */
    method EndConnect(r: Ref, acked: bool) returns (connected: bool)
      requires r in connects && r in objs && (acked ==> CanFinish(State(), r))
      modifies this
      ensures State() == Ended(old(State()), r) && connected == acked
    {
      pending := pending - {objs[r].peerAddr};
      connects := connects[r := connects[r].(phase := Over)];
      connected := acked;
    }

    /** No bundle stands for a payload of another length, or that does not read or verify as a bundle. */
    method HandleHandshake(addr: Node, bundle: Option<Node>) returns (sent: set<Packet>)
      requires RefsValid(State())
      modifies this
      ensures bundle.None? ==> State() == old(State()) && sent == {}
      ensures bundle.Some? ==>
                var e := OnHandshake(old(State()), addr, bundle.value); State() == e.state && sent == e.sent
    {
      if bundle.None? {
        return {};
      }
      var r;
      if addr in pending {
        r := pending[addr];
      } else {
        r := nextRef;
        nextRef := nextRef + 1;
        objs := objs[r := Pending(addr, None, None, false, false)];
      }
      objs := objs[r := objs[r].(peerBundle := bundle)];
      pending := pending[addr := r];
      sent := {Packet(me, addr, RespMsg(me))};
    }

    /** No bundle stands for a payload as in HandleHandshake. */
    method HandleResp(addr: Node, bundle: Option<Node>)
      requires RefsValid(State())
      modifies this`objs
      ensures State() == if bundle.None? then old(State()) else OnResp(old(State()), addr, bundle.value).state
    {
      if addr in pending && bundle.Some? {
        var r := pending[addr];
        objs := objs[r := objs[r].(peerBundle := bundle, respSet := true)];
      }
    }

    /** No ciphertext stands for a payload of another length. */
    method HandleKeyInit(addr: Node, payload: Option<Ciphertext>) returns (sent: set<Packet>, connected: Option<Node>)
      requires RefsValid(State())
      modifies this`sessions, this`sessionsByAddr, this`pending
      ensures payload.None? ==> State() == old(State()) && sent == {} && connected == None
      ensures payload.Some? ==>
                var e := OnKeyInit(old(State()), addr, payload.value);
                State() == e.state && sent == e.sent && (connected.None? <==> e.installed == {})
      ensures connected.Some? ==>
                && sessionsByAddr == old(sessionsByAddr)[addr := connected.value]
                && exists key :: sessions == old(sessions)[connected.value := KeyedSession(addr, key)]
                                 && sent == {Packet(me, addr, KeyAckMsg(key))}
    {
      sent, connected := {}, None;
      if addr !in pending || objs[pending[addr]].peerBundle.None? || payload.None? {
        return;
      }
      var ct := payload.value;
      var peer := objs[pending[addr]].peerBundle.value;
      var key := Decapsulated(me, peer, ct);
      sent := {Packet(me, addr, KeyAckMsg(key))};
      sessions := sessions[peer := KeyedSession(addr, key)];
      sessionsByAddr := sessionsByAddr[addr := peer];
      pending := pending - {addr};
      connected := Some(peer);
    }

    /** No key stands for a payload that is too short or holds no sealed acknowledgement. */
    method HandleKeyAck(addr: Node, payload: Option<SessionKey>) returns (connected: Option<Node>)
      requires RefsValid(State())
      modifies this`sessions, this`sessionsByAddr, this`objs
      ensures payload.None? ==> State() == old(State()) && connected == None
      ensures payload.Some? ==>
                && State() == OnKeyAck(old(State()), addr, payload.value).state
                && (connected.None? <==> !TakesAck(old(State()), addr, payload.value))
      ensures connected.Some? ==>
                && sessionsByAddr == old(sessionsByAddr)[addr := connected.value]
                && sessions == old(sessions)[connected.value := KeyedSession(addr, payload.value)]
                && addr in old(pending) && old(pending)[addr] in objs && objs[old(pending)[addr]].ackSet
    {
      if addr !in pending || objs[pending[addr]].ourKey.None? || payload.None? {
        return None;
      }
      var sealedUnder := payload.value;
      var r := pending[addr];
      if objs[r].ourKey.value != sealedUnder || objs[r].peerBundle.None? {
        return None;
      }
      var peer := objs[r].peerBundle.value;
      sessions := sessions[peer := KeyedSession(addr, sealedUnder)];
      sessionsByAddr := sessionsByAddr[addr := peer];
      objs := objs[r := objs[r].(ackSet := true)];
      return Some(peer);
    }
  }
}
