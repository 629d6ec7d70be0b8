/** The BATMAN-style router of one node (mesh/router.py).
    RouterState and the functions over it are the specification; the class MeshRouter updates
    its fields in place as the source does and is proved equal to that specification. */
module Router {
  import opened Addresses
  import opened Wrappers

  type Id = string            // 32-character sender id of a node
  type SignKey = nat          // the name of an Ed25519 key pair

  const STALE_ROUTE_SECONDS: real := 60.0

  /** The fields an originator signs; hop_count is not among them. */
  datatype Claim = Claim(oid: Id, seqNum: nat, maxHops: nat, timestamp: real)

  /** A perfect signature: it verifies under exactly the key that made it, over exactly this claim. */
  datatype Signature = Signature(key: SignKey, claim: Claim)

  datatype Originator = Originator(claim: Claim, hopCount: nat, sig: Signature)

  datatype RouteEntry = RouteEntry(
    originatorId: Id, nextHopId: Id, nextHopAddr: Addr, hopCount: nat, lastSeen: real, seqNum: nat)

  datatype Session = Session(peerId: Id, peerAddr: Addr)

  /** One datagram handed to the socket. */
  datatype Send = Send(dst: Addr, msg: Originator)

  type Routes = map<Id, RouteEntry>

  datatype RouterState = RouterState(
    id: Id, signKey: SignKey, maxHops: nat,
    seqNum: nat, routes: Routes, seenSeq: map<Id, nat>, known: map<Id, SignKey>)

  /** True iff `e` may not replace the entry already stored for its originator. */
  predicate Superseded(routes: Routes, e: RouteEntry) {
    && e.originatorId in routes
    && var old' := routes[e.originatorId];
    (e.seqNum < old'.seqNum || (e.seqNum == old'.seqNum && e.hopCount >= old'.hopCount))
  }

  function UpdatedRoutes(routes: Routes, e: RouteEntry): Routes {
    if Superseded(routes, e) then routes else routes[e.originatorId := e]
  }

  function PurgedRoutes(routes: Routes, now: real): Routes {
    map k | k in routes && routes[k].lastSeen >= now - STALE_ROUTE_SECONDS :: routes[k]
  }

  lemma PurgedSize(routes: Routes, now: real)
    ensures var stale := set k | k in routes && routes[k].lastSeen < now - STALE_ROUTE_SECONDS;
            routes - stale == PurgedRoutes(routes, now) && |stale| == |routes| - |PurgedRoutes(routes, now)|
  {
    var stale := set k | k in routes && routes[k].lastSeen < now - STALE_ROUTE_SECONDS;
    assert (routes - stale).Keys == routes.Keys - stale && stale <= routes.Keys;
    assert |routes - stale| == |(routes - stale).Keys| && |routes| == |routes.Keys|;
  }

  function RouteTo(routes: Routes, peer: Id, now: real): Option<RouteEntry> {
    if peer !in routes || now - routes[peer].lastSeen > STALE_ROUTE_SECONDS then None
    else Some(routes[peer])
  }

  predicate Verifies(m: Originator, key: SignKey) {
    m.sig == Signature(key, m.claim)
  }

  /** The handler goes past its early returns. */
  predicate Accepts(r: RouterState, m: Originator) {
    && m.claim.oid != r.id
    && (m.claim.oid in r.known ==> Verifies(m, r.known[m.claim.oid]))
    && (m.claim.oid in r.seenSeq ==> r.seenSeq[m.claim.oid] < m.claim.seqNum)
  }

  function EntryFor(m: Originator, fromAddr: Addr, senderId: Id): RouteEntry {
    RouteEntry(m.claim.oid, senderId, fromAddr, m.hopCount + 1, m.claim.timestamp, m.claim.seqNum)
  }

  function Noted(r: RouterState, m: Originator): RouterState {
    if !Accepts(r, m) then r else r.(seenSeq := r.seenSeq[m.claim.oid := m.claim.seqNum])
  }

  function AfterOriginator(r: RouterState, m: Originator, fromAddr: Addr, senderId: Id): RouterState {
    if !Accepts(r, m) then r
    else r.(
      seenSeq := r.seenSeq[m.claim.oid := m.claim.seqNum],
      routes := UpdatedRoutes(r.routes, EntryFor(m, fromAddr, senderId)))
  }

  /** The copy a relay sends on: same claim, one more hop.  A relay that does not know the
      originator's bundle signs the claim afresh, with its own key. */
  function Relayed(r: RouterState, m: Originator): Originator {
    Originator(m.claim, m.hopCount + 1,
               if m.claim.oid in r.known then m.sig else Signature(r.signKey, m.claim))
  }

  /** The datagrams of a send loop over the sessions, leaving out one address. */
  function FanOut(sessions: seq<Session>, except: Option<Addr>, m: Originator): seq<Send> {
    if sessions == [] then []
    else
      FanOut(sessions[..|sessions| - 1], except, m)
      + (var a := sessions[|sessions| - 1].peerAddr; if except == Some(a) then [] else [Send(a, m)])
  }

  function RelaySends(r: RouterState, m: Originator, fromAddr: Addr, sessions: seq<Session>): seq<Send> {
    if Accepts(r, m) && m.hopCount < m.claim.maxHops
    then FanOut(sessions, Some(fromAddr), Relayed(r, m))
    else []
  }

  /** What the handler has accepted it does not accept again, nor anything older of that originator, even
      if it raised on the sender id; what it has refused it still refuses. */
  lemma HandledOnce(r: RouterState, m: Originator, m': Originator, fromAddr: Addr, senderId: Id)
    requires m'.claim.oid == m.claim.oid && m'.claim.seqNum <= m.claim.seqNum
    requires Accepts(r, m) || m' == m
    ensures !Accepts(Noted(r, m), m') && !Accepts(AfterOriginator(r, m, fromAddr, senderId), m')
  {
  }

  /** Where the datagrams go. */
  function Dests(sends: seq<Send>): (d: seq<Addr>)
    ensures |d| == |sends| && forall i :: 0 <= i < |d| ==> d[i] == sends[i].dst
  {
    seq(|sends|, i requires 0 <= i < |sends| => sends[i].dst)
  }

  /** Where the sessions' peers are. */
  function PeerAddrs(sessions: seq<Session>): (d: seq<Addr>)
    ensures |d| == |sessions| && forall i :: 0 <= i < |d| ==> d[i] == sessions[i].peerAddr
  {
    seq(|sessions|, i requires 0 <= i < |sessions| => sessions[i].peerAddr)
  }

  /** Every session gets one datagram, but for those at the address left out, and nobody else gets any. */
  lemma {:induction false} FanOutReaches(sessions: seq<Session>, except: Option<Addr>, m: Originator)
    ensures forall p :: p in FanOut(sessions, except, m) ==> p.msg == m
    ensures forall x :: multiset(Dests(FanOut(sessions, except, m)))[x]
                        == if except == Some(x) then 0 else multiset(PeerAddrs(sessions))[x]
  {
    if sessions == [] {
      assert Dests(FanOut(sessions, except, m)) == [] == PeerAddrs(sessions);
    } else {
      var init, a := sessions[..|sessions| - 1], sessions[|sessions| - 1].peerAddr;
      FanOutReaches(init, except, m);
      assert PeerAddrs(sessions) == PeerAddrs(init) + [a];
      assert Dests(FanOut(sessions, except, m))
          == Dests(FanOut(init, except, m)) + (if except == Some(a) then [] else [a]);
    }
  }

  /** With no address left out, the datagrams go out in the order of the sessions. */
  lemma {:induction false} FanOutInOrder(sessions: seq<Session>, m: Originator)
    ensures Dests(FanOut(sessions, None, m)) == PeerAddrs(sessions)
  {
    if sessions != [] {
      var init, a := sessions[..|sessions| - 1], sessions[|sessions| - 1].peerAddr;
      FanOutInOrder(init, m);
      assert PeerAddrs(sessions) == PeerAddrs(init) + [a];
      assert Dests(FanOut(sessions, None, m)) == Dests(FanOut(init, None, m)) + [a];
    }
  }

  /** An accepted originator goes on to every session but the one it came from, each once, exactly
      when it has hops left; what is not accepted goes nowhere. */
  lemma RelayReaches(r: RouterState, m: Originator, fromAddr: Addr, sessions: seq<Session>)
    ensures var sent := RelaySends(r, m, fromAddr, sessions);
            && (forall p :: p in sent ==> p.msg.claim == m.claim && p.msg.hopCount == m.hopCount + 1)
            && (forall x :: multiset(Dests(sent))[x] ==
                  if Accepts(r, m) && m.hopCount < m.claim.maxHops && x != fromAddr
                  then multiset(PeerAddrs(sessions))[x] else 0)
  {
    FanOutReaches(sessions, Some(fromAddr), Relayed(r, m));
    assert Dests([]) == [];
  }

  /** Some datagram carries the claim of m, one hop on, to x. */
  ghost predicate CarriesOn(sent: seq<Send>, m: Originator, x: Addr) {
    exists p :: p in sent && p.dst == x && p.msg.claim == m.claim && p.msg.hopCount == m.hopCount + 1
  }

  lemma RelayedExactly(r: RouterState, m: Originator, fromAddr: Addr, sessions: seq<Session>, s: Session)
    requires Accepts(r, m) && s in sessions && s.peerAddr != fromAddr
    ensures m.hopCount < m.claim.maxHops <==> CarriesOn(RelaySends(r, m, fromAddr, sessions), m, s.peerAddr)
  {
    var sent := RelaySends(r, m, fromAddr, sessions);
    RelayReaches(r, m, fromAddr, sessions);
    if m.hopCount < m.claim.maxHops {
      var i :| 0 <= i < |sessions| && sessions[i] == s;
      assert PeerAddrs(sessions)[i] == s.peerAddr && s.peerAddr in multiset(PeerAddrs(sessions));
      assert s.peerAddr in multiset(Dests(sent));
      var k :| 0 <= k < |Dests(sent)| && Dests(sent)[k] == s.peerAddr;
      assert sent[k] in sent;
    }
  }

  function OwnOriginator(r: RouterState, now: real): Originator {
    var claim := Claim(r.id, r.seqNum + 1, r.maxHops, now);
    Originator(claim, 0, Signature(r.signKey, claim))
  }

  class MeshRouter {
    const id: Id
    const signKey: SignKey
    const maxHops: nat
    var seqNum: nat
    var routes: Routes
    var seenSeq: map<Id, nat>
    var knownBundles: map<Id, SignKey>

    function State(): RouterState
      reads this
    {
      RouterState(id, signKey, maxHops, seqNum, routes, seenSeq, knownBundles)
    }

    constructor (id: Id, signKey: SignKey, maxHops: nat)
      ensures State() == RouterState(id, signKey, maxHops, 0, map[], map[], map[])
    {
      this.id, this.signKey, this.maxHops := id, signKey, maxHops;
      seqNum, routes, seenSeq, knownBundles := 0, map[], map[], map[];
    }

    method UpdateRoute(originatorId: Id, nextHopId: Id, nextHopAddr: Addr, hopCount: nat, seqNum: nat, timestamp: real)
      modifies this`routes
      ensures routes == UpdatedRoutes(old(routes),
                          RouteEntry(originatorId, nextHopId, nextHopAddr, hopCount, timestamp, seqNum))
    {
      if originatorId in routes {
        var existing := routes[originatorId];
        if seqNum < existing.seqNum {
          return;
        }
        if seqNum == existing.seqNum && hopCount >= existing.hopCount {
          return;
        }
      }
      routes := routes[originatorId := RouteEntry(originatorId, nextHopId, nextHopAddr, hopCount, timestamp, seqNum)];
    }

    method GetRoute(peer: Id, now: real) returns (r: Option<RouteEntry>)
      ensures r == RouteTo(routes, peer, now)
      ensures r.Some? <==> peer in routes && now - routes[peer].lastSeen <= 60.0
      ensures r.Some? ==> r.value == routes[peer]
    {
      if peer !in routes {
        return None;
      }
      var entry := routes[peer];
      if now - entry.lastSeen > STALE_ROUTE_SECONDS {
        return None;
      }
      return Some(entry);
    }

    method PurgeStale(now: real) returns (removed: nat)
      modifies this`routes
      ensures routes == PurgedRoutes(old(routes), now)
      ensures removed == |old(routes)| - |routes|
    {
      var cutoff := now - STALE_ROUTE_SECONDS;
      var stale := set k | k in routes && routes[k].lastSeen < cutoff;
      removed := |stale|;
      DeleteAll(stale);
      PurgedSize(old(routes), now);
    }

    method DeleteAll(keys: set<Id>)
      modifies this`routes
      ensures routes == old(routes) - keys
    {
      var todo := keys;
      while todo != {}
        invariant todo <= keys
        invariant routes == old(routes) - (keys - todo)
        decreases todo
      {
        var k :| k in todo;
        routes := routes - {k};
        todo := todo - {k};
      }
    }

    method RegisterBundle(peer: Id, key: SignKey)
      modifies this`knownBundles
      ensures knownBundles == old(knownBundles)[peer := key]
    {
      knownBundles := knownBundles[peer := key];
    }

    method BroadcastOriginator(now: real, sessions: seq<Session>) returns (sent: seq<Send>)
      modifies this`seqNum
      ensures State() == old(State()).(seqNum := old(seqNum) + 1)
      ensures sent == FanOut(sessions, None, OwnOriginator(old(State()), now))
      ensures Dests(sent) == PeerAddrs(sessions)
      ensures forall p :: p in sent ==>
                && p.msg.claim == Claim(id, old(seqNum) + 1, maxHops, now)
                && p.msg.hopCount == 0 && Verifies(p.msg, signKey)
    {
      FanOutInOrder(sessions, OwnOriginator(State(), now));
      FanOutReaches(sessions, None, OwnOriginator(State(), now));
      seqNum := seqNum + 1;
      var claim := Claim(id, seqNum, maxHops, now);
      sent := SendAll(sessions, None, Originator(claim, 0, Signature(signKey, claim)));
    }

    static method SendAll(sessions: seq<Session>, except: Option<Addr>, m: Originator) returns (sent: seq<Send>)
      ensures sent == FanOut(sessions, except, m)
    {
      sent := [];
      for i := 0 to |sessions|
        invariant sent == FanOut(sessions[..i], except, m)
      {
        assert sessions[..i + 1][..i] == sessions[..i];
        if except != Some(sessions[i].peerAddr) {
          sent := sent + [Send(sessions[i].peerAddr, m)];
        }
      }
      assert sessions[..|sessions|] == sessions;
    }

    /** No payload stands for one of another length; no sender id for bytes that are not ASCII, on
        which the handler raises after it has noted the sequence number. */
    method HandleOriginator(payload: Option<Originator>, fromAddr: Addr, senderId: Option<Id>, sessions: seq<Session>)
      returns (sent: seq<Send>)
      modifies this`routes, this`seenSeq
      ensures payload.None? ==> State() == old(State()) && sent == []
      ensures payload.Some? && senderId.None? ==>
                && State() == Noted(old(State()), payload.value) && sent == [] && routes == old(routes)
      ensures payload.Some? ==> !Accepts(State(), payload.value)
      ensures payload.Some? && senderId.Some? ==>
                && State() == AfterOriginator(old(State()), payload.value, fromAddr, senderId.value)
                && sent == RelaySends(old(State()), payload.value, fromAddr, sessions)
      ensures payload.Some? && senderId.Some? && Accepts(old(State()), payload.value) ==>
                var m := payload.value;
                && (forall p :: p in sent ==> p.msg.claim == m.claim && p.msg.hopCount == m.hopCount + 1)
                && (forall x :: multiset(Dests(sent))[x] ==
                      if m.hopCount < m.claim.maxHops && x != fromAddr then multiset(PeerAddrs(sessions))[x] else 0)
    {
      sent := [];
      if payload.None? {
        return;
      }
      var m := payload.value;
      var claim := m.claim;
      HandledOnce(State(), m, m, fromAddr, if senderId.Some? then senderId.value else "");
      RelayReaches(State(), m, fromAddr, sessions);
      if claim.oid == id {
        return;
      }
      if claim.oid in knownBundles && !Verifies(m, knownBundles[claim.oid]) {
        return;
      }
      var seen := if claim.oid in seenSeq then seenSeq[claim.oid] else -1;
      if claim.seqNum <= seen {
        return;
      }
      seenSeq := seenSeq[claim.oid := claim.seqNum];
      if senderId.None? {
        return;
      }
      UpdateRoute(claim.oid, senderId.value, fromAddr, m.hopCount + 1, claim.seqNum, claim.timestamp);
      if m.hopCount >= claim.maxHops {
        return;
      }
      var sig := if claim.oid in knownBundles then m.sig else Signature(signKey, claim);
      sent := SendAll(sessions, Some(fromAddr), Originator(claim, m.hopCount + 1, sig));
    }
  }

  /** A purge hides nothing a later lookup could have seen. */
  lemma PurgeKeepsAnswers(routes: Routes, peer: Id, t: real, now: real)
    requires t <= now
    ensures RouteTo(PurgedRoutes(routes, t), peer, now) == RouteTo(routes, peer, now)
  {
  }
}
