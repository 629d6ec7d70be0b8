/** A network of routers joined by a lossy, reordering, duplicating datagram service, and the
    invariant every run of it keeps (mesh/router.py:241-360 as seen by all nodes at once).

    Three fields of Net and two of Flight are history: they record what happened and no node
    reads them.  `issued` holds every claim ever broadcast, `links` every (sender, receiver)
    pair that ever was a session, `accepted` the route by which a node accepted a claim;
    `trail` lists the nodes a copy has passed, `clean` whether each of them knew the bundle. */
module OriginatorNet {
  import opened Addresses
  import opened Wrappers
  import opened Router

  datatype Node = Node(router: RouterState, sessions: seq<Session>)

  datatype Flight = Flight(src: Addr, dst: Addr, senderId: Id, msg: Originator, trail: seq<Addr>, clean: bool)

  type Acceptances = map<(Addr, Id, nat), seq<Addr>>

  datatype Net = Net(
    nodes: map<Addr, Node>,
    flights: seq<Flight>,
    issued: map<(Id, nat), Claim>,
    links: set<(Addr, Addr)>,
    accepted: Acceptances)

  /** Anything that can happen next.  A step that does not apply leaves the network as it is. */
  datatype Step =
    | Broadcast(a: Addr, now: real)
    | Deliver(i: nat)
    | Lose(i: nat)
    | Duplicate(i: nat)
    | Purge(a: Addr, now: real)
    | AddSession(a: Addr, peerId: Id, peerAddr: Addr)
    | Register(a: Addr, b: Addr)

  function Launch(src: Addr, senderId: Id, sends: seq<Send>, trail: seq<Addr>, clean: bool): (fs: seq<Flight>)
    ensures |fs| == |sends|
    ensures forall i :: 0 <= i < |fs| ==> fs[i] == Flight(src, sends[i].dst, senderId, sends[i].msg, trail, clean)
  {
    seq(|sends|, i requires 0 <= i < |sends| => Flight(src, sends[i].dst, senderId, sends[i].msg, trail, clean))
  }

  function Removed<T>(s: seq<T>, i: nat): seq<T>
    requires i < |s|
  {
    s[..i] + s[i + 1..]
  }

  function SetSession(sessions: seq<Session>, s: Session): seq<Session> {
    if sessions == [] then [s]
    else if sessions[0].peerId == s.peerId then [s] + sessions[1..]
    else [sessions[0]] + SetSession(sessions[1..], s)
  }

  function AfterBroadcast(net: Net, a: Addr, now: real): Net
    requires a in net.nodes
  {
    var node := net.nodes[a];
    var r := node.router;
    var m := OwnOriginator(r, now);
    net.(
      nodes := net.nodes[a := node.(router := r.(seqNum := r.seqNum + 1))],
      flights := net.flights + Launch(a, r.id, FanOut(node.sessions, None, m), [a], true),
      issued := net.issued[(r.id, m.claim.seqNum) := m.claim])
  }

  function AfterDelivery(net: Net, i: nat): Net
    requires i < |net.flights|
  {
    var f := net.flights[i];
    var rest := net.(flights := Removed(net.flights, i));
    if f.dst !in net.nodes then rest
    else
      var node := net.nodes[f.dst];
      var r := node.router;
      var claim := f.msg.claim;
      var sends := RelaySends(r, f.msg, f.src, node.sessions);
      var trail := f.trail + [f.dst];
      rest.(
        nodes := net.nodes[f.dst := node.(router := AfterOriginator(r, f.msg, f.src, f.senderId))],
        flights := rest.flights + Launch(f.dst, r.id, sends, trail, f.clean && claim.oid in r.known),
        accepted := if Accepts(r, f.msg) then net.accepted[(f.dst, claim.oid, claim.seqNum) := trail]
                    else net.accepted)
  }

  function Next(net: Net, step: Step): Net {
    match step
    case Broadcast(a, now) => if a in net.nodes then AfterBroadcast(net, a, now) else net
    case Deliver(i) => if i < |net.flights| then AfterDelivery(net, i) else net
    case Lose(i) => if i < |net.flights| then net.(flights := Removed(net.flights, i)) else net
    case Duplicate(i) => if i < |net.flights| then net.(flights := net.flights + [net.flights[i]]) else net
    case Purge(a, now) =>
      if a !in net.nodes then net
      else
        var node := net.nodes[a];
        var r := node.router;
        net.(nodes := net.nodes[a := node.(router := r.(routes := PurgedRoutes(r.routes, now)))])
    case AddSession(a, peerId, peerAddr) =>
      if a !in net.nodes then net
      else
        var node := net.nodes[a];
        net.(nodes := net.nodes[a := node.(sessions := SetSession(node.sessions, Session(peerId, peerAddr)))],
             links := net.links + {(a, peerAddr)})
    case Register(a, b) =>
      if a !in net.nodes || b !in net.nodes then net
      else
        var node := net.nodes[a];
        var r := node.router;
        var s := net.nodes[b].router;
        net.(nodes := net.nodes[a := node.(router := r.(known := r.known[s.id := s.signKey]))])
  }

  function Run(net: Net, steps: seq<Step>): Net {
    if steps == [] then net else Next(Run(net, steps[..|steps| - 1]), steps[|steps| - 1])
  }

  ghost predicate HasSession(node: Node, x: Addr) {
    exists s :: s in node.sessions && s.peerAddr == x
  }

  /** The links are the sessions there are, and no others. */
  ghost predicate LinksAreSessions(net: Net) {
    forall a, x :: (a, x) in net.links <==> a in net.nodes && HasSession(net.nodes[a], x)
  }

  /** Freshly started routers with distinct device ids and signing keys; sessions may already exist, and
      bundles be known. */
  ghost predicate Init(net: Net) {
    && net.flights == [] && net.issued == map[] && net.accepted == map[]
    && DistinctNodes(net) && LinksAreSessions(net) && BundlesHonest(net)
    && forall a :: a in net.nodes ==>
        var r := net.nodes[a].router; r.seqNum == 0 && r.routes == map[] && r.seenSeq == map[]
  }

  ghost predicate Reachable(net: Net) {
    exists init, steps :: Init(init) && net == Run(init, steps)
  }

  // ---------------------------------------------------------------- the invariant

  ghost predicate DistinctNodes(net: Net) {
    forall a, b {:trigger net.nodes[a].router, net.nodes[b].router} ::
      a in net.nodes && b in net.nodes && a != b ==>
        net.nodes[a].router.id != net.nodes[b].router.id && net.nodes[a].router.signKey != net.nodes[b].router.signKey
  }

  ghost predicate SessionsLinked(net: Net) {
    forall a, s :: a in net.nodes && s in net.nodes[a].sessions ==> (a, s.peerAddr) in net.links
  }

  ghost predicate BundlesHonest(net: Net) {
    forall a, b :: a in net.nodes && b in net.nodes && net.nodes[b].router.id in net.nodes[a].router.known ==>
      net.nodes[a].router.known[net.nodes[b].router.id] == net.nodes[b].router.signKey
  }

  /** `t` is a route of claim (o, s): it starts at o's own node, each hop used a session, and each
      later node accepted the claim exactly along the part of `t` that ends at it. */
  ghost predicate Route(net: Net, o: Id, s: nat, t: seq<Addr>) {
    && |t| >= 1
    && t[0] in net.nodes && net.nodes[t[0]].router.id == o
    && (forall x :: x in t ==> x in net.nodes)
    && (o, s) in net.issued
    && forall i :: 1 <= i < |t| ==> Hop(net, o, s, t, i)
  }

  ghost predicate Hop(net: Net, o: Id, s: nat, t: seq<Addr>, i: nat)
    requires 1 <= i < |t|
  {
    && (t[i - 1], t[i]) in net.links
    && (t[i], o, s) in net.accepted && net.accepted[(t[i], o, s)] == t[..i + 1]
  }

  ghost predicate IssuedHonest(net: Net) {
    && (forall o, s :: (o, s) in net.issued ==> net.issued[(o, s)].oid == o && net.issued[(o, s)].seqNum == s)
    && (forall a, s :: a in net.nodes && (net.nodes[a].router.id, s) in net.issued ==>
          s <= net.nodes[a].router.seqNum
          && net.issued[(net.nodes[a].router.id, s)].maxHops == net.nodes[a].router.maxHops)
  }

  ghost predicate FlightHonest(net: Net, f: Flight) {
    var c := f.msg.claim;
    && Route(net, c.oid, c.seqNum, f.trail)
    && |f.trail| == f.msg.hopCount + 1
    && f.src == f.trail[|f.trail| - 1] && f.senderId == net.nodes[f.src].router.id
    && (f.src, f.dst) in net.links
    && f.msg.hopCount <= c.maxHops
    && c == net.issued[(c.oid, c.seqNum)]
    && f.msg.sig.claim == c
    && (f.clean <==> f.msg.sig.key == net.nodes[f.trail[0]].router.signKey)
  }

  ghost predicate FlightsHonest(net: Net) {
    forall f :: f in net.flights ==> FlightHonest(net, f)
  }

  ghost predicate AcceptanceHonest(net: Net, v: Addr, o: Id, s: nat)
    requires (v, o, s) in net.accepted
  {
    var t := net.accepted[(v, o, s)];
    && Route(net, o, s, t)
    && 2 <= |t| <= net.issued[(o, s)].maxHops + 2
    && v == t[|t| - 1]
    && v in net.nodes && o != net.nodes[v].router.id
    && o in net.nodes[v].router.seenSeq && s <= net.nodes[v].router.seenSeq[o]
  }

  ghost predicate AcceptancesHonest(net: Net) {
    forall v, o, s :: (v, o, s) in net.accepted ==> AcceptanceHonest(net, v, o, s)
  }

  /** A stored route is the last acceptance, entry for entry. */
  ghost predicate RouteEntryHonest(net: Net, v: Addr, o: Id)
    requires v in net.nodes && o in net.nodes[v].router.routes
  {
    var r := net.nodes[v].router;
    var e := r.routes[o];
    && e.originatorId == o
    && o in r.seenSeq && e.seqNum == r.seenSeq[o]
    && (v, o, e.seqNum) in net.accepted
    && var t := net.accepted[(v, o, e.seqNum)];
    && |t| == e.hopCount + 1 && 2 <= |t|
    && e.nextHopAddr == t[|t| - 2]
    && e.nextHopAddr in net.nodes && e.nextHopId == net.nodes[e.nextHopAddr].router.id
    && (o, e.seqNum) in net.issued && e.lastSeen == net.issued[(o, e.seqNum)].timestamp
  }

  ghost predicate TablesHonest(net: Net) {
    forall v, o :: v in net.nodes && o in net.nodes[v].router.routes ==> RouteEntryHonest(net, v, o)
  }

  ghost predicate Inv(net: Net) {
    && DistinctNodes(net) && SessionsLinked(net) && BundlesHonest(net) && IssuedHonest(net)
    && FlightsHonest(net) && AcceptancesHonest(net) && TablesHonest(net)
  }

  // ---------------------------------------------------------------- preservation

  /** What an honest record refers to only grows, and node identities stay. */
  ghost predicate Extends(net: Net, net': Net) {
    && net'.nodes.Keys == net.nodes.Keys
    && net.links <= net'.links
    && (forall a :: a in net.nodes ==> SameNode(net.nodes[a].router, net'.nodes[a].router))
    && (forall k :: k in net.issued ==> k in net'.issued && net'.issued[k] == net.issued[k])
    && (forall k :: k in net.accepted ==> k in net'.accepted && net'.accepted[k] == net.accepted[k])
  }

  ghost predicate SameNode(r: RouterState, r': RouterState) {
    && r'.id == r.id && r'.signKey == r.signKey && r'.maxHops == r.maxHops
    && forall o :: o in r.seenSeq ==> o in r'.seenSeq && r.seenSeq[o] <= r'.seenSeq[o]
  }

  lemma RouteExtends(net: Net, net': Net, o: Id, s: nat, t: seq<Addr>)
    requires Extends(net, net') && Route(net, o, s, t)
    ensures Route(net', o, s, t)
  {
    forall i | 1 <= i < |t| ensures Hop(net', o, s, t, i) {
      assert Hop(net, o, s, t, i);
    }
  }

  lemma FlightExtends(net: Net, net': Net, f: Flight)
    requires Extends(net, net') && FlightHonest(net, f)
    ensures FlightHonest(net', f)
  {
    RouteExtends(net, net', f.msg.claim.oid, f.msg.claim.seqNum, f.trail);
  }

  lemma AcceptanceExtends(net: Net, net': Net, v: Addr, o: Id, s: nat)
    requires Extends(net, net') && (v, o, s) in net.accepted && AcceptanceHonest(net, v, o, s)
    ensures AcceptanceHonest(net', v, o, s)
  {
    RouteExtends(net, net', o, s, net.accepted[(v, o, s)]);
  }

  /** A table entry stays honest when its node's entry and last accepted number are the same. */
  lemma EntryExtends(net: Net, net': Net, v: Addr, o: Id)
    requires Extends(net, net')
    requires v in net.nodes && o in net.nodes[v].router.routes && RouteEntryHonest(net, v, o)
    requires o in net'.nodes[v].router.routes && net'.nodes[v].router.routes[o] == net.nodes[v].router.routes[o]
    requires o in net'.nodes[v].router.seenSeq && net'.nodes[v].router.seenSeq[o] == net.nodes[v].router.seenSeq[o]
    ensures RouteEntryHonest(net', v, o)
  {
    var e := net.nodes[v].router.routes[o];
    assert net'.accepted[(v, o, e.seqNum)] == net.accepted[(v, o, e.seqNum)];
    assert SameNode(net.nodes[e.nextHopAddr].router, net'.nodes[e.nextHopAddr].router);
  }

  lemma DistinctExtends(net: Net, net': Net)
    requires Extends(net, net') && DistinctNodes(net)
    ensures DistinctNodes(net')
  {
    forall a, b | a in net'.nodes && b in net'.nodes && a != b
      ensures net'.nodes[a].router.id != net'.nodes[b].router.id
              && net'.nodes[a].router.signKey != net'.nodes[b].router.signKey
    {
      assert SameNode(net.nodes[a].router, net'.nodes[a].router) && SameNode(net.nodes[b].router, net'.nodes[b].router);
    }
  }

  lemma OldFlightsExtend(net: Net, net': Net)
    requires Extends(net, net') && FlightsHonest(net)
    ensures forall f :: f in net.flights ==> FlightHonest(net', f)
  {
    forall f | f in net.flights ensures FlightHonest(net', f) {
      FlightExtends(net, net', f);
    }
  }

  lemma OldAcceptancesExtend(net: Net, net': Net)
    requires Extends(net, net') && AcceptancesHonest(net)
    ensures forall v, o, s :: (v, o, s) in net.accepted ==>
                                (v, o, s) in net'.accepted && AcceptanceHonest(net', v, o, s)
  {
    forall v, o, s | (v, o, s) in net.accepted ensures (v, o, s) in net'.accepted && AcceptanceHonest(net', v, o, s) {
      AcceptanceExtends(net, net', v, o, s);
    }
  }

  /** Tables in which nothing was entered: every entry is an old one and its node accepted nothing since. */
  ghost predicate TablesOnlyShrink(net: Net, net': Net)
    requires net'.nodes.Keys == net.nodes.Keys
  {
    forall v, o :: v in net'.nodes && o in net'.nodes[v].router.routes ==> EntryKept(net, net', v, o)
  }

  ghost predicate EntryKept(net: Net, net': Net, v: Addr, o: Id)
    requires v in net'.nodes && v in net.nodes && o in net'.nodes[v].router.routes
  {
    && o in net.nodes[v].router.routes
    && net'.nodes[v].router.routes[o] == net.nodes[v].router.routes[o]
    && net'.nodes[v].router.seenSeq == net.nodes[v].router.seenSeq
  }

  lemma TablesExtend(net: Net, net': Net)
    requires Extends(net, net') && TablesHonest(net) && TablesOnlyShrink(net, net')
    ensures TablesHonest(net')
  {
    forall v, o | v in net'.nodes && o in net'.nodes[v].router.routes ensures RouteEntryHonest(net', v, o) {
      assert EntryKept(net, net', v, o);
      assert RouteEntryHonest(net, v, o);
      EntryExtends(net, net', v, o);
    }
  }

  lemma {:induction false} FanOutDestinations(sessions: seq<Session>, except: Option<Addr>, m: Originator)
    ensures forall p :: p in FanOut(sessions, except, m) ==>
              p.msg == m && except != Some(p.dst) && exists s :: s in sessions && s.peerAddr == p.dst
  {
    if sessions != [] {
      var n := |sessions| - 1;
      FanOutDestinations(sessions[..n], except, m);
      assert sessions[n] in sessions;
    }
  }

  lemma {:induction false} SetSessionElements(sessions: seq<Session>, s: Session)
    ensures forall x :: x in SetSession(sessions, s) ==> x in sessions || x == s
  {
    if sessions != [] {
      SetSessionElements(sessions[1..], s);
    }
  }

  lemma BroadcastIssuesHonestly(net: Net, a: Addr, now: real)
    requires Inv(net) && a in net.nodes
    ensures IssuedHonest(AfterBroadcast(net, a, now))
  {
    var net' := AfterBroadcast(net, a, now);
    forall b, s | b in net'.nodes && (net'.nodes[b].router.id, s) in net'.issued
      ensures s <= net'.nodes[b].router.seqNum
      ensures net'.issued[(net'.nodes[b].router.id, s)].maxHops == net'.nodes[b].router.maxHops
    {
      if b != a {
        assert net.nodes[b].router.id != net.nodes[a].router.id;
        assert (net.nodes[b].router.id, s) in net.issued;
      }
    }
  }

  lemma BroadcastGrows(net: Net, a: Addr, now: real)
    requires IssuedHonest(net) && a in net.nodes
    ensures Extends(net, AfterBroadcast(net, a, now))
  {
    assert (net.nodes[a].router.id, net.nodes[a].router.seqNum + 1) !in net.issued;
  }

  lemma BroadcastExtends(net: Net, a: Addr, now: real)
    requires SessionsLinked(net) && BundlesHonest(net) && IssuedHonest(net) && a in net.nodes
    ensures var net' := AfterBroadcast(net, a, now);
            Extends(net, net') && SessionsLinked(net') && BundlesHonest(net') && TablesOnlyShrink(net, net')
  {
    var net' := AfterBroadcast(net, a, now);
    BroadcastGrows(net, a, now);
    forall x, s | x in net'.nodes && s in net'.nodes[x].sessions ensures (x, s.peerAddr) in net'.links {
      assert s in net.nodes[x].sessions;
    }
    forall v, o | v in net'.nodes && o in net'.nodes[v].router.routes ensures EntryKept(net, net', v, o) {
    }
  }

  /** A node's own originator packet, as launched over any of its sessions. */
  lemma OwnFlightHonest(net: Net, net': Net, a: Addr, m: Originator, f: Flight)
    requires Extends(net, net') && a in net.nodes && (a, f.dst) in net.links
    requires m.claim.oid == net.nodes[a].router.id && m.hopCount == 0
             && m.sig == Signature(net.nodes[a].router.signKey, m.claim)
    requires (m.claim.oid, m.claim.seqNum) in net'.issued && net'.issued[(m.claim.oid, m.claim.seqNum)] == m.claim
    requires f == Flight(a, f.dst, m.claim.oid, m, [a], true)
    ensures FlightHonest(net', f)
  {
    assert SameNode(net.nodes[a].router, net'.nodes[a].router);
  }

  lemma BroadcastLaunchesHonestly(net: Net, a: Addr, now: real)
    requires Inv(net) && a in net.nodes
    ensures FlightsHonest(AfterBroadcast(net, a, now))
  {
    var net' := AfterBroadcast(net, a, now);
    var r := net.nodes[a].router;
    var m := OwnOriginator(r, now);
    BroadcastGrows(net, a, now);
    OldFlightsExtend(net, net');
    FanOutDestinations(net.nodes[a].sessions, None, m);
    forall f | f in net'.flights ensures FlightHonest(net', f) {
      if f !in net.flights {
        OwnFlightHonest(net, net', a, m, f);
      }
    }
  }

  lemma BroadcastKeepsInv(net: Net, a: Addr, now: real)
    requires Inv(net) && a in net.nodes
    ensures Inv(AfterBroadcast(net, a, now))
  {
    var net' := AfterBroadcast(net, a, now);
    BroadcastExtends(net, a, now);
    BroadcastLaunchesHonestly(net, a, now);
    BroadcastIssuesHonestly(net, a, now);
    DistinctExtends(net, net');
    OldAcceptancesExtend(net, net');
    TablesExtend(net, net');
  }

  /** The handler reaches update_route only with a sequence number above the stored one, so
      neither early return of update_route is ever taken and the first copy to arrive fixes the route. */
  lemma HandlerNeverSuperseded(net: Net, v: Addr, m: Originator, fromAddr: Addr, senderId: Id)
    requires Inv(net) && v in net.nodes && Accepts(net.nodes[v].router, m)
    ensures !Superseded(net.nodes[v].router.routes, EntryFor(m, fromAddr, senderId))
  {
    var o := m.claim.oid;
    if o in net.nodes[v].router.routes {
      assert RouteEntryHonest(net, v, o);
    }
  }

  /** Flight i is accepted by the node it reaches. */
  ghost predicate AcceptedFlight(net: Net, i: nat)
    requires i < |net.flights|
  {
    var f := net.flights[i];
    f.dst in net.nodes && Accepts(net.nodes[f.dst].router, f.msg)
  }

  /** net' differs from net in the node at v only, whose identity and counter are the same. */
  ghost predicate UpdatesNode(net: Net, net': Net, v: Addr) {
    && v in net.nodes && v in net'.nodes && net'.nodes == net.nodes[v := net'.nodes[v]]
    && SameNode(net.nodes[v].router, net'.nodes[v].router)
    && net'.nodes[v].router.seqNum == net.nodes[v].router.seqNum
    && net'.issued == net.issued && net.links <= net'.links
    && (forall k :: k in net.accepted ==> k in net'.accepted && net'.accepted[k] == net.accepted[k])
  }

  lemma UpdateExtends(net: Net, net': Net, v: Addr)
    requires UpdatesNode(net, net', v)
    ensures Extends(net, net')
  {
  }

  lemma UpdateIssued(net: Net, net': Net, v: Addr)
    requires UpdatesNode(net, net', v) && IssuedHonest(net)
    ensures IssuedHonest(net')
  {
    forall a, s | a in net'.nodes && (net'.nodes[a].router.id, s) in net'.issued
      ensures s <= net'.nodes[a].router.seqNum
      ensures net'.issued[(net'.nodes[a].router.id, s)].maxHops == net'.nodes[a].router.maxHops
    {
      assert (net.nodes[a].router.id, s) in net.issued;
    }
  }

  lemma UpdateSessions(net: Net, net': Net, v: Addr)
    requires UpdatesNode(net, net', v) && SessionsLinked(net)
    requires forall s :: s in net'.nodes[v].sessions ==> (v, s.peerAddr) in net'.links
    ensures SessionsLinked(net')
  {
    forall x, s | x in net'.nodes && s in net'.nodes[x].sessions ensures (x, s.peerAddr) in net'.links {
      assert x == v || s in net.nodes[x].sessions;
    }
  }

  lemma UpdateBundles(net: Net, net': Net, v: Addr)
    requires UpdatesNode(net, net', v) && BundlesHonest(net)
    requires forall b :: b in net.nodes && net.nodes[b].router.id in net'.nodes[v].router.known ==>
               net'.nodes[v].router.known[net.nodes[b].router.id] == net.nodes[b].router.signKey
    ensures BundlesHonest(net')
  {
    forall a, b | a in net'.nodes && b in net'.nodes && net'.nodes[b].router.id in net'.nodes[a].router.known
      ensures net'.nodes[a].router.known[net'.nodes[b].router.id] == net'.nodes[b].router.signKey
    {
      assert net.nodes[b].router.id == net'.nodes[b].router.id;
      assert net.nodes[b].router.signKey == net'.nodes[b].router.signKey;
      assert a != v ==> net.nodes[b].router.id in net.nodes[a].router.known;
    }
  }

  lemma UpdateKeepsStatics(net: Net, net': Net, v: Addr)
    requires Inv(net) && UpdatesNode(net, net', v)
    requires forall s :: s in net'.nodes[v].sessions ==> (v, s.peerAddr) in net'.links
    requires forall b :: b in net.nodes && net.nodes[b].router.id in net'.nodes[v].router.known ==>
               net'.nodes[v].router.known[net.nodes[b].router.id] == net.nodes[b].router.signKey
    ensures Extends(net, net') && DistinctNodes(net') && SessionsLinked(net')
            && BundlesHonest(net') && IssuedHonest(net')
  {
    UpdateExtends(net, net', v);
    DistinctExtends(net, net');
    UpdateIssued(net, net', v);
    UpdateSessions(net, net', v);
    UpdateBundles(net, net', v);
  }

  lemma FreshAcceptance(net: Net, i: nat)
    requires Inv(net) && i < |net.flights| && AcceptedFlight(net, i)
    ensures var f := net.flights[i]; (f.dst, f.msg.claim.oid, f.msg.claim.seqNum) !in net.accepted
  {
  }

  lemma DeliveryExtends(net: Net, i: nat)
    requires Inv(net) && i < |net.flights|
    ensures var net' := AfterDelivery(net, i);
            Extends(net, net') && DistinctNodes(net') && SessionsLinked(net')
            && BundlesHonest(net') && IssuedHonest(net')
  {
    var f := net.flights[i];
    var net' := AfterDelivery(net, i);
    if f.dst in net.nodes {
      if AcceptedFlight(net, i) {
        FreshAcceptance(net, i);
      }
      assert UpdatesNode(net, net', f.dst);
      UpdateKeepsStatics(net, net', f.dst);
    }
  }

  lemma AcceptedTrail(net: Net, i: nat)
    requires Inv(net) && i < |net.flights| && AcceptedFlight(net, i)
    ensures var f := net.flights[i]; var c := f.msg.claim;
            Route(AfterDelivery(net, i), c.oid, c.seqNum, f.trail + [f.dst])
  {
    var f := net.flights[i];
    var c := f.msg.claim;
    var net' := AfterDelivery(net, i);
    assert FlightHonest(net, f);
    DeliveryExtends(net, i);
    RouteExtends(net, net', c.oid, c.seqNum, f.trail);
    RouteGrows(net', c.oid, c.seqNum, f.trail, f.dst);
  }

  lemma RouteGrows(net: Net, o: Id, s: nat, t: seq<Addr>, v: Addr)
    requires Route(net, o, s, t) && v in net.nodes && (t[|t| - 1], v) in net.links
    requires (v, o, s) in net.accepted && net.accepted[(v, o, s)] == t + [v]
    ensures Route(net, o, s, t + [v])
  {
    var t' := t + [v];
    forall k | 1 <= k < |t'| ensures Hop(net, o, s, t', k) {
      if k < |t| {
        assert Hop(net, o, s, t, k);
        assert t'[..k + 1] == t[..k + 1];
      } else {
        assert t'[..k + 1] == t';
      }
    }
  }

  /** A copy launched by the delivery of flight i. */
  ghost predicate RelayedFlight(net: Net, i: nat, g: Flight)
    requires i < |net.flights|
  {
    var f := net.flights[i];
    && AcceptedFlight(net, i) && f.msg.hopCount < f.msg.claim.maxHops
    && var r := net.nodes[f.dst].router;
    && g == Flight(f.dst, g.dst, r.id, Relayed(r, f.msg), f.trail + [f.dst], f.clean && f.msg.claim.oid in r.known)
    && (f.dst, g.dst) in net.links
  }

  lemma NewFlights(net: Net, i: nat, g: Flight)
    requires SessionsLinked(net) && i < |net.flights|
    requires g in AfterDelivery(net, i).flights && g !in net.flights
    ensures RelayedFlight(net, i, g)
  {
    var f := net.flights[i];
    var node := net.nodes[f.dst];
    FanOutDestinations(node.sessions, Some(f.src), Relayed(node.router, f.msg));
  }

  lemma RelayedIsHonest(net: Net, i: nat, g: Flight)
    requires Inv(net) && i < |net.flights| && RelayedFlight(net, i, g)
    ensures FlightHonest(AfterDelivery(net, i), g)
  {
    var f := net.flights[i];
    assert FlightHonest(net, f);
    DeliveryExtends(net, i);
    AcceptedTrail(net, i);
    RelayedSignature(net, f);
  }

  lemma DeliveryLaunchesHonestly(net: Net, i: nat)
    requires Inv(net) && i < |net.flights|
    ensures FlightsHonest(AfterDelivery(net, i))
  {
    var net' := AfterDelivery(net, i);
    DeliveryExtends(net, i);
    OldFlightsExtend(net, net');
    forall g | g in net'.flights ensures FlightHonest(net', g) {
      if g !in net.flights {
        NewFlights(net, i, g);
        RelayedIsHonest(net, i, g);
      }
    }
  }

  /** After a relay the copy carries the origin's signature iff it did before and the relay knew the bundle. */
  lemma RelayedSignature(net: Net, f: Flight)
    requires Inv(net) && FlightHonest(net, f) && f.dst in net.nodes && Accepts(net.nodes[f.dst].router, f.msg)
    ensures var r := net.nodes[f.dst].router; var m := Relayed(r, f.msg);
            && m.sig.claim == m.claim
            && (m.sig.key == net.nodes[f.trail[0]].router.signKey <==> f.clean && f.msg.claim.oid in r.known)
  {
    var r := net.nodes[f.dst].router;
    var origin := net.nodes[f.trail[0]].router;
    assert origin.id == f.msg.claim.oid && origin.id != r.id;
    if origin.id in r.known {
      assert r.known[origin.id] == origin.signKey;
    }
  }

  lemma NewAcceptance(net: Net, i: nat)
    requires Inv(net) && i < |net.flights| && AcceptedFlight(net, i)
    ensures var f := net.flights[i]; var c := f.msg.claim; var net' := AfterDelivery(net, i);
            (f.dst, c.oid, c.seqNum) in net'.accepted && AcceptanceHonest(net', f.dst, c.oid, c.seqNum)
  {
    var f := net.flights[i];
    assert FlightHonest(net, f);
    AcceptedTrail(net, i);
    DeliveryExtends(net, i);
  }

  lemma DeliveryAcceptsHonestly(net: Net, i: nat)
    requires Inv(net) && i < |net.flights|
    ensures AcceptancesHonest(AfterDelivery(net, i))
  {
    var f := net.flights[i];
    var net' := AfterDelivery(net, i);
    DeliveryExtends(net, i);
    OldAcceptancesExtend(net, net');
    if AcceptedFlight(net, i) {
      NewAcceptance(net, i);
    }
  }

  /** What the handler writes when it accepts flight i. */
  lemma AcceptedState(net: Net, i: nat)
    requires Inv(net) && i < |net.flights| && AcceptedFlight(net, i)
    ensures var f := net.flights[i]; var c := f.msg.claim; var net' := AfterDelivery(net, i);
            && f.dst in net'.nodes
            && var r := net'.nodes[f.dst].router;
            && c.oid in r.seenSeq && r.seenSeq[c.oid] == c.seqNum
            && c.oid in r.routes && r.routes[c.oid] == EntryFor(f.msg, f.src, f.senderId)
            && (f.dst, c.oid, c.seqNum) in net'.accepted
            && net'.accepted[(f.dst, c.oid, c.seqNum)] == f.trail + [f.dst]
  {
    var f := net.flights[i];
    HandlerNeverSuperseded(net, f.dst, f.msg, f.src, f.senderId);
  }

  lemma AcceptedEntry(net: Net, i: nat)
    requires Inv(net) && i < |net.flights| && AcceptedFlight(net, i)
    ensures var f := net.flights[i]; var o := f.msg.claim.oid; var net' := AfterDelivery(net, i);
            o in net'.nodes[f.dst].router.routes && RouteEntryHonest(net', f.dst, o)
  {
    var f := net.flights[i];
    var net' := AfterDelivery(net, i);
    DeliveryExtends(net, i);
    assert FlightHonest(net, f);
    AcceptedState(net, i);
    EntryFromTrail(net', f);
  }

  /** The entry the handler writes for a copy describes the route the copy took. */
  lemma EntryFromTrail(net: Net, f: Flight)
    requires f.dst in net.nodes && f.src in net.nodes && |f.trail| >= 1 && f.trail[|f.trail| - 1] == f.src
    requires |f.trail| == f.msg.hopCount + 1 && f.senderId == net.nodes[f.src].router.id
    requires var c := f.msg.claim; var r := net.nodes[f.dst].router;
             && c.oid in r.seenSeq && r.seenSeq[c.oid] == c.seqNum
             && c.oid in r.routes && r.routes[c.oid] == EntryFor(f.msg, f.src, f.senderId)
             && (f.dst, c.oid, c.seqNum) in net.accepted
             && net.accepted[(f.dst, c.oid, c.seqNum)] == f.trail + [f.dst]
             && (c.oid, c.seqNum) in net.issued && net.issued[(c.oid, c.seqNum)] == c
    ensures RouteEntryHonest(net, f.dst, f.msg.claim.oid)
  {
  }

  lemma DeliveryTabulatesHonestly(net: Net, i: nat)
    requires Inv(net) && i < |net.flights|
    ensures TablesHonest(AfterDelivery(net, i))
  {
    var f := net.flights[i];
    var net' := AfterDelivery(net, i);
    DeliveryExtends(net, i);
    forall v, o | v in net'.nodes && o in net'.nodes[v].router.routes ensures RouteEntryHonest(net', v, o) {
      if AcceptedFlight(net, i) && v == f.dst && o == f.msg.claim.oid {
        AcceptedEntry(net, i);
      } else {
        OtherEntry(net, i, v, o);
      }
    }
  }

  lemma OtherEntry(net: Net, i: nat, v: Addr, o: Id)
    requires TablesHonest(net) && i < |net.flights| && v in net.nodes
    requires Extends(net, AfterDelivery(net, i))
    requires o in AfterDelivery(net, i).nodes[v].router.routes
    requires AcceptedFlight(net, i) ==> !(v == net.flights[i].dst && o == net.flights[i].msg.claim.oid)
    ensures RouteEntryHonest(AfterDelivery(net, i), v, o)
  {
    var net' := AfterDelivery(net, i);
    var r, r' := net.nodes[v].router, net'.nodes[v].router;
    assert o in r.routes && r'.routes[o] == r.routes[o] && (o in r.seenSeq <==> o in r'.seenSeq);
    assert o in r.seenSeq ==> r'.seenSeq[o] == r.seenSeq[o];
    assert RouteEntryHonest(net, v, o);
    EntryExtends(net, net', v, o);
  }

  lemma DeliveryKeepsInv(net: Net, i: nat)
    requires Inv(net) && i < |net.flights|
    ensures Inv(AfterDelivery(net, i))
  {
    DeliveryExtends(net, i);
    DeliveryLaunchesHonestly(net, i);
    DeliveryAcceptsHonestly(net, i);
    DeliveryTabulatesHonestly(net, i);
  }

  lemma LocalStepKeepsInv(net: Net, step: Step)
    requires Inv(net) && !step.Broadcast? && !step.Deliver?
    ensures Inv(Next(net, step))
  {
    var net' := Next(net, step);
    LocalStepExtends(net, step);
    OldFlightsExtend(net, net');
    OldAcceptancesExtend(net, net');
    LocalStepTables(net, step);
    TablesExtend(net, net');
  }

  lemma LocalStepTables(net: Net, step: Step)
    requires !step.Broadcast? && !step.Deliver?
    ensures var net' := Next(net, step); net'.nodes.Keys == net.nodes.Keys && TablesOnlyShrink(net, net')
  {
    var net' := Next(net, step);
    assert net'.nodes.Keys == net.nodes.Keys;
    forall v, o | v in net'.nodes && o in net'.nodes[v].router.routes ensures EntryKept(net, net', v, o) {
    }
  }

  lemma PurgeExtends(net: Net, a: Addr, now: real)
    requires Inv(net) && a in net.nodes
    ensures var net' := Next(net, Purge(a, now));
            Extends(net, net') && DistinctNodes(net') && SessionsLinked(net')
            && BundlesHonest(net') && IssuedHonest(net')
  {
    UpdateKeepsStatics(net, Next(net, Purge(a, now)), a);
  }

  lemma AddSessionExtends(net: Net, a: Addr, peerId: Id, peerAddr: Addr)
    requires Inv(net) && a in net.nodes
    ensures var net' := Next(net, AddSession(a, peerId, peerAddr));
            Extends(net, net') && DistinctNodes(net') && SessionsLinked(net')
            && BundlesHonest(net') && IssuedHonest(net')
  {
    SetSessionElements(net.nodes[a].sessions, Session(peerId, peerAddr));
    UpdateKeepsStatics(net, Next(net, AddSession(a, peerId, peerAddr)), a);
  }

  lemma RegisterExtends(net: Net, a: Addr, b: Addr)
    requires Inv(net) && a in net.nodes && b in net.nodes
    ensures var net' := Next(net, Register(a, b));
            Extends(net, net') && DistinctNodes(net') && SessionsLinked(net')
            && BundlesHonest(net') && IssuedHonest(net')
  {
    RegisterHonest(net, a, b);
    UpdateKeepsStatics(net, Next(net, Register(a, b)), a);
  }

  lemma FlightsExtend(net: Net, net': Net)
    requires Inv(net) && net' == net.(flights := net'.flights)
    ensures Extends(net, net') && DistinctNodes(net') && SessionsLinked(net')
            && BundlesHonest(net') && IssuedHonest(net')
  {
    assert net'.nodes == net.nodes && net'.accepted == net.accepted && net'.issued == net.issued;
    assert SessionsLinked(net') && BundlesHonest(net') && IssuedHonest(net') && DistinctNodes(net');
  }

  lemma LocalStepExtends(net: Net, step: Step)
    requires Inv(net) && !step.Broadcast? && !step.Deliver?
    ensures var net' := Next(net, step);
            Extends(net, net') && DistinctNodes(net') && SessionsLinked(net')
            && BundlesHonest(net') && IssuedHonest(net')
  {
    var net' := Next(net, step);
    if net' == net || step.Lose? || step.Duplicate? {
      FlightsExtend(net, net');
    } else if step.Purge? {
      PurgeExtends(net, step.a, step.now);
    } else if step.AddSession? {
      AddSessionExtends(net, step.a, step.peerId, step.peerAddr);
    } else {
      RegisterExtends(net, step.a, step.b);
    }
  }

  lemma RegisterHonest(net: Net, a: Addr, b: Addr)
    requires DistinctNodes(net) && BundlesHonest(net) && a in net.nodes && b in net.nodes
    ensures forall x :: x in net.nodes && net.nodes[x].router.id in Next(net, Register(a, b)).nodes[a].router.known ==>
              Next(net, Register(a, b)).nodes[a].router.known[net.nodes[x].router.id] == net.nodes[x].router.signKey
  {
    forall x | x in net.nodes && net.nodes[x].router.id in Next(net, Register(a, b)).nodes[a].router.known
      ensures Next(net, Register(a, b)).nodes[a].router.known[net.nodes[x].router.id] == net.nodes[x].router.signKey
    {
      if x != b {
        assert net.nodes[x].router.id != net.nodes[b].router.id;
      }
    }
  }

  lemma StepKeepsInv(net: Net, step: Step)
    requires Inv(net)
    ensures Inv(Next(net, step))
  {
    match step
    case Broadcast(a, now) => if a in net.nodes { BroadcastKeepsInv(net, a, now); }
    case Deliver(i) => if i < |net.flights| { DeliveryKeepsInv(net, i); }
    case _ => LocalStepKeepsInv(net, step);
  }

  lemma {:induction false} RunKeepsInv(net: Net, steps: seq<Step>)
    requires Inv(net)
    ensures Inv(Run(net, steps))
  {
    if steps != [] {
      RunKeepsInv(net, steps[..|steps| - 1]);
      StepKeepsInv(Run(net, steps[..|steps| - 1]), steps[|steps| - 1]);
    }
  }

  lemma ReachableInv(net: Net)
    requires Reachable(net)
    ensures Inv(net)
  {
    var init, steps :| Init(init) && net == Run(init, steps);
    RunKeepsInv(init, steps);
  }
}
