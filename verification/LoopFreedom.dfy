/** The results about routes that hold in every reachable state of the originator network. */
module LoopFreedom {
  import opened Addresses
  import opened Finite
  import opened Router
  import opened OriginatorNet

  ghost predicate HasRoute(net: Net, o: Id, a: Addr) {
    a in net.nodes && o in net.nodes[a].router.routes
  }

  ghost function Entry(net: Net, o: Id, a: Addr): RouteEntry
    requires HasRoute(net, o, a)
  {
    net.nodes[a].router.routes[o]
  }

  /** A packet for o standing at a is forwarded to b. */
  ghost predicate Forwards(net: Net, o: Id, a: Addr, b: Addr) {
    HasRoute(net, o, a) && Entry(net, o, a).nextHopAddr == b
  }

  ghost predicate Walk(net: Net, o: Id, p: seq<Addr>) {
    && p != [] && p[0] in net.nodes
    && forall i :: 0 <= i < |p| - 1 ==> Forwards(net, o, p[i], p[i + 1])
  }

  ghost predicate IsOrigin(net: Net, o: Id, a: Addr) {
    a in net.nodes && net.nodes[a].router.id == o
  }

  /** The node a route points to is the originator, or it accepted the same claim one hop earlier. */
  lemma NextHopAccepted(net: Net, o: Id, a: Addr)
    requires Inv(net) && HasRoute(net, o, a)
    ensures var e := Entry(net, o, a); var b := e.nextHopAddr;
            && !IsOrigin(net, o, a) && b in net.nodes && e.nextHopId == net.nodes[b].router.id
            && (IsOrigin(net, o, b)
                || ((b, o, e.seqNum) in net.accepted && |net.accepted[(b, o, e.seqNum)]| == e.hopCount))
  {
    var e := Entry(net, o, a);
    assert RouteEntryHonest(net, a, o);
    assert AcceptanceHonest(net, a, o, e.seqNum);
    var t := net.accepted[(a, o, e.seqNum)];
    if |t| > 2 {
      assert Hop(net, o, e.seqNum, t, |t| - 2);
    }
  }

  /** Following one hop, the sequence number rises, or stays while the hop count drops by one;
      otherwise the next node is the originator or has lost the route it once had. */
  lemma HopDescends(net: Net, o: Id, a: Addr)
    requires Inv(net) && HasRoute(net, o, a)
    ensures var e := Entry(net, o, a); var b := e.nextHopAddr;
            && b in net.nodes && e.nextHopId == net.nodes[b].router.id
            && !IsOrigin(net, o, a)
            && (HasRoute(net, o, b) ==>
                  var e' := Entry(net, o, b);
                  e'.seqNum > e.seqNum || (e'.seqNum == e.seqNum && e'.hopCount + 1 == e.hopCount))
            && (!HasRoute(net, o, b) ==> IsOrigin(net, o, b) || o in net.nodes[b].router.seenSeq)
  {
    var e := Entry(net, o, a);
    var b := e.nextHopAddr;
    NextHopAccepted(net, o, a);
    if IsOrigin(net, o, b) {
      OriginHasNoRoute(net, o, b);
    } else {
      assert AcceptanceHonest(net, b, o, e.seqNum);
      assert HasRoute(net, o, b) ==> RouteEntryHonest(net, b, o);
    }
  }

  lemma OriginHasNoRoute(net: Net, o: Id, a: Addr)
    requires Inv(net) && IsOrigin(net, o, a)
    ensures !HasRoute(net, o, a)
  {
  }

  lemma {:induction false} WalkDescends(net: Net, o: Id, p: seq<Addr>, i: nat, j: nat)
    requires Inv(net) && Walk(net, o, p) && i < j < |p| && HasRoute(net, o, p[j])
    ensures HasRoute(net, o, p[i])
    ensures var e, e' := Entry(net, o, p[i]), Entry(net, o, p[j]);
            e'.seqNum > e.seqNum || (e'.seqNum == e.seqNum && e'.hopCount < e.hopCount)
    decreases j - i
  {
    assert Forwards(net, o, p[j - 1], p[j]);
    HopDescends(net, o, p[j - 1]);
    if i < j - 1 {
      WalkDescends(net, o, p, i, j - 1);
    }
  }

  lemma {:induction false} WalkStaysInNetwork(net: Net, o: Id, p: seq<Addr>)
    requires Inv(net) && Walk(net, o, p)
    ensures forall x :: x in p ==> x in net.nodes
  {
    forall k | 0 <= k < |p| ensures p[k] in net.nodes {
      if k > 0 {
        assert Forwards(net, o, p[k - 1], p[k]);
        HopDescends(net, o, p[k - 1]);
      }
    }
  }

  /** Loop freedom: in every reachable state, following next hops never revisits a node. */
  lemma RoutesAreLoopFree(net: Net, o: Id, p: seq<Addr>)
    requires Reachable(net) && Walk(net, o, p)
    ensures Distinct(p) && |p| <= |net.nodes|
  {
    ReachableInv(net);
    forall i, j | 0 <= i < j < |p| ensures p[i] != p[j] {
      assert Forwards(net, o, p[i], p[i + 1]);
      if p[i] == p[j] {
        WalkDescends(net, o, p, i, j);
      }
    }
    WalkStaysInNetwork(net, o, p);
    DistinctFits(p, net.nodes.Keys);
    assert |net.nodes| == |net.nodes.Keys|;
  }

  /** Where a walk may stand after its first hop. */
  ghost predicate Reached(net: Net, o: Id, z: Addr) {
    z in net.nodes && (HasRoute(net, o, z) || IsOrigin(net, o, z) || o in net.nodes[z].router.seenSeq)
  }

  lemma WalkExtends(net: Net, o: Id, p: seq<Addr>, b: Addr)
    requires Walk(net, o, p) && Forwards(net, o, p[|p| - 1], b)
    ensures Walk(net, o, p + [b])
  {
    var q := p + [b];
    forall i | 0 <= i < |q| - 1 ensures Forwards(net, o, q[i], q[i + 1]) {
      if i < |p| - 1 {
        assert Forwards(net, o, p[i], p[i + 1]);
      }
    }
  }

  lemma WalkGrows(net: Net, o: Id, p: seq<Addr>) returns (q: seq<Addr>)
    requires Reachable(net) && Walk(net, o, p) && HasRoute(net, o, p[|p| - 1])
    ensures Walk(net, o, q) && q[0] == p[0] && |p| + 1 == |q| <= |net.nodes|
    ensures Reached(net, o, q[|q| - 1])
  {
    ReachableInv(net);
    HopDescends(net, o, p[|p| - 1]);
    q := p + [Entry(net, o, p[|p| - 1]).nextHopAddr];
    WalkExtends(net, o, p, Entry(net, o, p[|p| - 1]).nextHopAddr);
    RoutesAreLoopFree(net, o, q);
  }

  /** Forwarding from any node terminates: at the originator, at a node whose route was purged,
      or at once, at a node that never had one. */
  lemma {:induction false} ForwardingTerminates(net: Net, o: Id, p: seq<Addr>) returns (q: seq<Addr>)
    requires Reachable(net) && Walk(net, o, p) && (|p| == 1 || Reached(net, o, p[|p| - 1]))
    ensures Walk(net, o, q) && q[0] == p[0] && Distinct(q)
    ensures !HasRoute(net, o, q[|q| - 1]) && (|q| == 1 || Reached(net, o, q[|q| - 1]))
    decreases |net.nodes| - |p|
  {
    if HasRoute(net, o, p[|p| - 1]) {
      q := WalkGrows(net, o, p);
      q := ForwardingTerminates(net, o, q);
    } else {
      q := p;
      RoutesAreLoopFree(net, o, q);
    }
  }

  // ---------------------------------------------------------------- hop counts

  lemma RouteIsSimple(net: Net, o: Id, s: nat, t: seq<Addr>)
    requires Inv(net) && Route(net, o, s, t)
    ensures Distinct(t)
  {
    forall i, j | 0 <= i < j < |t| ensures t[i] != t[j] {
      assert Hop(net, o, s, t, j);
      if i > 0 {
        assert Hop(net, o, s, t, i);
      } else {
        assert AcceptanceHonest(net, t[j], o, s);
      }
      assert |t[..i + 1]| != |t[..j + 1]|;
    }
  }

  /** A simple path of session links from the originator to v, on which every later node accepted (o, s). */
  ghost predicate AcceptedPath(net: Net, o: Id, s: nat, v: Addr, t: seq<Addr>) {
    && 2 <= |t| && Distinct(t)
    && IsOrigin(net, o, t[0]) && t[|t| - 1] == v
    && forall i :: 1 <= i < |t| ==> (t[i - 1], t[i]) in net.links && (t[i], o, s) in net.accepted
  }

  lemma AcceptancesArePaths(net: Net, o: Id, s: nat, v: Addr)
    requires Inv(net) && (v, o, s) in net.accepted
    ensures var t := net.accepted[(v, o, s)];
            && AcceptedPath(net, o, s, v, t)
            && |t| <= net.nodes[t[0]].router.maxHops + 2 && s <= net.nodes[t[0]].router.seqNum
  {
    assert AcceptanceHonest(net, v, o, s);
    var t := net.accepted[(v, o, s)];
    RouteIsSimple(net, o, s, t);
    forall i | 1 <= i < |t| ensures (t[i - 1], t[i]) in net.links && (t[i], o, s) in net.accepted {
      assert Hop(net, o, s, t, i);
    }
  }

  /** A stored route with sequence number s and hop count h is witnessed by a simple path of exactly
      h session links from the originator, every node of it past the first having accepted s, and
      1 <= h <= max_hops + 1. */
  lemma HopCountIsSound(net: Net, o: Id, v: Addr) returns (t: seq<Addr>)
    requires Reachable(net) && HasRoute(net, o, v)
    ensures var e := Entry(net, o, v);
            && AcceptedPath(net, o, e.seqNum, v, t)
            && |t| == e.hopCount + 1 && t[|t| - 2] == e.nextHopAddr
            && 1 <= e.hopCount <= net.nodes[t[0]].router.maxHops + 1
            && e.seqNum <= net.nodes[t[0]].router.seqNum
  {
    ReachableInv(net);
    assert RouteEntryHonest(net, v, o);
    t := net.accepted[(v, o, Entry(net, o, v).seqNum)];
    AcceptancesArePaths(net, o, Entry(net, o, v).seqNum, v);
  }

  /** The stored sequence number is the last accepted one, also after purges. */
  lemma TablesAgree(net: Net, o: Id, v: Addr)
    requires Reachable(net) && HasRoute(net, o, v)
    ensures o in net.nodes[v].router.seenSeq && Entry(net, o, v).seqNum == net.nodes[v].router.seenSeq[o]
  {
    ReachableInv(net);
    assert RouteEntryHonest(net, v, o);
  }

  /** So whatever the handler of any node accepts goes into its table: neither early return of
      update_route is taken, and the first copy to arrive fixes the route. */
  lemma AcceptedIsStored(net: Net, v: Addr, m: Originator, from: Addr, sid: Id)
    requires Reachable(net) && v in net.nodes && Accepts(net.nodes[v].router, m)
    ensures !Superseded(net.nodes[v].router.routes, EntryFor(m, from, sid))
    ensures AfterOriginator(net.nodes[v].router, m, from, sid).routes ==
            net.nodes[v].router.routes[m.claim.oid := EntryFor(m, from, sid)]
  {
    ReachableInv(net);
    HandlerNeverSuperseded(net, v, m, from, sid);
  }

  /** Every copy in flight still carries the claim its originator issued, has travelled at most
      max_hops relays, and verifies under the originator's key iff every relay knew its bundle. */
  lemma CopiesAreFaithful(net: Net, f: Flight) returns (origin: Addr)
    requires Reachable(net) && f in net.flights
    ensures var c := f.msg.claim;
            && IsOrigin(net, c.oid, origin)
            && (c.oid, c.seqNum) in net.issued && c == net.issued[(c.oid, c.seqNum)]
            && f.msg.hopCount <= c.maxHops == net.nodes[origin].router.maxHops
            && (Verifies(f.msg, net.nodes[origin].router.signKey) <==> f.clean)
    ensures f.dst in net.nodes && f.msg.claim.oid in net.nodes[f.dst].router.known && !f.clean ==>
              !Accepts(net.nodes[f.dst].router, f.msg)
  {
    ReachableInv(net);
    assert FlightHonest(net, f);
    origin := f.trail[0];
    if f.dst in net.nodes && f.msg.claim.oid in net.nodes[f.dst].router.known {
      assert net.nodes[f.dst].router.known[net.nodes[origin].router.id] == net.nodes[origin].router.signKey;
    }
  }
}
