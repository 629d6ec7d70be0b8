/** How far a flood gets (mesh/router.py:253-360): every relay passes what it accepts to all its other
    sessions, so in a network that loses nothing every node hears of a broadcast that it can verify,
    as far as max_hops carries it. */
module Coverage {
  import opened Addresses
  import opened Wrappers
  import opened Finite
  import opened Router
  import opened OriginatorNet
  import opened LoopFreedom

  // ---------------------------------------------------------------- one step

  function FlightDests(fs: seq<Flight>): (d: seq<Addr>)
    ensures |d| == |fs| && forall i :: 0 <= i < |d| ==> d[i] == fs[i].dst
  {
    seq(|fs|, i requires 0 <= i < |fs| => fs[i].dst)
  }

  lemma LaunchSends(src: Addr, id: Id, sends: seq<Send>, trail: seq<Addr>, clean: bool)
    ensures var fs := Launch(src, id, sends, trail, clean);
            && FlightDests(fs) == Dests(sends)
            && forall g :: g in fs ==> g.src == src && g.senderId == id && exists p :: p in sends && p.msg == g.msg
  {
    var fs := Launch(src, id, sends, trail, clean);
    forall g | g in fs ensures exists p :: p in sends && p.msg == g.msg {
      var k :| 0 <= k < |fs| && fs[k] == g;
      assert sends[k] in sends;
    }
  }

  /** A broadcast adds one copy for every session, in their order: the next claim of the node, signed
      and at hop 0. */
  lemma BroadcastReaches(net: Net, a: Addr, now: real)
    requires a in net.nodes
    ensures var r := net.nodes[a].router; var fs := AfterBroadcast(net, a, now).flights;
            && |fs| == |net.flights| + |net.nodes[a].sessions| && fs[..|net.flights|] == net.flights
            && FlightDests(fs[|net.flights|..]) == PeerAddrs(net.nodes[a].sessions)
            && (forall g :: g in fs[|net.flights|..] ==>
                  && g.src == a && g.senderId == r.id && g.msg.hopCount == 0 && Verifies(g.msg, r.signKey)
                  && g.msg.claim == Claim(r.id, r.seqNum + 1, r.maxHops, now))
  {
    var r := net.nodes[a].router;
    var sends := FanOut(net.nodes[a].sessions, None, OwnOriginator(r, now));
    FanOutInOrder(net.nodes[a].sessions, OwnOriginator(r, now));
    FanOutReaches(net.nodes[a].sessions, None, OwnOriginator(r, now));
    LaunchSends(a, r.id, sends, [a], true);
    assert AfterBroadcast(net, a, now).flights[|net.flights|..] == Launch(a, r.id, sends, [a], true);
  }

  /** A delivery takes its copy away and adds, if the copy is accepted and has hops left, one copy for
      every session but those at the address it came from. */
  lemma DeliveryRelays(net: Net, i: nat)
    requires i < |net.flights| && net.flights[i].dst in net.nodes
    ensures var f := net.flights[i]; var node := net.nodes[f.dst]; var c := f.msg.claim;
            var fs := AfterDelivery(net, i).flights; var n := |net.flights| - 1;
            && n <= |fs| && fs[..n] == Removed(net.flights, i)
            && (forall g :: g in fs[n..] ==>
                  && g.src == f.dst && g.senderId == node.router.id
                  && g.msg.claim == c && g.msg.hopCount == f.msg.hopCount + 1)
            && (forall x :: multiset(FlightDests(fs[n..]))[x] ==
                  if Accepts(node.router, f.msg) && f.msg.hopCount < c.maxHops && x != f.src
                  then multiset(PeerAddrs(node.sessions))[x] else 0)
  {
    var f := net.flights[i];
    var node := net.nodes[f.dst];
    var sends := RelaySends(node.router, f.msg, f.src, node.sessions);
    RelayReaches(node.router, f.msg, f.src, node.sessions);
    var clean := f.clean && f.msg.claim.oid in node.router.known;
    LaunchSends(f.dst, node.router.id, sends, f.trail + [f.dst], clean);
    assert AfterDelivery(net, i).flights[|net.flights| - 1..]
        == Launch(f.dst, node.router.id, sends, f.trail + [f.dst], clean);
  }

  /** A copy from v to x carries the claim (o, s). */
  ghost predicate OnItsWay(net: Net, v: Addr, x: Addr, o: Id, s: nat) {
    exists f :: f in net.flights && f.src == v && f.dst == x && f.msg.claim.oid == o && f.msg.claim.seqNum == s
  }

  lemma SessionCounts(sessions: seq<Session>, x: Addr)
    requires exists q :: q in sessions && q.peerAddr == x
    ensures multiset(PeerAddrs(sessions))[x] > 0
  {
    var q :| q in sessions && q.peerAddr == x;
    var i :| 0 <= i < |sessions| && sessions[i] == q;
    assert PeerAddrs(sessions)[i] == x && x in PeerAddrs(sessions);
  }

  lemma DestIsFlight(fs: seq<Flight>, x: Addr)
    requires multiset(FlightDests(fs))[x] > 0
    ensures exists g :: g in fs && g.dst == x
  {
    assert x in FlightDests(fs);
    var k :| 0 <= k < |fs| && FlightDests(fs)[k] == x;
    assert fs[k] in fs;
  }

  lemma BroadcastSends(net: Net, a: Addr, now: real, x: Addr)
    requires a in net.nodes && HasSession(net.nodes[a], x)
    ensures OnItsWay(AfterBroadcast(net, a, now), a, x, net.nodes[a].router.id, net.nodes[a].router.seqNum + 1)
  {
    var fs := AfterBroadcast(net, a, now).flights;
    BroadcastReaches(net, a, now);
    SessionCounts(net.nodes[a].sessions, x);
    DestIsFlight(fs[|net.flights|..], x);
  }

  lemma DeliverySends(net: Net, i: nat, x: Addr)
    requires i < |net.flights| && net.flights[i].dst in net.nodes && x != net.flights[i].src
    requires HasSession(net.nodes[net.flights[i].dst], x)
    requires var f := net.flights[i]; Accepts(net.nodes[f.dst].router, f.msg) && f.msg.hopCount < f.msg.claim.maxHops
    ensures var f := net.flights[i];
            OnItsWay(AfterDelivery(net, i), f.dst, x, f.msg.claim.oid, f.msg.claim.seqNum)
  {
    var fs := AfterDelivery(net, i).flights;
    DeliveryRelays(net, i);
    SessionCounts(net.nodes[net.flights[i].dst].sessions, x);
    DestIsFlight(fs[|net.flights| - 1..], x);
  }

  // ---------------------------------------------------------------- what is seen was accepted

  ghost predicate SeenAccepted(net: Net) {
    forall v, o :: v in net.nodes && o in net.nodes[v].router.seenSeq ==>
                     (v, o, net.nodes[v].router.seenSeq[o]) in net.accepted
  }

  lemma StepKeepsSeen(net: Net, step: Step)
    requires SeenAccepted(net)
    ensures SeenAccepted(Next(net, step))
  {
  }

  lemma {:induction false} RunKeepsSeen(net: Net, steps: seq<Step>)
    requires SeenAccepted(net)
    ensures SeenAccepted(Run(net, steps))
  {
    if steps != [] {
      RunKeepsSeen(net, steps[..|steps| - 1]);
      StepKeepsSeen(Run(net, steps[..|steps| - 1]), steps[|steps| - 1]);
    }
  }

  lemma ReachableSeen(net: Net)
    requires Reachable(net)
    ensures SeenAccepted(net)
  {
    var init, steps :| Init(init) && net == Run(init, steps);
    RunKeepsSeen(init, steps);
  }

  ghost predicate AcceptedSince(net: Net, v: Addr, o: Id, s: nat) {
    exists n: nat :: n >= s && (v, o, n) in net.accepted
  }

  /** A node accepts a copy exactly when the claim is not its own, nothing as new was ever accepted
      there, and, if the node knows the originator, every relay did. */
  lemma AcceptsExactly(net: Net, f: Flight)
    requires Reachable(net) && f in net.flights && f.dst in net.nodes
    ensures var r := net.nodes[f.dst].router; var c := f.msg.claim;
            Accepts(r, f.msg) <==>
              c.oid != r.id && !AcceptedSince(net, f.dst, c.oid, c.seqNum) && (c.oid in r.known ==> f.clean)
  {
    ReachableInv(net);
    ReachableSeen(net);
    var r, c := net.nodes[f.dst].router, f.msg.claim;
    var origin := CopiesAreFaithful(net, f);
    if AcceptedSince(net, f.dst, c.oid, c.seqNum) {
      var n: nat :| n >= c.seqNum && (f.dst, c.oid, n) in net.accepted;
      assert AcceptanceHonest(net, f.dst, c.oid, n);
    }
    if c.oid in r.known {
      assert r.known[net.nodes[origin].router.id] == net.nodes[origin].router.signKey;
    }
  }

  // ---------------------------------------------------------------- whole runs

  /** Nothing is lost, and sessions and known bundles stay as they are. */
  predicate Steady(step: Step) {
    !step.Lose? && !step.AddSession? && !step.Register?
  }

  /** Some relay on the way did not know the originator, so the copy does not carry its signature. */
  ghost predicate Doubtful(net: Net, o: Id, t: seq<Addr>) {
    exists i :: 1 <= i < |t| && t[i] in net.nodes && o !in net.nodes[t[i]].router.known
  }

  /** x issued the claim itself, or has accepted it or a newer one. */
  ghost predicate Heard(net: Net, x: Addr, o: Id, s: nat)
    requires x in net.nodes
  {
    var r := net.nodes[x].router;
    r.id == o || (o in r.seenSeq && s <= r.seenSeq[o])
  }

  /** x knows the originator, and a relay before it did not. */
  ghost predicate Refuses(net: Net, x: Addr, o: Id, t: seq<Addr>)
    requires x in net.nodes
  {
    o in net.nodes[x].router.known && Doubtful(net, o, t)
  }

  /** What has become of the copy that v, which has the claim along t, sent to x. */
  ghost predicate Informed(net: Net, v: Addr, x: Addr, o: Id, s: nat, t: seq<Addr>) {
    x in net.nodes ==> OnItsWay(net, v, x, o, s) || Heard(net, x, o, s) || Refuses(net, x, o, t)
  }

  ghost predicate NeighboursInformed(net: Net, v: Addr, o: Id, s: nat, t: seq<Addr>)
    requires v in net.nodes
  {
    forall x :: HasSession(net.nodes[v], x) ==> Informed(net, v, x, o, s, t)
  }

  /** v accepted (o, s) with hops left. */
  ghost predicate PassesOn(net: Net, v: Addr, o: Id, s: nat) {
    && v in net.nodes && (v, o, s) in net.accepted && (o, s) in net.issued
    && |net.accepted[(v, o, s)]| < net.issued[(o, s)].maxHops + 2
  }

  ghost predicate Issued(net: Net, v: Addr, s: nat) {
    v in net.nodes && (net.nodes[v].router.id, s) in net.issued
  }

  ghost predicate CleanMeans(net: Net) {
    forall f :: f in net.flights ==> (f.clean <==> !Doubtful(net, f.msg.claim.oid, f.trail))
  }

  ghost predicate Spread(net: Net) {
    && CleanMeans(net)
    && (forall v, o, s :: PassesOn(net, v, o, s) ==> NeighboursInformed(net, v, o, s, net.accepted[(v, o, s)]))
    && (forall v, s :: Issued(net, v, s) ==> NeighboursInformed(net, v, net.nodes[v].router.id, s, [v]))
  }

  /** A steady step changes no node but for what it has seen, its routes and its counter. */
  ghost predicate Calm(net: Net, net': Net) {
    && net'.nodes.Keys == net.nodes.Keys
    && forall v :: v in net.nodes ==>
         var r, r' := net.nodes[v].router, net'.nodes[v].router;
         && net'.nodes[v].sessions == net.nodes[v].sessions && r'.id == r.id && r'.known == r.known
         && forall o :: o in r.seenSeq ==> o in r'.seenSeq && r.seenSeq[o] <= r'.seenSeq[o]
  }

  lemma CalmDoubts(net: Net, net': Net, o: Id, t: seq<Addr>)
    requires Calm(net, net')
    ensures Doubtful(net', o, t) <==> Doubtful(net, o, t)
  {
  }

  /** Who is informed stays informed, if what becomes of the copy on its way is accounted for. */
  lemma InformedStays(net: Net, net': Net, v: Addr, x: Addr, o: Id, s: nat, t: seq<Addr>)
    requires Calm(net, net') && Informed(net, v, x, o, s, t)
    requires OnItsWay(net, v, x, o, s) ==> Informed(net', v, x, o, s, t)
    ensures Informed(net', v, x, o, s, t)
  {
    CalmDoubts(net, net', o, t);
  }

  lemma NeighboursStay(net: Net, net': Net, v: Addr, o: Id, s: nat, t: seq<Addr>)
    requires Calm(net, net') && v in net.nodes && NeighboursInformed(net, v, o, s, t)
    requires forall x :: OnItsWay(net, v, x, o, s) ==> Informed(net', v, x, o, s, t)
    ensures NeighboursInformed(net', v, o, s, t)
  {
    forall x | HasSession(net'.nodes[v], x) ensures Informed(net', v, x, o, s, t) {
      InformedStays(net, net', v, x, o, s, t);
    }
  }

  // ---------------------------------------------------------------- steps that only add copies

  lemma CopiesStay(net: Net, net': Net, v: Addr, o: Id, s: nat, t: seq<Addr>)
    requires Calm(net, net') && v in net.nodes && NeighboursInformed(net, v, o, s, t)
    requires forall f :: f in net.flights ==> f in net'.flights
    ensures NeighboursInformed(net', v, o, s, t)
  {
    forall x | OnItsWay(net, v, x, o, s) ensures Informed(net', v, x, o, s, t) {
    }
    NeighboursStay(net, net', v, o, s, t);
  }

  /** Duplications and purges. */
  lemma QuietSpread(net: Net, net': Net)
    requires Spread(net) && Calm(net, net') && net'.issued == net.issued && net'.accepted == net.accepted
    requires forall f :: f in net'.flights <==> f in net.flights
    ensures Spread(net')
  {
    forall f | f in net'.flights ensures f.clean <==> !Doubtful(net', f.msg.claim.oid, f.trail) {
      CalmDoubts(net, net', f.msg.claim.oid, f.trail);
    }
    forall v, o, s: nat | PassesOn(net', v, o, s) ensures NeighboursInformed(net', v, o, s, net'.accepted[(v, o, s)]) {
      assert PassesOn(net, v, o, s);
      CopiesStay(net, net', v, o, s, net.accepted[(v, o, s)]);
    }
    forall v, s: nat | Issued(net', v, s) ensures NeighboursInformed(net', v, net'.nodes[v].router.id, s, [v]) {
      assert Issued(net, v, s);
      CopiesStay(net, net', v, net.nodes[v].router.id, s, [v]);
    }
  }

  lemma BroadcastCalm(net: Net, a: Addr, now: real)
    requires Inv(net) && a in net.nodes
    ensures var net' := AfterBroadcast(net, a, now);
            && Calm(net, net') && (forall f :: f in net.flights ==> f in net'.flights)
            && net'.accepted == net.accepted
            && forall k :: k in net'.issued ==>
                 (k in net.issued && net'.issued[k] == net.issued[k])
                 || k == (net.nodes[a].router.id, net.nodes[a].router.seqNum + 1)
  {
  }

  lemma BroadcastClean(net: Net, a: Addr, now: real)
    requires Inv(net) && CleanMeans(net) && a in net.nodes
    ensures CleanMeans(AfterBroadcast(net, a, now))
  {
    var net' := AfterBroadcast(net, a, now);
    BroadcastCalm(net, a, now);
    forall f | f in net'.flights ensures f.clean <==> !Doubtful(net', f.msg.claim.oid, f.trail) {
      CalmDoubts(net, net', f.msg.claim.oid, f.trail);
    }
  }

  lemma BroadcasterSpreads(net: Net, a: Addr, now: real)
    requires Inv(net) && a in net.nodes
    ensures var r := net.nodes[a].router;
            NeighboursInformed(AfterBroadcast(net, a, now), a, r.id, r.seqNum + 1, [a])
  {
    var net' := AfterBroadcast(net, a, now);
    var o, n := net.nodes[a].router.id, net.nodes[a].router.seqNum + 1;
    forall x | HasSession(net'.nodes[a], x) ensures Informed(net', a, x, o, n, [a]) {
      BroadcastSends(net, a, now, x);
    }
  }

  lemma BroadcastSpreads(net: Net, a: Addr, now: real)
    requires Inv(net) && Spread(net) && a in net.nodes
    ensures Spread(AfterBroadcast(net, a, now))
  {
    var net' := AfterBroadcast(net, a, now);
    var own := (net.nodes[a].router.id, net.nodes[a].router.seqNum + 1);
    BroadcastCalm(net, a, now);
    BroadcastClean(net, a, now);
    forall v, o, s: nat | PassesOn(net', v, o, s) ensures NeighboursInformed(net', v, o, s, net'.accepted[(v, o, s)]) {
      assert AcceptanceHonest(net, v, o, s);
      assert PassesOn(net, v, o, s);
      CopiesStay(net, net', v, o, s, net.accepted[(v, o, s)]);
    }
    forall v, s: nat | Issued(net', v, s) ensures NeighboursInformed(net', v, net'.nodes[v].router.id, s, [v]) {
      if (net.nodes[v].router.id, s) == own {
        BroadcasterSpreads(net, a, now);
      } else {
        assert Issued(net, v, s);
        CopiesStay(net, net', v, net.nodes[v].router.id, s, [v]);
      }
    }
  }

  // ---------------------------------------------------------------- deliveries

  lemma DeliveryCalm(net: Net, i: nat)
    requires i < |net.flights|
    ensures Calm(net, AfterDelivery(net, i))
  {
  }

  /** The trail of a copy is how its sender came by the claim. */
  lemma TrailOfSender(net: Net, f: Flight)
    requires Inv(net) && f in net.flights
    ensures var o, s := f.msg.claim.oid, f.msg.claim.seqNum;
            && f.src in net.nodes && Heard(net, f.src, o, s)
            && ((f.src, o, s) in net.accepted ==> net.accepted[(f.src, o, s)] == f.trail)
            && (net.nodes[f.src].router.id == o ==> f.trail == [f.src])
  {
    var o, s := f.msg.claim.oid, f.msg.claim.seqNum;
    var n := |f.trail|;
    assert FlightHonest(net, f);
    assert (f.src, o, s) in net.accepted ==> AcceptanceHonest(net, f.src, o, s);
    if n > 1 {
      assert Hop(net, o, s, f.trail, n - 1);
      assert f.trail[..n] == f.trail;
    }
  }

  /** The copy delivered informs its destination, unless that knows better. */
  lemma DeliveredInforms(net: Net, i: nat)
    requires Inv(net) && CleanMeans(net) && i < |net.flights| && net.flights[i].dst in net.nodes
    ensures var f := net.flights[i]; var c := f.msg.claim; var net' := AfterDelivery(net, i);
            Heard(net', f.dst, c.oid, c.seqNum) || Refuses(net', f.dst, c.oid, f.trail)
  {
    var f := net.flights[i];
    DeliveryCalm(net, i);
    CalmDoubts(net, AfterDelivery(net, i), f.msg.claim.oid, f.trail);
    assert f in net.flights;
    if !Accepts(net.nodes[f.dst].router, f.msg) {
      RefusedFor(net, f);
    }
  }

  /** A copy is refused by those who have heard of it, and by those who know better. */
  lemma RefusedFor(net: Net, f: Flight)
    requires Inv(net) && f in net.flights && f.dst in net.nodes && !Accepts(net.nodes[f.dst].router, f.msg)
    ensures var c, r := f.msg.claim, net.nodes[f.dst].router;
            Heard(net, f.dst, c.oid, c.seqNum) || (c.oid in r.known && !f.clean)
  {
    var c, r := f.msg.claim, net.nodes[f.dst].router;
    assert FlightHonest(net, f);
    if c.oid in r.known {
      assert r.known[net.nodes[f.trail[0]].router.id] == net.nodes[f.trail[0]].router.signKey;
    }
  }

  /** t is how v came by (o, s): it issued the claim itself, or accepted it along t. */
  ghost predicate Along(net: Net, v: Addr, o: Id, s: nat, t: seq<Addr>) {
    && v in net.nodes
    && ((net.nodes[v].router.id == o && t == [v]) || ((v, o, s) in net.accepted && net.accepted[(v, o, s)] == t))
  }

  lemma DeliveryStays(net: Net, i: nat, v: Addr, o: Id, s: nat, t: seq<Addr>)
    requires Inv(net) && CleanMeans(net) && i < |net.flights|
    requires Along(net, v, o, s, t) && NeighboursInformed(net, v, o, s, t)
    ensures NeighboursInformed(AfterDelivery(net, i), v, o, s, t)
  {
    var f, net' := net.flights[i], AfterDelivery(net, i);
    DeliveryCalm(net, i);
    forall x | OnItsWay(net, v, x, o, s) ensures Informed(net', v, x, o, s, t) {
      var g :| g in net.flights && g.src == v && g.dst == x && g.msg.claim.oid == o && g.msg.claim.seqNum == s;
      if g == f {
        DeliveredFor(net, i, o, s, t);
      } else {
        OthersFly(net, i, g);
      }
    }
    NeighboursStay(net, net', v, o, s, t);
  }

  lemma DeliveredFor(net: Net, i: nat, o: Id, s: nat, t: seq<Addr>)
    requires Inv(net) && CleanMeans(net) && i < |net.flights| && Along(net, net.flights[i].src, o, s, t)
    requires net.flights[i].msg.claim.oid == o && net.flights[i].msg.claim.seqNum == s
    ensures Informed(AfterDelivery(net, i), net.flights[i].src, net.flights[i].dst, o, s, t)
  {
    var f := net.flights[i];
    assert f in net.flights;
    TrailOfSender(net, f);
    if f.dst in net.nodes {
      DeliveredInforms(net, i);
    } else {
      DeliveryCalm(net, i);
    }
  }

  lemma OthersFly(net: Net, i: nat, g: Flight)
    requires i < |net.flights| && g in net.flights && g != net.flights[i]
    ensures g in AfterDelivery(net, i).flights
  {
    var k :| 0 <= k < |net.flights| && net.flights[k] == g;
    assert g in Removed(net.flights, i);
  }

  lemma DeliveryClean(net: Net, i: nat)
    requires Inv(net) && CleanMeans(net) && i < |net.flights|
    ensures CleanMeans(AfterDelivery(net, i))
  {
    var f, net' := net.flights[i], AfterDelivery(net, i);
    DeliveryCalm(net, i);
    assert FlightHonest(net, f);
    forall g | g in net'.flights ensures g.clean <==> !Doubtful(net', g.msg.claim.oid, g.trail) {
      if g in net.flights {
        CalmDoubts(net, net', g.msg.claim.oid, g.trail);
      } else {
        NewFlights(net, i, g);
        CalmDoubts(net, net', f.msg.claim.oid, f.trail);
        DoubtGrows(net', f.msg.claim.oid, f.trail, f.dst);
      }
    }
  }

  lemma DoubtGrows(net: Net, o: Id, t: seq<Addr>, x: Addr)
    requires |t| >= 1 && x in net.nodes
    ensures Doubtful(net, o, t + [x]) <==> Doubtful(net, o, t) || o !in net.nodes[x].router.known
  {
    var u := t + [x];
    if Doubtful(net, o, t) {
      var i :| 1 <= i < |t| && t[i] in net.nodes && o !in net.nodes[t[i]].router.known;
      assert u[i] == t[i];
    }
    assert u[|t|] == x;
  }

  /** The node that accepts the copy sends it on to all its other sessions; the one it came from has it. */
  lemma AcceptorSpreads(net: Net, i: nat)
    requires Inv(net) && i < |net.flights| && AcceptedFlight(net, i)
    requires net.flights[i].msg.hopCount < net.flights[i].msg.claim.maxHops
    ensures var f := net.flights[i]; var c := f.msg.claim;
            NeighboursInformed(AfterDelivery(net, i), f.dst, c.oid, c.seqNum, f.trail + [f.dst])
  {
    var f, net' := net.flights[i], AfterDelivery(net, i);
    var o, s := f.msg.claim.oid, f.msg.claim.seqNum;
    DeliveryCalm(net, i);
    forall x | HasSession(net'.nodes[f.dst], x) ensures Informed(net', f.dst, x, o, s, f.trail + [f.dst]) {
      if x == f.src {
        TrailOfSender(net, f);
      } else {
        DeliverySends(net, i, x);
      }
    }
  }

  lemma AcceptorPasses(net: Net, i: nat)
    requires Inv(net) && i < |net.flights| && AcceptedFlight(net, i)
    ensures var f := net.flights[i]; var c := f.msg.claim; var net' := AfterDelivery(net, i);
            && PassesOn(net', f.dst, c.oid, c.seqNum) ==> f.msg.hopCount < c.maxHops
  {
    assert FlightHonest(net, net.flights[i]);
  }

  lemma OldAcceptor(net: Net, i: nat, v: Addr, o: Id, s: nat)
    requires i < |net.flights| && PassesOn(AfterDelivery(net, i), v, o, s)
    requires var f := net.flights[i];
             !(AcceptedFlight(net, i) && (v, o, s) == (f.dst, f.msg.claim.oid, f.msg.claim.seqNum))
    ensures PassesOn(net, v, o, s) && AfterDelivery(net, i).accepted[(v, o, s)] == net.accepted[(v, o, s)]
  {
  }

  lemma DeliverySpreads(net: Net, i: nat)
    requires Inv(net) && Spread(net) && i < |net.flights|
    ensures Spread(AfterDelivery(net, i))
  {
    var f, net' := net.flights[i], AfterDelivery(net, i);
    var c := f.msg.claim;
    DeliveryCalm(net, i);
    DeliveryClean(net, i);
    forall v, o, s: nat | PassesOn(net', v, o, s) ensures NeighboursInformed(net', v, o, s, net'.accepted[(v, o, s)]) {
      if AcceptedFlight(net, i) && (v, o, s) == (f.dst, c.oid, c.seqNum) {
        AcceptorPasses(net, i);
        AcceptorSpreads(net, i);
      } else {
        OldAcceptor(net, i, v, o, s);
        DeliveryStays(net, i, v, o, s, net.accepted[(v, o, s)]);
      }
    }
    forall v, s: nat | Issued(net', v, s) ensures NeighboursInformed(net', v, net'.nodes[v].router.id, s, [v]) {
      assert Issued(net, v, s);
      DeliveryStays(net, i, v, net.nodes[v].router.id, s, [v]);
    }
  }

  lemma StepSpreads(net: Net, step: Step)
    requires Inv(net) && Spread(net) && Steady(step)
    ensures Spread(Next(net, step))
  {
    match step
    case Broadcast(a, now) => if a in net.nodes { BroadcastSpreads(net, a, now); }
    case Deliver(i) => if i < |net.flights| { DeliverySpreads(net, i); }
    case _ =>
      QuietCalm(net, step);
      QuietSpread(net, Next(net, step));
  }

  lemma QuietCalm(net: Net, step: Step)
    requires step.Duplicate? || step.Purge?
    ensures var net' := Next(net, step);
            && Calm(net, net') && net'.issued == net.issued && net'.accepted == net.accepted
            && forall f :: f in net'.flights <==> f in net.flights
  {
  }

  lemma {:induction false} RunSpreads(init: Net, steps: seq<Step>)
    requires Init(init) && forall step :: step in steps ==> Steady(step)
    ensures Inv(Run(init, steps)) && Spread(Run(init, steps))
  {
    if steps != [] {
      var before, last := steps[..|steps| - 1], steps[|steps| - 1];
      assert last in steps && forall step :: step in before ==> step in steps;
      RunSpreads(init, before);
      StepKeepsInv(Run(init, before), last);
      StepSpreads(Run(init, before), last);
    }
  }

  // ---------------------------------------------------------------- where a flood ends up

  ghost predicate Quiet(net: Net, o: Id, s: nat) {
    forall f :: f in net.flights ==> !(f.msg.claim.oid == o && f.msg.claim.seqNum == s)
  }

  /** Nothing lost and no copy left in flight: every session of a node that issued the claim, or
      accepted it with hops left, has heard of it, or refuses it because it knows the originator and a
      relay on that way did not. */
  lemma NeighboursHear(init: Net, steps: seq<Step>, v: Addr, x: Addr, o: Id, s: nat)
    requires Init(init) && forall step :: step in steps ==> Steady(step)
    requires var net := Run(init, steps);
             && Quiet(net, o, s) && v in net.nodes && x in net.nodes && HasSession(net.nodes[v], x)
             && (PassesOn(net, v, o, s) || (net.nodes[v].router.id == o && Issued(net, v, s)))
    ensures var net := Run(init, steps);
            || Heard(net, x, o, s)
            || ((v, o, s) in net.accepted && Refuses(net, x, o, net.accepted[(v, o, s)]))
  {
    var net := Run(init, steps);
    RunSpreads(init, steps);
    var t := if PassesOn(net, v, o, s) then net.accepted[(v, o, s)] else [v];
    assert NeighboursInformed(net, v, o, s, t);
    assert Informed(net, v, x, o, s, t);
  }

  /** All other nodes know the originator, or none does. */
  ghost predicate SameKnowledge(net: Net, o: Id) {
    || (forall u :: u in net.nodes && net.nodes[u].router.id != o ==> o in net.nodes[u].router.known)
    || (forall u :: u in net.nodes && net.nodes[u].router.id != o ==> o !in net.nodes[u].router.known)
  }

  /** The last broadcast of o is at x: it is o's own node, or accepted that very claim. */
  ghost predicate UpToDate(net: Net, x: Addr, o: Id, s: nat) {
    x in net.nodes && (net.nodes[x].router.id == o || (x, o, s) in net.accepted)
  }

  /** A node that heard of the last broadcast accepted just that. */
  lemma HeardOfTheLast(net: Net, origin: Addr, x: Addr, s: nat)
    requires Inv(net) && SeenAccepted(net) && origin in net.nodes && x in net.nodes
    requires s == net.nodes[origin].router.seqNum && Heard(net, x, net.nodes[origin].router.id, s)
    ensures UpToDate(net, x, net.nodes[origin].router.id, s)
  {
    var o := net.nodes[origin].router.id;
    if net.nodes[x].router.id != o {
      AcceptancesArePaths(net, o, net.nodes[x].router.seenSeq[o], x);
      assert net.accepted[(x, o, net.nodes[x].router.seenSeq[o])][0] == origin;
    }
  }

  /** A trail through all nodes leaves nobody to inform; a shorter one has hops left. */
  lemma TrailHasHops(net: Net, v: Addr, x: Addr, o: Id, s: nat)
    requires Inv(net) && (v, o, s) in net.accepted && x in net.nodes && net.issued[(o, s)].maxHops + 2 >= |net.nodes|
    ensures UpToDate(net, x, o, s) || PassesOn(net, v, o, s)
  {
    var t := net.accepted[(v, o, s)];
    assert AcceptanceHonest(net, v, o, s);
    RouteIsSimple(net, o, s, t);
    if x in t {
      var i :| 0 <= i < |t| && t[i] == x;
      assert i > 0 ==> Hop(net, o, s, t, i);
    } else {
      DistinctFits(t, net.nodes.Keys - {x});
      assert |net.nodes.Keys - {x}| == |net.nodes.Keys| - 1 && |net.nodes| == |net.nodes.Keys|;
    }
  }

  lemma NoneRefuses(net: Net, v: Addr, x: Addr, o: Id, s: nat)
    requires Inv(net) && SameKnowledge(net, o) && (v, o, s) in net.accepted && x in net.nodes
    requires Refuses(net, x, o, net.accepted[(v, o, s)])
    ensures net.nodes[x].router.id == o
  {
    var t := net.accepted[(v, o, s)];
    assert AcceptanceHonest(net, v, o, s);
    var i :| 1 <= i < |t| && t[i] in net.nodes && o !in net.nodes[t[i]].router.known;
    assert Hop(net, o, s, t, i);
    assert AcceptanceHonest(net, t[i], o, s);
  }

  /** One hop further from a node that has the last broadcast. */
  lemma NextIsUpToDate(init: Net, steps: seq<Step>, origin: Addr, v: Addr, x: Addr)
    requires Init(init) && forall step :: step in steps ==> Steady(step)
    requires var net := Run(init, steps);
             && origin in net.nodes && v in net.nodes && x in net.nodes && HasSession(net.nodes[v], x)
             && var o, s := net.nodes[origin].router.id, net.nodes[origin].router.seqNum;
             && Issued(net, origin, s) && Quiet(net, o, s) && SameKnowledge(net, o) && UpToDate(net, v, o, s)
             && net.nodes[origin].router.maxHops + 2 >= |net.nodes|
    ensures var net := Run(init, steps); UpToDate(net, x, net.nodes[origin].router.id, net.nodes[origin].router.seqNum)
  {
    var net := Run(init, steps);
    var o, s := net.nodes[origin].router.id, net.nodes[origin].router.seqNum;
    RunSpreads(init, steps);
    RunKeepsSeen(init, steps);
    if (v, o, s) in net.accepted {
      TrailHasHops(net, v, x, o, s);
    } else {
      assert v == origin;
    }
    if !UpToDate(net, x, o, s) {
      NeighboursHear(init, steps, v, x, o, s);
      if Heard(net, x, o, s) {
        HeardOfTheLast(net, origin, x, s);
      } else {
        NoneRefuses(net, v, x, o, s);
      }
    }
  }

  /** p leads from node to node along sessions. */
  ghost predicate SessionPath(net: Net, p: seq<Addr>) {
    && |p| >= 1 && (forall i :: 0 <= i < |p| ==> p[i] in net.nodes)
    && (forall i :: 0 <= i < |p| - 1 ==> Adjacent(net, p[i], p[i + 1]))
  }

  ghost predicate Adjacent(net: Net, v: Addr, x: Addr) {
    v in net.nodes && HasSession(net.nodes[v], x)
  }

  /** Coverage: when nothing is lost and the other nodes all know the originator or all do not, and
      max_hops is at least the number of nodes less two, then once its copies have all arrived the last
      broadcast has been accepted by every node that sessions lead to, however the flood went. */
  lemma {:induction false} FloodReachesAll(init: Net, steps: seq<Step>, p: seq<Addr>)
    requires Init(init) && forall step :: step in steps ==> Steady(step)
    requires var net := Run(init, steps);
             && SessionPath(net, p)
             && var o, s := net.nodes[p[0]].router.id, net.nodes[p[0]].router.seqNum;
             && Issued(net, p[0], s) && Quiet(net, o, s) && SameKnowledge(net, o)
             && net.nodes[p[0]].router.maxHops + 2 >= |net.nodes|
    ensures var net := Run(init, steps);
            UpToDate(net, p[|p| - 1], net.nodes[p[0]].router.id, net.nodes[p[0]].router.seqNum)
    decreases |p|
  {
    var n := |p| - 1;
    if n > 0 {
      FloodReachesAll(init, steps, p[..n]);
      assert Adjacent(Run(init, steps), p[n - 1], p[n]);
      NextIsUpToDate(init, steps, p[0], p[n - 1], p[n]);
    }
  }
}
