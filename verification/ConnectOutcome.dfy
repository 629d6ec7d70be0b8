/** What connect's answer means (mesh/transport.py:374-421, 640-674): in every run it returns True only
    when both ends have installed its key, and any call can still end that way. */
module ConnectOutcome {
  import opened Handshake
  import opened KeyAgreement
  import opened KeyDisagreement
  import opened Wrappers

  // ---------------------------------------------------------------- events and installs

  /** Some initiator of this node installed key k. */
  ghost predicate InstalledBy(net: Net, a: Node, k: SessionKey) {
    exists peer, addr :: Install(a, peer, k, Initiator, addr) in net.installs
  }

  /** The acknowledgement event of an object is set exactly when its key was installed. */
  ghost predicate EventOk(net: Net, a: Node, r: Ref)
    requires a in net.nodes && r in net.nodes[a].objs
  {
    var p := net.nodes[a].objs[r];
    p.ackSet <==> p.ourKey.Some? && InstalledBy(net, a, p.ourKey.value)
  }

  /** Connects of one node use different draws, all of them drawn. */
  ghost predicate DrawsOk(net: Net, a: Node)
    requires a in net.nodes
  {
    var c := net.nodes[a].connects;
    && (forall r :: r in c ==> c[r].draw < |net.calls|)
    && (forall q, r :: q in c && r in c && c[q].draw == c[r].draw ==> q == r)
  }

  /** A connect has its key once it is past its first wait; while it is not over, its key is not installed
      unless it has one. */
  ghost predicate PhaseOk(net: Net, a: Node, r: Ref)
    requires a in net.nodes && r in net.nodes[a].objs
  {
    var s := net.nodes[a];
    && (s.objs[r].ourKey.Some? ==> r in s.connects && s.connects[r].phase != AwaitsResp)
    && (r in s.connects && s.connects[r].phase == AwaitsAck ==> s.objs[r].ourKey.Some?)
  }

  /** An initiator's key is the one some connect of its node drew. */
  ghost predicate KeyDrawn(net: Net, a: Node, k: SessionKey)
    requires a in net.nodes
  {
    exists r :: r in net.nodes[a].objs && net.nodes[a].objs[r].ourKey == Some(k)
  }

  ghost predicate InstallsDrawn(net: Net, a: Node)
    requires a in net.nodes
  {
    forall peer, k, addr :: Install(a, peer, k, Initiator, addr) in net.installs ==> KeyDrawn(net, a, k)
  }

  ghost predicate NodeEvents(net: Net, a: Node)
    requires a in net.nodes
  {
    && DrawsOk(net, a) && InstallsDrawn(net, a)
    && forall r :: r in net.nodes[a].objs ==> EventOk(net, a, r) && PhaseOk(net, a, r)
  }

  ghost predicate Events(net: Net) {
    forall a :: a in net.nodes ==> NodeEvents(net, a)
  }

  /** Objects with one key are one object. */
  lemma OneObjectPerKey(net: Net, a: Node, q: Ref, r: Ref)
    requires AllRefsValid(net) && Inv(net) && a in net.nodes && DrawsOk(net, a)
    requires q in net.nodes[a].objs && r in net.nodes[a].objs
    requires net.nodes[a].objs[q].ourKey.Some? && net.nodes[a].objs[q].ourKey == net.nodes[a].objs[r].ourKey
    ensures q == r
  {
    var s := net.nodes[a];
    assert NodeOk(net, a);
    assert ObjOk(s, net.calls, q) && ObjOk(s, net.calls, r);
  }

  /** What other nodes do leaves a node's events as they are. */
  lemma OthersKeep(net: Net, net': Net, a: Node)
    requires a in net.nodes && a in net'.nodes && NodeEvents(net, a)
    requires net'.nodes[a] == net.nodes[a] && |net.calls| <= |net'.calls|
    requires forall i :: i in net'.installs && i !in net.installs ==> i.node != a || i.role == Responder
    requires net.installs <= net'.installs
    ensures NodeEvents(net', a)
  {
    forall k: SessionKey ensures InstalledBy(net', a, k) <==> InstalledBy(net, a, k) {
    }
    forall r | r in net'.nodes[a].objs ensures EventOk(net', a, r) && PhaseOk(net', a, r) {
      assert EventOk(net, a, r) && PhaseOk(net, a, r);
    }
    forall peer, k, addr | Install(a, peer, k, Initiator, addr) in net'.installs ensures KeyDrawn(net', a, k) {
      assert KeyDrawn(net, a, k);
    }
  }

  /** A step of its own that touches neither keys nor events. */
  lemma SelfKeeps(net: Net, net': Net, a: Node)
    requires a in net.nodes && a in net'.nodes && NodeEvents(net, a) && net'.installs >= net.installs
    requires forall i :: i in net'.installs && i !in net.installs ==> i.role == Responder
    requires forall r :: r in net.nodes[a].objs ==> r in net'.nodes[a].objs
    requires forall r :: r in net'.nodes[a].objs ==> SameEvent(net, net', a, r) && PhaseOk(net', a, r)
    requires DrawsOk(net', a)
    ensures NodeEvents(net', a)
  {
    forall k: SessionKey ensures InstalledBy(net', a, k) <==> InstalledBy(net, a, k) {
    }
    forall r | r in net'.nodes[a].objs ensures EventOk(net', a, r) {
      assert SameEvent(net, net', a, r);
      assert r in net.nodes[a].objs ==> EventOk(net, a, r);
    }
    forall peer, k, addr | Install(a, peer, k, Initiator, addr) in net'.installs ensures KeyDrawn(net', a, k) {
      assert KeyDrawn(net, a, k);
      var r :| r in net.nodes[a].objs && net.nodes[a].objs[r].ourKey == Some(k);
      assert SameEvent(net, net', a, r);
    }
  }

  ghost predicate SameEvent(net: Net, net': Net, a: Node, r: Ref)
    requires a in net.nodes && a in net'.nodes && r in net'.nodes[a].objs
  {
    var p := net'.nodes[a].objs[r];
    if r in net.nodes[a].objs then p.ourKey == net.nodes[a].objs[r].ourKey && p.ackSet == net.nodes[a].objs[r].ackSet
    else p.ourKey.None? && !p.ackSet
  }

  // ---------------------------------------------------------------- every step

  lemma StartEvents(net: Net, a: Node, addr: Node, bundle: Node)
    requires AllRefsValid(net) && a in net.nodes && NodeEvents(net, a)
    ensures NodeEvents(Next(net, Start(a, addr, bundle)), a)
  {
    var net' := Next(net, Start(a, addr, bundle));
    forall r | r in net'.nodes[a].objs ensures SameEvent(net, net', a, r) && PhaseOk(net', a, r) {
      assert r in net.nodes[a].objs ==> PhaseOk(net, a, r);
    }
    SelfKeeps(net, net', a);
  }

  lemma EndEvents(net: Net, net': Net, a: Node, r: Ref)
    requires AllRefsValid(net) && a in net.nodes && r in net.nodes[a].connects && NodeEvents(net, a)
    requires net' == net.(nodes := net.nodes[a := Ended(net.nodes[a], r)])
    ensures NodeEvents(net', a)
  {
    forall q | q in net'.nodes[a].objs ensures SameEvent(net, net', a, q) && PhaseOk(net', a, q) {
      assert PhaseOk(net, a, q);
    }
    SelfKeeps(net, net', a);
  }

  /** A HANDSHAKE, a HANDSHAKE_RESP or a KEY_INIT. */
  lemma ArrivalEvents(net: Net, p: Packet)
    requires AllRefsValid(net) && p in net.sent && p.dst in net.nodes && !p.msg.KeyAckMsg? && NodeEvents(net, p.dst)
    ensures NodeEvents(Next(net, Deliver(p)), p.dst)
  {
    var net', a := Next(net, Deliver(p)), p.dst;
    forall r | r in net'.nodes[a].objs ensures SameEvent(net, net', a, r) && PhaseOk(net', a, r) {
      assert r in net.nodes[a].objs ==> PhaseOk(net, a, r);
    }
    SelfKeeps(net, net', a);
  }

  /** The key a connect draws was never installed before. */
  lemma FreshKey(net: Net, a: Node, r: Ref)
    requires AllRefsValid(net) && Inv(net) && a in net.nodes && NodeEvents(net, a) && CanResume(net.nodes[a], r)
    ensures var c := net.nodes[a].connects[r];
            net.nodes[a].objs[r].ourKey.None? && !InstalledBy(net, a, Encapsulated(a, c.bundle, c.draw))
  {
    var s := net.nodes[a];
    var k := Encapsulated(a, s.connects[r].bundle, s.connects[r].draw);
    assert PhaseOk(net, a, r) && NodeOk(net, a);
    forall q | q in s.objs && s.objs[q].ourKey.Some? ensures s.objs[q].ourKey != Some(k) {
      assert ObjOk(s, net.calls, q) && PhaseOk(net, a, q);
    }
  }

  lemma ResumeEvents(net: Net, a: Node, r: Ref)
    requires AllRefsValid(net) && Inv(net) && a in net.nodes && NodeEvents(net, a) && CanResume(net.nodes[a], r)
    ensures NodeEvents(Next(net, Resume(a, r)), a)
  {
    var net' := Next(net, Resume(a, r));
    var s, s' := net.nodes[a], net'.nodes[a];
    FreshKey(net, a, r);
    assert NodeOk(net, a) && EventOk(net, a, r);
    forall k: SessionKey ensures InstalledBy(net', a, k) <==> InstalledBy(net, a, k) {
    }
    forall q | q in s'.objs ensures EventOk(net', a, q) && PhaseOk(net', a, q) {
      assert EventOk(net, a, q) && PhaseOk(net, a, q);
    }
    forall peer, k, addr | Install(a, peer, k, Initiator, addr) in net'.installs ensures KeyDrawn(net', a, k) {
      assert KeyDrawn(net, a, k);
      var q :| q in s.objs && s.objs[q].ourKey == Some(k);
      assert q in s'.objs && s'.objs[q].ourKey == Some(k);
    }
  }

  lemma AckEvents(net: Net, p: Packet)
    requires AllRefsValid(net) && Inv(net) && p in net.sent && p.dst in net.nodes && p.msg.KeyAckMsg?
    requires NodeEvents(net, p.dst) && TakesAck(net.nodes[p.dst], p.src, p.msg.sealedUnder)
    ensures NodeEvents(Next(net, Deliver(p)), p.dst)
  {
    var net', a, k := Next(net, Deliver(p)), p.dst, p.msg.sealedUnder;
    var s, s' := net.nodes[a], net'.nodes[a];
    var r := s.pending[p.src];
    assert NodeOk(net, a);
    var i := Install(a, s.objs[r].peerBundle.value, k, Initiator, p.src);
    assert i in net'.installs && net'.installs == net.installs + {i};
    forall q | q in s'.objs ensures EventOk(net', a, q) && PhaseOk(net', a, q) {
      assert EventOk(net, a, q) && PhaseOk(net, a, q);
      AckEvent(net, p, q);
    }
    forall peer, l, addr | Install(a, peer, l, Initiator, addr) in net'.installs ensures KeyDrawn(net', a, l) {
      AckDrawn(net, p, l);
    }
  }

  lemma AckDrawn(net: Net, p: Packet, l: SessionKey)
    requires AllRefsValid(net) && p in net.sent && p.dst in net.nodes && p.msg.KeyAckMsg?
    requires TakesAck(net.nodes[p.dst], p.src, p.msg.sealedUnder)
    requires l == p.msg.sealedUnder || KeyDrawn(net, p.dst, l)
    ensures KeyDrawn(Next(net, Deliver(p)), p.dst, l)
  {
    var s, s' := net.nodes[p.dst], Next(net, Deliver(p)).nodes[p.dst];
    assert s.objs[s.pending[p.src]].ourKey == Some(p.msg.sealedUnder);
    var q :| q in s.objs && s.objs[q].ourKey == Some(l);
    assert q in s'.objs && s'.objs[q].ourKey == Some(l);
  }

  lemma AckEvent(net: Net, p: Packet, q: Ref)
    requires AllRefsValid(net) && Inv(net) && p in net.sent && p.dst in net.nodes && p.msg.KeyAckMsg?
    requires NodeEvents(net, p.dst) && TakesAck(net.nodes[p.dst], p.src, p.msg.sealedUnder)
    requires q in net.nodes[p.dst].objs && EventOk(net, p.dst, q)
    ensures EventOk(Next(net, Deliver(p)), p.dst, q)
  {
    var net', a, k := Next(net, Deliver(p)), p.dst, p.msg.sealedUnder;
    var s := net.nodes[a];
    var r := s.pending[p.src];
    assert NodeOk(net, a);
    var i := Install(a, s.objs[r].peerBundle.value, k, Initiator, p.src);
    assert i in net'.installs && net'.installs == net.installs + {i};
    forall l: SessionKey ensures InstalledBy(net', a, l) <==> InstalledBy(net, a, l) || l == k {
    }
    if q != r && s.objs[q].ourKey.Some? && s.objs[q].ourKey == s.objs[r].ourKey {
      OneObjectPerKey(net, a, q, r);
    }
  }

  lemma OwnEvents(net: Net, step: Step, a: Node)
    requires AllRefsValid(net) && Inv(net) && Events(net) && a in net.nodes && Mover(net, step) == Some(a)
    ensures NodeEvents(Next(net, step), a)
  {
    assert NodeEvents(net, a);
    match step
    case Start(_, addr, bundle) => StartEvents(net, a, addr, bundle);
    case Resume(_, r) => ResumeEvents(net, a, r);
    case Finish(_, r) => EndEvents(net, Next(net, step), a, r);
    case Timeout(_, r) => EndEvents(net, Next(net, step), a, r);
    case Deliver(p) =>
      if !p.msg.KeyAckMsg? {
        ArrivalEvents(net, p);
      } else if TakesAck(net.nodes[a], p.src, p.msg.sealedUnder) {
        AckEvents(net, p);
      } else {
        assert Next(net, step) == net;
      }
  }

  /** The node a step changes. */
  function Mover(net: Net, step: Step): Option<Node> {
    match step
    case Start(a, _, _) => if a in net.nodes then Some(a) else None
    case Resume(a, r) => if a in net.nodes && CanResume(net.nodes[a], r) then Some(a) else None
    case Finish(a, r) => if a in net.nodes && CanFinish(net.nodes[a], r) then Some(a) else None
    case Timeout(a, r) =>
      if a in net.nodes && r in net.nodes[a].connects && net.nodes[a].connects[r].phase != Over then Some(a) else None
    case Deliver(p) => if p in net.sent && p.dst in net.nodes then Some(p.dst) else None
  }

  lemma OthersUntouched(net: Net, step: Step, b: Node)
    requires AllRefsValid(net) && Inv(net) && b in net.nodes && Mover(net, step) != Some(b)
    ensures var net' := Next(net, step);
            && b in net'.nodes && net'.nodes[b] == net.nodes[b]
            && |net.calls| <= |net'.calls| && net.installs <= net'.installs
            && forall i :: i in net'.installs && i !in net.installs ==> i.node != b
  {
    if step.Deliver? && step.p in net.sent && step.p.dst in net.nodes {
      assert NodeOk(net, step.p.dst);
    }
  }

  lemma StepEvents(net: Net, step: Step)
    requires AllRefsValid(net) && Inv(net) && Events(net)
    ensures Events(Next(net, step))
  {
    var net' := Next(net, step);
    forall b | b in net'.nodes ensures NodeEvents(net', b) {
      if Mover(net, step) == Some(b) {
        OwnEvents(net, step, b);
      } else {
        assert NodeEvents(net, b);
        OthersUntouched(net, step, b);
        OthersKeep(net, net', b);
      }
    }
  }

  lemma {:induction false} RunEvents(all: set<Node>, steps: seq<Step>)
    ensures Inv(Run(all, steps)) && Events(Run(all, steps))
  {
    RunKeeps(all, steps);
    if steps != [] {
      RunEvents(all, steps[..|steps| - 1]);
      StepEvents(Run(all, steps[..|steps| - 1]), steps[|steps| - 1]);
    }
  }

  // ---------------------------------------------------------------- what connect returns

  /** The event of an object is set exactly when its node installed its key as initiator. */
  lemma EventMeansInstall(all: set<Node>, steps: seq<Step>, a: Node, r: Ref)
    requires a in Run(all, steps).nodes && r in Run(all, steps).nodes[a].objs
    ensures var net := Run(all, steps); var p := net.nodes[a].objs[r];
            p.ackSet <==> p.ourKey.Some? && InstalledBy(net, a, p.ourKey.value)
  {
    RunEvents(all, steps);
    assert NodeEvents(Run(all, steps), a);
    assert EventOk(Run(all, steps), a, r);
  }

  /** A connect that can return True drew a key that both ends have installed, each under the id of the
      other, and the peer is the node whose bundle the call was made with. */
  lemma TrueMeansBothInstalled(all: set<Node>, steps: seq<Step>, a: Node, r: Ref)
    requires a in Run(all, steps).nodes && CanFinish(Run(all, steps).nodes[a], r)
    ensures var net := Run(all, steps); var c := net.nodes[a].connects[r]; var k := Encapsulated(a, c.bundle, c.draw);
            && net.nodes[a].objs[r].ourKey == Some(k) && net.nodes[a].objs[r].peerAddr == c.bundle
            && Install(a, c.bundle, k, Initiator, c.bundle) in net.installs
            && Install(c.bundle, a, k, Responder, a) in net.installs
  {
    var net := Run(all, steps);
    RunEvents(all, steps);
    assert NodeEvents(net, a) && NodeOk(net, a);
    assert EventOk(net, a, r) && ObjOk(net.nodes[a], net.calls, r);
    var k := net.nodes[a].objs[r].ourKey.value;
    var peer, addr :| Install(a, peer, k, Initiator, addr) in net.installs;
    assert InstallOk(net, Install(a, peer, k, Initiator, addr));
  }

  lemma Finishes(all: set<Node>, net: Net, a: Node, r: Ref)
    requires Reaches(all, net) && a in net.nodes && AllRefsValid(net) && CanFinish(net.nodes[a], r)
    ensures var after := Next(net, Finish(a, r));
            && Reaches(all, after) && after.nodes[a].connects[r].phase == Over
            && forall u: Node, p: Node, k :: Holds(net, u, p, k) ==> Holds(after, u, p, k)
  {
    OneStep(all, net, Finish(a, r));
  }

  /** A call just started gets to where it can return True. */
  lemma GetsThrough(all: set<Node>, net: Net, a: Node, b: Node, n: nat) returns (net': Net)
    requires Reaches(all, net) && a in all && b in all && a != b && Hello(a, b) in net.sent && Calling(net, a, b, b, n)
    ensures Reaches(all, net') && a in net'.nodes && AwaitsAt(net'.nodes[a], b, b, n)
    ensures CanFinish(net'.nodes[a], net'.nodes[a].pending[b])
    ensures Holds(net', a, b, Encapsulated(a, b, n)) && Holds(net', b, a, Encapsulated(a, b, n))
  {
    var net1 := Primes(all, net, a, b, b, n);
    var net2 := Installs(all, net1, a, b, b, n, a);
    assert Decapsulated(b, a, Ciphertext(b, n)) == Encapsulated(a, b, n);
    net' := TakesAcknowledgement(all, net2, a, b, Encapsulated(a, b, n));
  }

  /** Whatever happened before, a connect called now can still return True, with its key at both ends. */
  lemma ConnectCanSucceed(all: set<Node>, net: Net, a: Node, b: Node) returns (net': Net, r: Ref)
    requires Reaches(all, net) && a in all && b in all && a != b
    ensures Reaches(all, net') && a in net'.nodes && CanFinish(net'.nodes[a], r)
    ensures net'.nodes[a].connects[r].bundle == b && net'.nodes[a].connects[r].draw == |net.calls|
    ensures Reaches(all, Next(net', Finish(a, r)))
    ensures var k, after := Encapsulated(a, b, |net.calls|), Next(net', Finish(a, r));
            Holds(after, a, b, k) && Holds(after, b, a, k) && after.nodes[a].connects[r].phase == Over
  {
    var dialled := Dial(all, net, Call(a, b, b));
    net' := GetsThrough(all, dialled, a, b, |net.calls|);
    r := net'.nodes[a].pending[b];
    ReachesSound(all, net', a);
    Finishes(all, net', a, r);
  }
}
