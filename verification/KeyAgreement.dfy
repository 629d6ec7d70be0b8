/** Handshakes among any number of nodes over a network that loses, reorders and duplicates: every
    packet ever sent may be delivered at any time, any number of times, or never. */
module KeyAgreement {
  import opened Handshake
  import opened Wrappers

  /** A call of `connect`, in the order the calls were made; its index is the draw it uses. */
  datatype Call = Call(who: Node, addr: Node, bundle: Node)

  /** `calls` and `installs` are history. */
  datatype Net = Net(nodes: map<Node, NodeState>, sent: set<Packet>, calls: seq<Call>, installs: set<Install>)

  datatype Step =
    | Start(who: Node, addr: Node, bundle: Node)
    | Resume(who: Node, r: Ref)
    | Finish(who: Node, r: Ref)
    | Timeout(who: Node, r: Ref)
    | Deliver(p: Packet)

  function Apply(net: Net, a: Node, e: Effect): Net {
    net.(nodes := net.nodes[a := e.state], sent := net.sent + e.sent, installs := net.installs + e.installed)
  }

  ghost predicate AllRefsValid(net: Net) {
    forall a :: a in net.nodes ==> RefsValid(net.nodes[a])
  }

  ghost function Next(net: Net, step: Step): (net': Net)
    requires AllRefsValid(net)
    ensures AllRefsValid(net')
  {
    match step
    case Start(a, addr, bundle) =>
      if a !in net.nodes then net
      else Apply(net, a, Started(net.nodes[a], addr, bundle, |net.calls|)).
           (calls := net.calls + [Call(a, addr, bundle)])
    case Resume(a, r) =>
      if a in net.nodes && CanResume(net.nodes[a], r) then Apply(net, a, Resumed(net.nodes[a], r)) else net
    case Finish(a, r) =>
      if a in net.nodes && CanFinish(net.nodes[a], r) then net.(nodes := net.nodes[a := Ended(net.nodes[a], r)])
      else net
    case Timeout(a, r) =>
      if a in net.nodes && r in net.nodes[a].connects && net.nodes[a].connects[r].phase != Over
      then net.(nodes := net.nodes[a := Ended(net.nodes[a], r)]) else net
    case Deliver(p) =>
      if p in net.sent && p.dst in net.nodes then Apply(net, p.dst, OnPacket(net.nodes[p.dst], p)) else net
  }

  function Fresh(a: Node): NodeState {
    NodeState(a, map[], 0, map[], map[], map[], map[])
  }

  function Initial(all: set<Node>): Net {
    Net(map a | a in all :: Fresh(a), {}, [], {})
  }

  ghost function Run(all: set<Node>, steps: seq<Step>): (net: Net)
    ensures AllRefsValid(net)
  {
    if steps == [] then Initial(all) else Next(Run(all, steps[..|steps| - 1]), steps[|steps| - 1])
  }

  // ---------------------------------------------------------------- the invariant

  function DrawOf(k: SessionKey): nat {
    match k.secret
    case Shared(n) => n
    case Rejected(ct, _) => ct.draw
  }

  /** What is known of a pending object: its bundle came from its address or from the caller of its own
      connect, and its key is the one that connect drew. */
  ghost predicate ObjOk(s: NodeState, calls: seq<Call>, r: Ref)
    requires r in s.objs
  {
    var p := s.objs[r];
    && (r in s.connects ==>
          s.connects[r].draw < |calls| && calls[s.connects[r].draw] == Call(s.me, p.peerAddr, s.connects[r].bundle))
    && (p.peerBundle.Some? ==>
          p.peerBundle.value == p.peerAddr || (r in s.connects && p.peerBundle.value == s.connects[r].bundle))
    && (p.ourKey.Some? ==>
          r in s.connects && p.ourKey.value == Encapsulated(s.me, s.connects[r].bundle, s.connects[r].draw))
  }

  ghost predicate SessionOk(s: NodeState, installs: set<Install>, peer: Node)
    requires peer in s.sessions
  {
    exists role, addr :: Install(s.me, peer, s.sessions[peer].key, role, addr) in installs
  }

  ghost predicate NodeOk(net: Net, a: Node)
    requires a in net.nodes
  {
    var s := net.nodes[a];
    && s.me == a
    && (forall r :: r in s.objs ==> ObjOk(s, net.calls, r))
    && (forall p :: p in s.sessions ==> SessionOk(s, net.installs, p))
  }

  ghost predicate PacketOk(net: Net, p: Packet) {
    match p.msg
    case HandshakeMsg(b) => b == p.src
    case RespMsg(b) => b == p.src
    case KeyInitMsg(ct) => ct.draw < |net.calls| && net.calls[ct.draw] == Call(p.src, p.dst, ct.to)
    case KeyAckMsg(k) => exists peer :: Install(p.src, peer, k, Responder, p.dst) in net.installs
  }

  ghost predicate Called(calls: seq<Call>, c: Call) {
    exists j :: 0 <= j < |calls| && calls[j] == c
  }

  /** A responder's key comes from a connect of the node it hears from; an initiator's from its own,
      and the responder already installed it under the initiator's bundle. */
  ghost predicate InstallOk(net: Net, i: Install) {
    var n := DrawOf(i.key);
    && n < |net.calls|
    && i.key.parties == {i.node, i.peer}
    && match i.role
       case Responder =>
         && net.calls[n].who == i.addr && net.calls[n].addr == i.node
         && (i.key.secret.Shared? <==> net.calls[n].bundle == i.node)
         && (i.peer == i.addr || Called(net.calls, Call(i.node, i.addr, i.peer)))
       case Initiator =>
         && i.key.secret == Shared(n)
         && net.calls[n] == Call(i.node, i.peer, i.peer) && i.addr == i.peer
         && Install(i.peer, i.node, i.key, Responder, i.node) in net.installs
  }

  ghost predicate Inv(net: Net) {
    && (forall a :: a in net.nodes ==> NodeOk(net, a))
    && (forall p :: p in net.sent ==> PacketOk(net, p))
    && (forall i :: i in net.installs ==> InstallOk(net, i))
  }

  // ---------------------------------------------------------------- preservation

  ghost predicate Grows(net: Net, net': Net) {
    net.calls <= net'.calls && net.installs <= net'.installs
  }

  lemma PacketGrows(net: Net, net': Net, p: Packet)
    requires Grows(net, net') && PacketOk(net, p)
    ensures PacketOk(net', p)
  {
    if p.msg.KeyAckMsg? {
      var peer :| Install(p.src, peer, p.msg.sealedUnder, Responder, p.dst) in net.installs;
      assert Install(p.src, peer, p.msg.sealedUnder, Responder, p.dst) in net'.installs;
    }
  }

  lemma InstallGrows(net: Net, net': Net, i: Install)
    requires Grows(net, net') && InstallOk(net, i)
    ensures InstallOk(net', i)
  {
    if i.role == Responder && i.peer != i.addr {
      var j :| 0 <= j < |net.calls| && net.calls[j] == Call(i.node, i.addr, i.peer);
      assert net'.calls[j] == net.calls[j];
    }
  }

  lemma SessionGrows(s: NodeState, s': NodeState, installs: set<Install>, installs': set<Install>, p: Node)
    requires s'.me == s.me && installs <= installs' && p in s.sessions && p in s'.sessions
    requires s'.sessions[p] == s.sessions[p] && SessionOk(s, installs, p)
    ensures SessionOk(s', installs', p)
  {
    var role, addr :| Install(s.me, p, s.sessions[p].key, role, addr) in installs;
    assert Install(s'.me, p, s'.sessions[p].key, role, addr) in installs';
  }

  lemma NodeGrows(net: Net, net': Net, a: Node)
    requires Grows(net, net') && a in net.nodes && a in net'.nodes && net'.nodes[a] == net.nodes[a] && NodeOk(net, a)
    ensures NodeOk(net', a)
  {
    var s := net.nodes[a];
    forall p | p in s.sessions ensures SessionOk(s, net'.installs, p) {
      SessionGrows(s, s, net.installs, net'.installs, p);
    }
    forall r | r in s.objs ensures ObjOk(s, net'.calls, r) {
      assert ObjOk(s, net.calls, r);
    }
  }

  /** A step is sound when its own node, its packets and its installations are. */
  lemma StepSound(net: Net, net': Net, a: Node)
    requires Inv(net) && Grows(net, net') && a in net'.nodes && net'.nodes == net.nodes[a := net'.nodes[a]]
    requires NodeOk(net', a)
    requires forall p :: p in net'.sent && p !in net.sent ==> PacketOk(net', p)
    requires forall i :: i in net'.installs && i !in net.installs ==> InstallOk(net', i)
    ensures Inv(net')
  {
    forall b | b in net'.nodes ensures NodeOk(net', b) {
      if b != a {
        NodeGrows(net, net', b);
      }
    }
    forall p | p in net'.sent ensures PacketOk(net', p) {
      if p in net.sent {
        PacketGrows(net, net', p);
      }
    }
    forall i | i in net'.installs ensures InstallOk(net', i) {
      if i in net.installs {
        InstallGrows(net, net', i);
      }
    }
  }

  /** The node part of a step that installs nothing: objects are checked one by one. */
  lemma QuietNode(net: Net, net': Net, a: Node)
    requires Inv(net) && Grows(net, net') && a in net.nodes && a in net'.nodes
    requires net'.nodes[a].me == a && net'.nodes[a].sessions == net.nodes[a].sessions
    requires forall r :: r in net'.nodes[a].objs ==> ObjOk(net'.nodes[a], net'.calls, r)
    ensures NodeOk(net', a)
  {
    var s, s' := net.nodes[a], net'.nodes[a];
    forall p | p in s'.sessions ensures SessionOk(s', net'.installs, p) {
      SessionGrows(s, s', net.installs, net'.installs, p);
    }
  }

  lemma StartKeeps(net: Net, a: Node, addr: Node, bundle: Node)
    requires AllRefsValid(net) && Inv(net) && a in net.nodes
    ensures Inv(Next(net, Start(a, addr, bundle)))
  {
    var net' := Next(net, Start(a, addr, bundle));
    var s, s' := net.nodes[a], net'.nodes[a];
    forall r | r in s'.objs ensures ObjOk(s', net'.calls, r) {
      if r != s.nextRef {
        assert ObjOk(s, net.calls, r);
      }
    }
    QuietNode(net, net', a);
    StepSound(net, net', a);
  }

  lemma ResumeKeeps(net: Net, a: Node, r: Ref)
    requires AllRefsValid(net) && Inv(net) && a in net.nodes && CanResume(net.nodes[a], r)
    ensures Inv(Next(net, Resume(a, r)))
  {
    var net' := Next(net, Resume(a, r));
    var s, s' := net.nodes[a], net'.nodes[a];
    assert ObjOk(s, net.calls, r);
    forall q | q in s'.objs ensures ObjOk(s', net'.calls, q) {
      assert ObjOk(s, net.calls, q);
    }
    QuietNode(net, net', a);
    StepSound(net, net', a);
  }

  lemma EndKeeps(net: Net, a: Node, r: Ref)
    requires AllRefsValid(net) && Inv(net) && a in net.nodes && r in net.nodes[a].connects
    ensures Inv(net.(nodes := net.nodes[a := Ended(net.nodes[a], r)]))
  {
    var net' := net.(nodes := net.nodes[a := Ended(net.nodes[a], r)]);
    var s, s' := net.nodes[a], net'.nodes[a];
    forall q | q in s'.objs ensures ObjOk(s', net'.calls, q) {
      assert ObjOk(s, net.calls, q);
    }
    QuietNode(net, net', a);
    StepSound(net, net', a);
  }

  lemma BundleArrivalKeeps(net: Net, p: Packet)
    requires AllRefsValid(net) && Inv(net) && p in net.sent && p.dst in net.nodes
    requires p.msg.HandshakeMsg? || p.msg.RespMsg?
    ensures Inv(Next(net, Deliver(p)))
  {
    var net' := Next(net, Deliver(p));
    var s, s' := net.nodes[p.dst], net'.nodes[p.dst];
    assert PacketOk(net, p);
    forall q | q in s'.objs ensures ObjOk(s', net'.calls, q) {
      if q in s.objs {
        assert ObjOk(s, net.calls, q);
      }
    }
    QuietNode(net, net', p.dst);
    StepSound(net, net', p.dst);
  }

  /** The node part of a step that installs one session and otherwise changes no object's facts. */
  lemma InstallingNode(net: Net, net': Net, i: Install)
    requires Inv(net) && Grows(net, net') && i.node in net.nodes && i.node in net'.nodes && i in net'.installs
    requires net'.nodes[i.node].me == i.node
    requires net'.nodes[i.node].sessions == net.nodes[i.node].sessions[i.peer := KeyedSession(i.addr, i.key)]
    requires forall r :: r in net'.nodes[i.node].objs ==> ObjOk(net'.nodes[i.node], net'.calls, r)
    ensures NodeOk(net', i.node)
  {
    var s, s' := net.nodes[i.node], net'.nodes[i.node];
    forall p | p in s'.sessions ensures SessionOk(s', net'.installs, p) {
      if p == i.peer {
        assert Install(s'.me, p, s'.sessions[p].key, i.role, i.addr) in net'.installs;
      } else {
        SessionGrows(s, s', net.installs, net'.installs, p);
      }
    }
  }

  lemma KeyInitKeeps(net: Net, p: Packet)
    requires AllRefsValid(net) && Inv(net) && p in net.sent && p.dst in net.nodes && p.msg.KeyInitMsg?
    ensures Inv(Next(net, Deliver(p)))
  {
    var net' := Next(net, Deliver(p));
    var a := p.dst;
    var s, s' := net.nodes[a], net'.nodes[a];
    var e := OnKeyInit(s, p.src, p.msg.ct);
    if e.installed == {} {
      assert net' == net;
    } else {
      var r := s.pending[p.src];
      var peer := s.objs[r].peerBundle.value;
      var key := Decapsulated(a, peer, p.msg.ct);
      var i := Install(a, peer, key, Responder, p.src);
      assert PacketOk(net, p) && ObjOk(s, net.calls, r);
      assert e.installed == {i} && e.sent == {Packet(a, p.src, KeyAckMsg(key))};
      assert peer == p.src || Called(net.calls, Call(a, p.src, peer)) by {
        if peer != p.src {
          assert net.calls[s.connects[r].draw] == Call(a, p.src, peer);
        }
      }
      forall q | q in s'.objs ensures ObjOk(s', net'.calls, q) {
        assert ObjOk(s, net.calls, q);
      }
      InstallingNode(net, net', i);
      StepSound(net, net', a);
    }
  }

  /** The heart of the matter: an acknowledgement that opens was sealed by the node the bundle names,
      after it installed the same key under the initiator's bundle. */
  lemma AckTellsInstall(net: Net, a: Node, from: Node, k: SessionKey)
    requires AllRefsValid(net) && Inv(net) && a in net.nodes && TakesAck(net.nodes[a], from, k)
    requires PacketOk(net, Packet(from, a, KeyAckMsg(k)))
    ensures var s := net.nodes[a]; var n := DrawOf(k);
            && s.objs[s.pending[from]].peerBundle == Some(from)
            && k == Encapsulated(a, from, n)
            && n < |net.calls| && net.calls[n] == Call(a, from, from)
            && Install(from, a, k, Responder, a) in net.installs
  {
    var s := net.nodes[a];
    var r := s.pending[from];
    assert ObjOk(s, net.calls, r);
    var peer :| Install(from, peer, k, Responder, a) in net.installs;
    assert InstallOk(net, Install(from, peer, k, Responder, a));
    var b := s.connects[r].bundle;
    assert b == from;
    assert k.parties == {a, from} == {from, peer};
    assert peer in k.parties && a in k.parties;
    assert peer == a;
  }

  lemma KeyAckKeeps(net: Net, p: Packet)
    requires AllRefsValid(net) && Inv(net) && p in net.sent && p.dst in net.nodes && p.msg.KeyAckMsg?
    ensures Inv(Next(net, Deliver(p)))
  {
    var net' := Next(net, Deliver(p));
    var a, k := p.dst, p.msg.sealedUnder;
    var s, s' := net.nodes[a], net'.nodes[a];
    if !TakesAck(s, p.src, k) {
      assert net' == net;
    } else {
      assert PacketOk(net, p);
      AckTellsInstall(net, a, p.src, k);
      var i := Install(a, p.src, k, Initiator, p.src);
      assert OnKeyAck(s, p.src, k).installed == {i};
      forall q | q in s'.objs ensures ObjOk(s', net'.calls, q) {
        assert ObjOk(s, net.calls, q);
      }
      InstallingNode(net, net', i);
      StepSound(net, net', a);
    }
  }

  lemma StepKeeps(net: Net, step: Step)
    requires AllRefsValid(net) && Inv(net)
    ensures Inv(Next(net, step))
  {
    match step
    case Start(a, addr, bundle) => if a in net.nodes { StartKeeps(net, a, addr, bundle); }
    case Resume(a, r) => if a in net.nodes && CanResume(net.nodes[a], r) { ResumeKeeps(net, a, r); }
    case Finish(a, r) => if a in net.nodes && CanFinish(net.nodes[a], r) { EndKeeps(net, a, r); }
    case Timeout(a, r) => if a in net.nodes && r in net.nodes[a].connects { EndKeeps(net, a, r); }
    case Deliver(p) =>
      if p in net.sent && p.dst in net.nodes {
        match p.msg
        case KeyInitMsg(_) => KeyInitKeeps(net, p);
        case KeyAckMsg(_) => KeyAckKeeps(net, p);
        case _ => BundleArrivalKeeps(net, p);
      }
  }

  lemma {:induction false} RunKeeps(all: set<Node>, steps: seq<Step>)
    ensures Inv(Run(all, steps))
  {
    if steps != [] {
      RunKeeps(all, steps[..|steps| - 1]);
      StepKeeps(Run(all, steps[..|steps| - 1]), steps[|steps| - 1]);
    }
  }

  // ---------------------------------------------------------------- agreement

  /** Whenever an initiator has installed a key, the responder has installed it too, under the
      initiator's bundle: it did so before, since this holds in the very state the initiator installs in. */
  lemma InitiatorImpliesResponder(all: set<Node>, steps: seq<Step>, i: Install)
    requires i in Run(all, steps).installs && i.role == Initiator
    ensures Install(i.peer, i.node, i.key, Responder, i.node) in Run(all, steps).installs
    ensures i.key.parties == {i.node, i.peer} && i.addr == i.peer
  {
    RunKeeps(all, steps);
    assert InstallOk(Run(all, steps), i);
  }

  /** A connect one of the two makes that has to do with the other. */
  predicate Involves(c: Call, a: Node, b: Node) {
    || (c.who == a && (c.addr == b || c.bundle == b))
    || (c.who == b && (c.addr == a || c.bundle == a))
  }

  ghost predicate AtMostOneConnect(calls: seq<Call>, a: Node, b: Node) {
    forall i, j :: 0 <= i < |calls| && 0 <= j < |calls| && Involves(calls[i], a, b) && Involves(calls[j], a, b) ==>
                     i == j
  }

  /** The connect that an installation at a under b's id goes back to, among those involving the two. */
  lemma InstallCause(net: Net, i: Install) returns (j: nat)
    requires Inv(net) && i in net.installs && i.node != i.peer
    ensures j < |net.calls| && Involves(net.calls[j], i.node, i.peer)
    ensures || (i.role == Initiator && j == DrawOf(i.key) && net.calls[j] == Call(i.node, i.peer, i.peer))
            || (i.role == Responder && i.addr == i.peer && j == DrawOf(i.key)
                && net.calls[j].who == i.peer && net.calls[j].addr == i.node)
            || (i.role == Responder && i.addr != i.peer && net.calls[j] == Call(i.node, i.addr, i.peer))
  {
    assert InstallOk(net, i);
    j := DrawOf(i.key);
    if i.role == Responder && i.addr != i.peer {
      j :| 0 <= j < |net.calls| && net.calls[j] == Call(i.node, i.addr, i.peer);
    }
  }

  /** When only one connect ever involved the two nodes, the keys held at both ends are equal. */
  lemma OneConnectAgrees(all: set<Node>, steps: seq<Step>, a: Node, b: Node)
    requires var net := Run(all, steps);
             && a != b && a in net.nodes && b in net.nodes && AtMostOneConnect(net.calls, a, b)
             && b in net.nodes[a].sessions && a in net.nodes[b].sessions
    ensures var net := Run(all, steps); net.nodes[a].sessions[b].key == net.nodes[b].sessions[a].key
  {
    var net := Run(all, steps);
    RunKeeps(all, steps);
    assert NodeOk(net, a) && NodeOk(net, b);
    assert SessionOk(net.nodes[a], net.installs, b) && SessionOk(net.nodes[b], net.installs, a);
    var roleA, addrA :| Install(a, b, net.nodes[a].sessions[b].key, roleA, addrA) in net.installs;
    var roleB, addrB :| Install(b, a, net.nodes[b].sessions[a].key, roleB, addrB) in net.installs;
    var i := Install(a, b, net.nodes[a].sessions[b].key, roleA, addrA);
    var j := Install(b, a, net.nodes[b].sessions[a].key, roleB, addrB);
    var ci := InstallCause(net, i);
    var cj := InstallCause(net, j);
    assert ci == cj;
    assert InstallOk(net, i) && InstallOk(net, j);
  }
}
