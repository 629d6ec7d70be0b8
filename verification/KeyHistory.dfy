/** Which keys a history of connects can leave at two nodes: what the order of the calls rules out. */
module KeyHistory {
  import opened Handshake
  import opened KeyAgreement
  import opened Wrappers

  predicate Dials(c: Call, x: Node, y: Node) {
    c.who == x && c.addr == y
  }

  ghost predicate Dialled(calls: seq<Call>, x: Node, y: Node) {
    exists n :: 0 <= n < |calls| && Dials(calls[n], x, y)
  }

  /** Call k of node a expects p at the address x of another node, which had dialled a before. */
  ghost predicate Redirects(calls: seq<Call>, a: Node, x: Node, p: Node, k: nat) {
    k < |calls| && calls[k] == Call(a, x, p) && x != p && Dialled(calls[..k], x, a)
  }

  /** No call of a to x comes after call k and before call n. */
  ghost predicate StaysPending(calls: seq<Call>, a: Node, x: Node, k: nat, n: nat) {
    forall j :: k < j < n && j < |calls| ==> !Dials(calls[j], a, x)
  }

  /** b can be made to install, as responder, a session under a's id. */
  ghost predicate Answers(calls: seq<Call>, b: Node, a: Node) {
    Dialled(calls, a, b) || exists x, k :: Redirects(calls, b, x, a, k)
  }

  /** Call n of a reaches b, and b can be given another key for a after that. */
  ghost predicate Overwrites(calls: seq<Call>, a: Node, b: Node, n: nat) {
    && n < |calls| && calls[n] == Call(a, b, b)
    && ((exists m :: 0 <= m < |calls| && m != n && Dials(calls[m], a, b))
        || (exists y, k :: Redirects(calls, b, y, a, k) && StaysPending(calls, b, y, k, n)))
  }

  /** A history that leaves two nodes with different keys in some run: each can answer the other, or
      one can be given a second key after the other has taken the first. */
  ghost predicate CanDisagree(calls: seq<Call>, a: Node, b: Node) {
    || (Answers(calls, a, b) && Answers(calls, b, a))
    || (exists n :: Overwrites(calls, a, b, n))
    || (exists n :: Overwrites(calls, b, a, n))
  }

  // ---------------------------------------------------------------- the order of events

  function Resp(a: Node, x: Node): Packet {
    Packet(a, x, RespMsg(a))
  }

  /** An object that was answered has its answer among the packets sent. */
  ghost predicate AnswersHeard(net: Net, a: Node)
    requires a in net.nodes
  {
    forall r :: r in net.nodes[a].objs && net.nodes[a].objs[r].respSet ==>
                  Resp(net.nodes[a].objs[r].peerAddr, a) in net.sent
  }

  /** The pending object for x, if it is of a connect: no later call replaced it, and if it still
      expects another bundle than x's then every answer to x is older than it. */
  ghost predicate EntryTimely(net: Net, a: Node, x: Node)
    requires a in net.nodes && x in net.nodes[a].pending && RefsValid(net.nodes[a])
  {
    var s := net.nodes[a];
    var r := s.pending[x];
    r in s.connects ==>
      && StaysPending(net.calls, a, x, s.connects[r].draw, |net.calls|)
      && (s.objs[r].peerBundle != Some(x) && Resp(a, x) in net.sent ==>
            s.connects[r].draw <= |net.calls| && Dialled(net.calls[..s.connects[r].draw], x, a))
  }

  ghost predicate NodeTimely(net: Net, a: Node)
    requires a in net.nodes && RefsValid(net.nodes[a])
  {
    AnswersHeard(net, a) && forall x :: x in net.nodes[a].pending ==> EntryTimely(net, a, x)
  }

  ghost predicate PacketTimely(net: Net, p: Packet) {
    match p.msg
    case HandshakeMsg(_) => Dialled(net.calls, p.src, p.dst)
    case RespMsg(_) => Dialled(net.calls, p.dst, p.src)
    case KeyInitMsg(_) => Resp(p.dst, p.src) in net.sent
    case KeyAckMsg(_) => true
  }

  ghost predicate InstallTimely(net: Net, i: Install) {
    i.role == Responder && i.peer != i.addr ==> exists k :: Redirects(net.calls, i.node, i.addr, i.peer, k)
  }

  ghost predicate Timely(net: Net)
    requires AllRefsValid(net)
  {
    && (forall a :: a in net.nodes ==> NodeTimely(net, a))
    && (forall p :: p in net.sent ==> PacketTimely(net, p))
    && (forall i :: i in net.installs ==> InstallTimely(net, i))
  }

  lemma DialledGrows(calls: seq<Call>, calls': seq<Call>, x: Node, y: Node)
    requires calls <= calls' && Dialled(calls, x, y)
    ensures Dialled(calls', x, y)
  {
    var n :| 0 <= n < |calls| && Dials(calls[n], x, y);
    assert calls'[n] == calls[n];
  }

  lemma RedirectsGrows(calls: seq<Call>, calls': seq<Call>, a: Node, x: Node, p: Node, k: nat)
    requires calls <= calls' && Redirects(calls, a, x, p, k)
    ensures Redirects(calls', a, x, p, k)
  {
    assert calls'[k] == calls[k] && calls'[..k] == calls[..k];
  }

  ghost predicate Later(net: Net, net': Net) {
    net.calls <= net'.calls && net.sent <= net'.sent && net.installs <= net'.installs
  }

  lemma PacketStaysTimely(net: Net, net': Net, p: Packet)
    requires Later(net, net') && PacketTimely(net, p)
    ensures PacketTimely(net', p)
  {
    match p.msg
    case HandshakeMsg(_) => DialledGrows(net.calls, net'.calls, p.src, p.dst);
    case RespMsg(_) => DialledGrows(net.calls, net'.calls, p.dst, p.src);
    case _ =>
  }

  lemma InstallStaysTimely(net: Net, net': Net, i: Install)
    requires Later(net, net') && InstallTimely(net, i)
    ensures InstallTimely(net', i)
  {
    if i.role == Responder && i.peer != i.addr {
      var k :| Redirects(net.calls, i.node, i.addr, i.peer, k);
      RedirectsGrows(net.calls, net'.calls, i.node, i.addr, i.peer, k);
    }
  }

  /** a's entry for x is the same, and nothing was dialled or answered that concerns it. */
  ghost predicate EntryAlone(net: Net, net': Net, a: Node, x: Node) {
    && a in net.nodes && a in net'.nodes && x in net.nodes[a].pending && x in net'.nodes[a].pending
    && net'.nodes[a].pending[x] == net.nodes[a].pending[x]
    && (var r := net.nodes[a].pending[x];
        && r in net.nodes[a].objs && r in net'.nodes[a].objs
        && net'.nodes[a].objs[r].peerBundle == net.nodes[a].objs[r].peerBundle
        && (r in net'.nodes[a].connects ==>
              r in net.nodes[a].connects && net'.nodes[a].connects[r].draw == net.nodes[a].connects[r].draw))
    && (Resp(a, x) in net'.sent ==> Resp(a, x) in net.sent)
    && (forall j :: |net.calls| <= j < |net'.calls| ==> !Dials(net'.calls[j], a, x))
  }

  lemma EntryStaysTimely(net: Net, net': Net, a: Node, x: Node)
    requires Later(net, net') && EntryAlone(net, net', a, x) && RefsValid(net.nodes[a]) && RefsValid(net'.nodes[a])
    requires EntryTimely(net, a, x)
    ensures EntryTimely(net', a, x)
  {
    var s := net.nodes[a];
    var r := s.pending[x];
    if r in net'.nodes[a].connects {
      var n := s.connects[r].draw;
      forall j | n < j < |net'.calls| ensures !Dials(net'.calls[j], a, x) {
        assert j < |net.calls| ==> net'.calls[j] == net.calls[j];
      }
      if n <= |net.calls| {
        assert net'.calls[..n] == net.calls[..n];
      }
    }
  }

  /** What a step of node a may add: packets it sends, calls it makes. */
  ghost predicate StepOf(net: Net, net': Net, a: Node) {
    && Later(net, net') && a in net.nodes && a in net'.nodes && net'.nodes == net.nodes[a := net'.nodes[a]]
    && (forall p :: p in net'.sent && p !in net.sent ==> p.src == a)
    && (forall j :: |net.calls| <= j < |net'.calls| ==> net'.calls[j].who == a)
  }

  lemma OtherStaysTimely(net: Net, net': Net, a: Node, b: Node)
    requires AllRefsValid(net) && AllRefsValid(net') && StepOf(net, net', a) && b in net.nodes && b != a
    requires NodeTimely(net, b)
    ensures NodeTimely(net', b)
  {
    forall x | x in net'.nodes[b].pending ensures EntryTimely(net', b, x) {
      EntryStaysTimely(net, net', b, x);
    }
  }

  /** A step keeps the history timely when its own node, packets and installations are. */
  lemma StepTimely(net: Net, net': Net, a: Node)
    requires AllRefsValid(net) && AllRefsValid(net') && Timely(net) && StepOf(net, net', a)
    requires NodeTimely(net', a)
    requires forall p :: p in net'.sent && p !in net.sent ==> PacketTimely(net', p)
    requires forall i :: i in net'.installs && i !in net.installs ==> InstallTimely(net', i)
    ensures Timely(net')
  {
    forall b | b in net'.nodes ensures NodeTimely(net', b) {
      if b != a {
        OtherStaysTimely(net, net', a, b);
      }
    }
    forall p | p in net'.sent ensures PacketTimely(net', p) {
      if p in net.sent {
        PacketStaysTimely(net, net', p);
      }
    }
    forall i | i in net'.installs ensures InstallTimely(net', i) {
      if i in net.installs {
        InstallStaysTimely(net, net', i);
      }
    }
  }

  // ---------------------------------------------------------------- each step

  lemma StartTimely(net: Net, a: Node, addr: Node, bundle: Node)
    requires AllRefsValid(net) && Inv(net) && Timely(net) && a in net.nodes
    ensures Timely(Next(net, Start(a, addr, bundle)))
  {
    var net' := Next(net, Start(a, addr, bundle));
    assert Dials(net'.calls[|net.calls|], a, addr);
    assert NodeTimely(net, a) && NodeOk(net, a);
    forall x | x in net'.nodes[a].pending ensures EntryTimely(net', a, x) {
      if x == addr {
        assert net'.calls[..|net.calls|] == net.calls;
        assert Resp(a, x) in net'.sent ==> PacketTimely(net, Resp(a, x));
      } else {
        EntryStaysTimely(net, net', a, x);
      }
    }
    StepTimely(net, net', a);
  }

  /** The entry for x stays with its connect; it is under x's own id or under the one it had. */
  ghost predicate EntryKept(s: NodeState, s': NodeState, x: Node)
    requires RefsValid(s) && RefsValid(s') && x in s'.pending
  {
    var r := s'.pending[x];
    r in s'.connects ==>
      && x in s.pending && s.pending[x] == r && r in s.connects && s.connects[r].draw == s'.connects[r].draw
      && (s'.objs[r].peerBundle == Some(x) || s'.objs[r].peerBundle == s.objs[r].peerBundle)
  }

  /** What an effect at node a must be for the history to stay timely; only calls are excluded. */
  ghost predicate EffectTimely(net: Net, a: Node, e: Effect)
    requires AllRefsValid(net) && a in net.nodes && RefsValid(e.state)
  {
    && (forall x :: x in e.state.pending ==>
          && EntryKept(net.nodes[a], e.state, x)
          && (Resp(a, x) in e.sent ==> e.state.objs[e.state.pending[x]].peerBundle == Some(x)))
    && (forall r :: r in e.state.objs && e.state.objs[r].respSet ==> Resp(e.state.objs[r].peerAddr, a) in net.sent)
    && (forall p :: p in e.sent ==> p.src == a && PacketTimely(net, p))
    && (forall i :: i in e.installed ==> InstallTimely(net, i))
  }

  lemma EffectEntry(net: Net, a: Node, e: Effect, x: Node)
    requires AllRefsValid(net) && Timely(net) && a in net.nodes && RefsValid(e.state) && EffectTimely(net, a, e)
    requires x in e.state.pending
    ensures EntryTimely(Apply(net, a, e), a, x)
  {
    assert NodeTimely(net, a);
    assert x in net.nodes[a].pending ==> EntryTimely(net, a, x);
    assert EntryKept(net.nodes[a], e.state, x);
  }

  lemma EffectKeepsTimely(net: Net, a: Node, e: Effect)
    requires AllRefsValid(net) && Timely(net) && a in net.nodes && RefsValid(e.state) && EffectTimely(net, a, e)
    ensures AllRefsValid(Apply(net, a, e)) && Timely(Apply(net, a, e))
  {
    var net' := Apply(net, a, e);
    forall x | x in e.state.pending ensures EntryTimely(net', a, x) {
      EffectEntry(net, a, e, x);
    }
    forall p | p in net'.sent && p !in net.sent ensures PacketTimely(net', p) {
      PacketStaysTimely(net, net', p);
    }
    StepTimely(net, net', a);
  }

  lemma ResumeTimely(net: Net, a: Node, r: Ref)
    requires AllRefsValid(net) && Inv(net) && Timely(net) && a in net.nodes && CanResume(net.nodes[a], r)
    ensures EffectTimely(net, a, Resumed(net.nodes[a], r))
  {
    assert NodeTimely(net, a) && NodeOk(net, a);
  }

  lemma EndTimely(net: Net, a: Node, r: Ref)
    requires AllRefsValid(net) && Timely(net) && a in net.nodes && r in net.nodes[a].connects
    ensures EffectTimely(net, a, Effect(Ended(net.nodes[a], r), {}, {}))
  {
    assert NodeTimely(net, a);
  }

  lemma HandshakeTimely(net: Net, p: Packet)
    requires AllRefsValid(net) && Inv(net) && Timely(net) && p in net.sent && p.dst in net.nodes && p.msg.HandshakeMsg?
    ensures EffectTimely(net, p.dst, OnHandshake(net.nodes[p.dst], p.src, p.msg.bundle))
  {
    assert NodeTimely(net, p.dst) && NodeOk(net, p.dst) && PacketOk(net, p) && PacketTimely(net, p);
  }

  lemma RespTimely(net: Net, p: Packet)
    requires AllRefsValid(net) && Inv(net) && Timely(net) && p in net.sent && p.dst in net.nodes && p.msg.RespMsg?
    ensures EffectTimely(net, p.dst, OnResp(net.nodes[p.dst], p.src, p.msg.bundle))
  {
    assert NodeTimely(net, p.dst) && PacketOk(net, p);
    assert p == Resp(p.src, p.dst);
  }

  /** A KEY_INIT that meets an entry under another id: the call behind that entry was redirected, and
      is the node's last one to that address. */
  lemma RedirectedInstall(net: Net, a: Node, x: Node, ct: Ciphertext) returns (k: nat)
    requires AllRefsValid(net) && Inv(net) && Timely(net) && a in net.nodes
    requires Packet(x, a, KeyInitMsg(ct)) in net.sent && x in net.nodes[a].pending
    requires var b := net.nodes[a].objs[net.nodes[a].pending[x]].peerBundle; b.Some? && b != Some(x)
    ensures Redirects(net.calls, a, x, net.nodes[a].objs[net.nodes[a].pending[x]].peerBundle.value, k)
    ensures StaysPending(net.calls, a, x, k, |net.calls|)
  {
    var s := net.nodes[a];
    var r := s.pending[x];
    assert NodeOk(net, a) && ObjOk(s, net.calls, r);
    assert NodeTimely(net, a) && EntryTimely(net, a, x);
    assert PacketTimely(net, Packet(x, a, KeyInitMsg(ct)));
    k := s.connects[r].draw;
  }

  lemma KeyInitTimely(net: Net, p: Packet)
    requires AllRefsValid(net) && Inv(net) && Timely(net) && p in net.sent && p.dst in net.nodes && p.msg.KeyInitMsg?
    ensures EffectTimely(net, p.dst, OnKeyInit(net.nodes[p.dst], p.src, p.msg.ct))
  {
    var e := OnKeyInit(net.nodes[p.dst], p.src, p.msg.ct);
    assert NodeTimely(net, p.dst) && NodeOk(net, p.dst);
    forall i | i in e.installed ensures InstallTimely(net, i) {
      if i.peer != i.addr {
        var k := RedirectedInstall(net, p.dst, p.src, p.msg.ct);
      }
    }
  }

  lemma KeyAckTimely(net: Net, p: Packet)
    requires AllRefsValid(net) && Timely(net) && p in net.sent && p.dst in net.nodes && p.msg.KeyAckMsg?
    ensures EffectTimely(net, p.dst, OnKeyAck(net.nodes[p.dst], p.src, p.msg.sealedUnder))
  {
    assert NodeTimely(net, p.dst);
  }

  lemma DeliverTimely(net: Net, p: Packet)
    requires AllRefsValid(net) && Inv(net) && Timely(net) && p in net.sent && p.dst in net.nodes
    ensures Timely(Next(net, Deliver(p)))
  {
    match p.msg {
      case HandshakeMsg(_) => HandshakeTimely(net, p);
      case RespMsg(_) => RespTimely(net, p);
      case KeyInitMsg(_) => KeyInitTimely(net, p);
      case KeyAckMsg(_) => KeyAckTimely(net, p);
    }
    EffectKeepsTimely(net, p.dst, OnPacket(net.nodes[p.dst], p));
  }

  lemma EndKeepsTimely(net: Net, a: Node, r: Ref)
    requires AllRefsValid(net) && Timely(net) && a in net.nodes && r in net.nodes[a].connects
    ensures Timely(net.(nodes := net.nodes[a := Ended(net.nodes[a], r)]))
  {
    var e := Effect(Ended(net.nodes[a], r), {}, {});
    EndTimely(net, a, r);
    EffectKeepsTimely(net, a, e);
    assert net.sent + {} == net.sent && net.installs + {} == net.installs;
  }

  lemma NextTimely(net: Net, step: Step)
    requires AllRefsValid(net) && Inv(net) && Timely(net)
    ensures Timely(Next(net, step))
  {
    match step
    case Start(a, addr, bundle) => if a in net.nodes { StartTimely(net, a, addr, bundle); }
    case Resume(a, r) =>
      if a in net.nodes && CanResume(net.nodes[a], r) {
        ResumeTimely(net, a, r);
        EffectKeepsTimely(net, a, Resumed(net.nodes[a], r));
      }
    case Finish(a, r) => if a in net.nodes && CanFinish(net.nodes[a], r) { EndKeepsTimely(net, a, r); }
    case Timeout(a, r) => if a in net.nodes && r in net.nodes[a].connects { EndKeepsTimely(net, a, r); }
    case Deliver(p) => if p in net.sent && p.dst in net.nodes { DeliverTimely(net, p); }
  }

  lemma {:induction false} RunTimely(all: set<Node>, steps: seq<Step>)
    ensures Timely(Run(all, steps))
  {
    if steps != [] {
      RunTimely(all, steps[..|steps| - 1]);
      RunKeeps(all, steps[..|steps| - 1]);
      NextTimely(Run(all, steps[..|steps| - 1]), steps[|steps| - 1]);
    }
  }

  // ---------------------------------------------------------------- what the history rules out

  lemma OverwritesGrows(calls: seq<Call>, calls': seq<Call>, a: Node, b: Node, n: nat)
    requires calls <= calls' && Overwrites(calls, a, b, n)
    ensures Overwrites(calls', a, b, n)
  {
    assert calls'[n] == calls[n];
    if m :| 0 <= m < |calls| && m != n && Dials(calls[m], a, b) {
      assert calls'[m] == calls[m];
    } else {
      var y: Node, k: nat :| Redirects(calls, b, y, a, k) && StaysPending(calls, b, y, k, n);
      RedirectsGrows(calls, calls', b, y, a, k);
      forall j | k < j < n && j < |calls'| ensures !Dials(calls'[j], b, y) {
        assert calls'[j] == calls[j];
      }
    }
  }

  /** Nothing can replace at b the key of a's call n. */
  ghost predicate Sole(calls: seq<Call>, a: Node, b: Node, n: nat) {
    n < |calls| && calls[n] == Call(a, b, b) && !Overwrites(calls, a, b, n) && !Dialled(calls, b, a)
  }

  lemma SoleBefore(calls: seq<Call>, calls': seq<Call>, a: Node, b: Node, n: nat)
    requires calls <= calls' && Sole(calls', a, b, n) && n < |calls|
    ensures Sole(calls, a, b, n)
  {
    assert calls'[n] == calls[n];
    if Overwrites(calls, a, b, n) {
      OverwritesGrows(calls, calls', a, b, n);
    }
    if Dialled(calls, b, a) {
      DialledGrows(calls, calls', b, a);
    }
  }

  /** Once b has installed the key of a's sole call, it holds it. */
  ghost predicate Kept(net: Net, a: Node, b: Node, n: nat)
    requires b in net.nodes
  {
    Sole(net.calls, a, b, n) && Install(b, a, Encapsulated(a, b, n), Responder, a) in net.installs ==>
      a in net.nodes[b].sessions && net.nodes[b].sessions[a].key == Encapsulated(a, b, n)
  }

  /** What b installs under a's id while a's call is the sole one is the key of that call. */
  lemma SoleInstall(net: Net, a: Node, b: Node, n: nat, i: Install)
    requires Sole(net.calls, a, b, n) && a != b && InstallOk(net, i) && i.node == b && i.peer == a
    requires i.role == Responder && i.addr != a ==>
               exists k :: Redirects(net.calls, b, i.addr, a, k) && StaysPending(net.calls, b, i.addr, k, |net.calls|)
    ensures i.key == Encapsulated(a, b, n)
  {
    var c := net.calls[DrawOf(i.key)];
    assert Dials(c, c.who, c.addr);
  }

  lemma KeyInitKeepsSole(net: Net, p: Packet, a: Node, b: Node, n: nat)
    requires AllRefsValid(net) && Inv(net) && Timely(net) && p in net.sent && p.dst == b && p.msg.KeyInitMsg?
    requires a != b && b in net.nodes && Kept(net, a, b, n)
    ensures Kept(Next(net, Deliver(p)), a, b, n)
  {
    var net' := Next(net, Deliver(p));
    KeyInitKeeps(net, p);
    var s := net.nodes[b];
    var e := OnKeyInit(s, p.src, p.msg.ct);
    if e.installed != {} {
      var peer := s.objs[s.pending[p.src]].peerBundle.value;
      var i := Install(b, peer, Decapsulated(s.me, peer, p.msg.ct), Responder, p.src);
      assert NodeOk(net, b) && e.installed == {i} && i in net'.installs;
      if peer == a && Sole(net.calls, a, b, n) {
        if p.src != a {
          var k := RedirectedInstall(net, b, p.src, p.msg.ct);
        }
        SoleInstall(net', a, b, n, i);
      }
    }
  }

  lemma KeyAckKeepsSole(net: Net, p: Packet, a: Node, b: Node, n: nat)
    requires AllRefsValid(net) && Inv(net) && p in net.sent && p.dst == b && p.msg.KeyAckMsg?
    requires a != b && b in net.nodes && Kept(net, a, b, n)
    ensures Kept(Next(net, Deliver(p)), a, b, n)
  {
    var net' := Next(net, Deliver(p));
    KeyAckKeeps(net, p);
    var s, k := net.nodes[b], p.msg.sealedUnder;
    if TakesAck(s, p.src, k) {
      var i := Install(b, s.objs[s.pending[p.src]].peerBundle.value, k, Initiator, p.src);
      assert NodeOk(net, b) && i in net'.installs;
      if i.peer == a && Sole(net.calls, a, b, n) {
        SoleInstall(net', a, b, n, i);
      }
    }
  }

  /** A step that installs nothing at b. */
  lemma QuietKeepsSole(net: Net, net': Net, a: Node, b: Node, n: nat)
    requires Inv(net) && b in net.nodes && b in net'.nodes && net.calls <= net'.calls
    requires net'.nodes[b].sessions == net.nodes[b].sessions
    requires forall i :: i in net'.installs && i !in net.installs ==> i.node != b
    requires Kept(net, a, b, n)
    ensures Kept(net', a, b, n)
  {
    var i := Install(b, a, Encapsulated(a, b, n), Responder, a);
    if Sole(net'.calls, a, b, n) && i in net'.installs {
      assert InstallOk(net, i);
      SoleBefore(net.calls, net'.calls, a, b, n);
    }
  }

  /** A delivery changes the sessions of no node but its receiver, and only by KEY_INIT and KEY_ACK. */
  lemma InstallsAtReceiver(net: Net, p: Packet, b: Node)
    requires AllRefsValid(net) && Inv(net) && p in net.sent && p.dst in net.nodes && b in net.nodes
    requires p.dst != b || p.msg.HandshakeMsg? || p.msg.RespMsg?
    ensures var net' := Next(net, Deliver(p));
            && b in net'.nodes && net'.calls == net.calls && net'.nodes[b].sessions == net.nodes[b].sessions
            && forall i :: i in net'.installs && i !in net.installs ==> i.node != b
  {
    assert NodeOk(net, p.dst);
    EffectInstalls(net.nodes[p.dst], p);
  }

  lemma EffectInstalls(s: NodeState, p: Packet)
    requires RefsValid(s)
    ensures forall i :: i in OnPacket(s, p).installed ==> i.node == s.me
    ensures p.msg.HandshakeMsg? || p.msg.RespMsg? ==>
              OnPacket(s, p).installed == {} && OnPacket(s, p).state.sessions == s.sessions
  {
  }

  lemma DeliverKeepsSole(net: Net, p: Packet, a: Node, b: Node, n: nat)
    requires AllRefsValid(net) && Inv(net) && Timely(net) && p in net.sent && p.dst in net.nodes
    requires a != b && b in net.nodes && Kept(net, a, b, n)
    ensures Kept(Next(net, Deliver(p)), a, b, n)
  {
    if p.dst == b && p.msg.KeyInitMsg? {
      KeyInitKeepsSole(net, p, a, b, n);
    } else if p.dst == b && p.msg.KeyAckMsg? {
      KeyAckKeepsSole(net, p, a, b, n);
    } else {
      InstallsAtReceiver(net, p, b);
      QuietKeepsSole(net, Next(net, Deliver(p)), a, b, n);
    }
  }

  /** No session of any node is touched, and no installation recorded. */
  ghost predicate InstallsNothing(net: Net, net': Net, b: Node)
    requires b in net.nodes
  {
    && b in net'.nodes && net.calls <= net'.calls && net'.installs == net.installs
    && net'.nodes[b].sessions == net.nodes[b].sessions
  }

  lemma StartInstallsNothing(net: Net, a: Node, addr: Node, bundle: Node, b: Node)
    requires AllRefsValid(net) && b in net.nodes
    ensures InstallsNothing(net, Next(net, Start(a, addr, bundle)), b)
  {
  }

  lemma ResumeInstallsNothing(net: Net, a: Node, r: Ref, b: Node)
    requires AllRefsValid(net) && b in net.nodes
    ensures InstallsNothing(net, Next(net, Resume(a, r)), b)
  {
  }

  lemma LocalStepInstallsNothing(net: Net, step: Step, b: Node)
    requires AllRefsValid(net) && b in net.nodes
    requires step.Deliver? ==> step.p !in net.sent || step.p.dst !in net.nodes
    ensures InstallsNothing(net, Next(net, step), b)
  {
    match step
    case Start(a, addr, bundle) => StartInstallsNothing(net, a, addr, bundle, b);
    case Resume(a, r) => ResumeInstallsNothing(net, a, r, b);
    case _ =>
  }

  lemma StepKeepsSole(net: Net, step: Step, a: Node, b: Node, n: nat)
    requires AllRefsValid(net) && Inv(net) && Timely(net) && a != b && b in net.nodes && Kept(net, a, b, n)
    ensures b in Next(net, step).nodes && Kept(Next(net, step), a, b, n)
  {
    if step.Deliver? && step.p in net.sent && step.p.dst in net.nodes {
      DeliverKeepsSole(net, step.p, a, b, n);
    } else {
      LocalStepInstallsNothing(net, step, b);
      QuietKeepsSole(net, Next(net, step), a, b, n);
    }
  }

  lemma {:induction false} RunKeepsSole(all: set<Node>, steps: seq<Step>, a: Node, b: Node, n: nat)
    requires a != b && b in all
    ensures b in Run(all, steps).nodes && Kept(Run(all, steps), a, b, n)
  {
    if steps != [] {
      var init := steps[..|steps| - 1];
      RunKeepsSole(all, init, a, b, n);
      RunKeeps(all, init);
      RunTimely(all, init);
      StepKeepsSole(Run(all, init), steps[|steps| - 1], a, b, n);
    }
  }

  /** A session at a under b's id: from a's own call, or because a can answer b. */
  lemma InstallNeeds(net: Net, i: Install)
    requires AllRefsValid(net) && Inv(net) && Timely(net) && i in net.installs
    ensures if i.role == Initiator then Dialled(net.calls, i.node, i.peer) else Answers(net.calls, i.node, i.peer)
  {
    assert InstallOk(net, i) && InstallTimely(net, i);
    assert Dials(net.calls[DrawOf(i.key)], net.calls[DrawOf(i.key)].who, net.calls[DrawOf(i.key)].addr);
    assert i.role == Responder && i.addr == i.peer ==> Dialled(net.calls, i.peer, i.node);
  }

  /** When a holds the key of its own call and cannot answer b, b holds that key too. */
  lemma InitiatorAgrees(all: set<Node>, steps: seq<Step>, a: Node, b: Node, i: Install)
    requires var net := Run(all, steps);
             && a != b && b in all && i in net.installs && i.node == a && i.peer == b && i.role == Initiator
             && !CanDisagree(net.calls, a, b)
    ensures var net := Run(all, steps);
            b in net.nodes && a in net.nodes[b].sessions && net.nodes[b].sessions[a].key == i.key
  {
    var net := Run(all, steps);
    RunKeeps(all, steps);
    RunTimely(all, steps);
    assert InstallOk(net, i);
    var n := DrawOf(i.key);
    assert Dials(net.calls[n], a, b);
    assert Dialled(net.calls, a, b);
    assert !Answers(net.calls, a, b);
    RunKeepsSole(all, steps, a, b, n);
  }

  lemma SymmetricCondition(calls: seq<Call>, a: Node, b: Node)
    requires CanDisagree(calls, b, a)
    ensures CanDisagree(calls, a, b)
  {
  }

  /** Unless the history lets them disagree, two nodes that both hold a session hold the same key. */
  lemma HistoryAgrees(all: set<Node>, steps: seq<Step>, a: Node, b: Node)
    requires var net := Run(all, steps);
             && a != b && a in net.nodes && b in net.nodes && !CanDisagree(net.calls, a, b)
             && b in net.nodes[a].sessions && a in net.nodes[b].sessions
    ensures var net := Run(all, steps); net.nodes[a].sessions[b].key == net.nodes[b].sessions[a].key
  {
    var net := Run(all, steps);
    RunKeeps(all, steps);
    RunTimely(all, steps);
    NodesStay(all, steps);
    assert NodeOk(net, a) && NodeOk(net, b);
    assert SessionOk(net.nodes[a], net.installs, b) && SessionOk(net.nodes[b], net.installs, a);
    var roleA, addrA :| Install(a, b, net.nodes[a].sessions[b].key, roleA, addrA) in net.installs;
    var roleB, addrB :| Install(b, a, net.nodes[b].sessions[a].key, roleB, addrB) in net.installs;
    var i := Install(a, b, net.nodes[a].sessions[b].key, roleA, addrA);
    var j := Install(b, a, net.nodes[b].sessions[a].key, roleB, addrB);
    if roleA == Initiator {
      InitiatorAgrees(all, steps, a, b, i);
    } else if roleB == Initiator {
      if CanDisagree(net.calls, b, a) {
        SymmetricCondition(net.calls, a, b);
      }
      InitiatorAgrees(all, steps, b, a, j);
    } else {
      InstallNeeds(net, i);
      InstallNeeds(net, j);
    }
  }

  lemma {:induction false} NodesStay(all: set<Node>, steps: seq<Step>)
    ensures Run(all, steps).nodes.Keys == all
  {
    if steps != [] {
      NodesStay(all, steps[..|steps| - 1]);
    }
  }
}
