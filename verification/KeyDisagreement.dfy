/** When two nodes can end up with different keys: exactly when the history of connects allows it.
    The runs are built call by call; only what concerns the two nodes is followed. */
module KeyDisagreement {
  import opened Handshake
  import opened KeyAgreement
  import opened KeyHistory
  import opened Wrappers

  // ---------------------------------------------------------------- what one node knows

  /** The entry for address v is under the id p. */
  ghost predicate ExpectsAt(s: NodeState, v: Node, p: Node) {
    v in s.pending && s.pending[v] in s.objs && s.objs[s.pending[v]].peerBundle == Some(p)
  }

  /** The entry for v belongs to connect n, which waits for its answer. */
  ghost predicate CallsAt(s: NodeState, v: Node, bundle: Node, n: nat) {
    && v in s.pending && s.pending[v] in s.objs && s.pending[v] in s.connects
    && s.connects[s.pending[v]] == Connect(bundle, n, AwaitsResp)
  }

  ghost predicate AnsweredAt(s: NodeState, v: Node) {
    v in s.pending && s.pending[v] in s.objs && s.objs[s.pending[v]].respSet
  }

  ghost predicate KeyedAt(s: NodeState, v: Node, key: SessionKey) {
    v in s.pending && s.pending[v] in s.objs && s.objs[s.pending[v]].ourKey == Some(key)
  }

  /** The entry for v belongs to connect n, which waits for the acknowledgement. */
  ghost predicate AwaitsAt(s: NodeState, v: Node, bundle: Node, n: nat) {
    && v in s.pending && s.pending[v] in s.objs && s.pending[v] in s.connects
    && s.connects[s.pending[v]] == Connect(bundle, n, AwaitsAck)
  }

  ghost predicate HoldsAt(s: NodeState, peer: Node, key: SessionKey) {
    peer in s.sessions && s.sessions[peer].key == key
  }

  /** Sessions stay, but for the one named; entries stay under their ids, but for the address named. */
  ghost predicate StaysAt(s: NodeState, s': NodeState, address: Option<Node>, session: Option<Node>) {
    && (forall p: Node, k :: Some(p) != session && HoldsAt(s, p, k) ==> HoldsAt(s', p, k))
    && (forall v: Node, p: Node :: Some(v) != address && ExpectsAt(s, v, p) ==> ExpectsAt(s', v, p))
  }

  lemma StartedAt(s: NodeState, addr: Node, bundle: Node, n: nat)
    requires RefsValid(s)
    ensures var s' := Started(s, addr, bundle, n).state;
            StaysAt(s, s', Some(addr), None) && CallsAt(s', addr, bundle, n) && ExpectsAt(s', addr, bundle)
  {
  }

  lemma HeardAt(s: NodeState, x: Node)
    requires RefsValid(s)
    ensures var s' := OnHandshake(s, x, x).state;
            && StaysAt(s, s', Some(x), None) && ExpectsAt(s', x, x)
            && (forall v: Node, b: Node, n: nat :: CallsAt(s, v, b, n) ==> CallsAt(s', v, b, n))
  {
  }

  lemma HeardBackAt(s: NodeState, y: Node, bundle: Node, n: nat)
    requires RefsValid(s) && CallsAt(s, y, bundle, n)
    ensures var s' := OnResp(s, y, y).state;
            && StaysAt(s, s', Some(y), None) && CallsAt(s', y, bundle, n) && AnsweredAt(s', y) && ExpectsAt(s', y, y)
  {
  }

  lemma EncapsulatedAt(s: NodeState, y: Node, bundle: Node, n: nat)
    requires RefsValid(s) && CallsAt(s, y, bundle, n) && AnsweredAt(s, y)
    ensures CanResume(s, s.pending[y])
    ensures var e := Resumed(s, s.pending[y]);
            && e.sent == {Packet(s.me, y, KeyInitMsg(Ciphertext(bundle, n)))}
            && StaysAt(s, e.state, None, None) && KeyedAt(e.state, y, Encapsulated(s.me, bundle, n))
            && AwaitsAt(e.state, y, bundle, n)
            && (forall v: Node, p: Node :: ExpectsAt(s, v, p) ==> ExpectsAt(e.state, v, p))
  {
  }

  lemma InstalledAt(s: NodeState, x: Node, peer: Node, ct: Ciphertext)
    requires RefsValid(s) && ExpectsAt(s, x, peer)
    ensures var e := OnKeyInit(s, x, ct); var key := Decapsulated(s.me, peer, ct);
            && e.sent == {Packet(s.me, x, KeyAckMsg(key))}
            && StaysAt(s, e.state, Some(x), Some(peer)) && HoldsAt(e.state, peer, key)
  {
  }

  lemma AcknowledgedAt(s: NodeState, y: Node, key: SessionKey)
    requires RefsValid(s) && KeyedAt(s, y, key) && ExpectsAt(s, y, y)
    ensures var s' := OnKeyAck(s, y, key).state;
            && StaysAt(s, s', None, Some(y)) && HoldsAt(s', y, key)
            && forall b: Node, n: nat :: AwaitsAt(s, y, b, n) ==> AwaitsAt(s', y, b, n) && CanFinish(s', s'.pending[y])
  {
  }

  // ---------------------------------------------------------------- what a network holds

  ghost predicate Reaches(all: set<Node>, net: Net) {
    exists steps :: net == Run(all, steps)
  }

  lemma ReachesSound(all: set<Node>, net: Net, u: Node)
    requires Reaches(all, net) && u in all
    ensures AllRefsValid(net) && u in net.nodes && RefsValid(net.nodes[u]) && net.nodes[u].me == u
  {
    var steps :| net == Run(all, steps);
    RunKeeps(all, steps);
    NodesStay(all, steps);
    assert NodeOk(net, u);
  }

  lemma OneStep(all: set<Node>, net: Net, step: Step)
    requires Reaches(all, net)
    ensures AllRefsValid(net) && Reaches(all, Next(net, step))
  {
    var steps :| net == Run(all, steps);
    assert (steps + [step])[..|steps|] == steps;
    assert Run(all, steps + [step]) == Next(net, step);
  }

  ghost predicate Expects(net: Net, u: Node, v: Node, p: Node) {
    u in net.nodes && ExpectsAt(net.nodes[u], v, p)
  }

  ghost predicate Calling(net: Net, u: Node, v: Node, bundle: Node, n: nat) {
    u in net.nodes && CallsAt(net.nodes[u], v, bundle, n)
  }

  ghost predicate Keyed(net: Net, u: Node, v: Node, key: SessionKey) {
    u in net.nodes && KeyedAt(net.nodes[u], v, key)
  }

  ghost predicate Holds(net: Net, u: Node, peer: Node, key: SessionKey) {
    u in net.nodes && HoldsAt(net.nodes[u], peer, key)
  }

  /** What every step below guarantees besides its own effect. */
  ghost predicate Follows(all: set<Node>, net: Net, net': Net, touched: set<(Node, Node)>, except: set<(Node, Node)>) {
    && Reaches(all, net') && net.sent <= net'.sent
    && (forall u: Node, p: Node, k :: (u, p) !in except && Holds(net, u, p, k) ==> Holds(net', u, p, k))
    && (forall u: Node, v: Node, p: Node :: (u, v) !in touched && Expects(net, u, v, p) ==> Expects(net', u, v, p))
  }

  lemma FollowsTrans(all: set<Node>, a: Net, b: Net, c: Net, t: set<(Node, Node)>, t': set<(Node, Node)>,
                     e: set<(Node, Node)>, e': set<(Node, Node)>)
    requires Follows(all, a, b, t, e) && Follows(all, b, c, t', e')
    ensures Follows(all, a, c, t + t', e + e')
  {
  }

  /** A step of node w. */
  lemma Stepped(all: set<Node>, net: Net, net': Net, w: Node, address: Option<Node>, session: Option<Node>)
    requires Reaches(all, net') && net.sent <= net'.sent && w in net.nodes && w in net'.nodes
    requires net'.nodes == net.nodes[w := net'.nodes[w]] && StaysAt(net.nodes[w], net'.nodes[w], address, session)
    ensures Follows(all, net, net', if address.Some? then {(w, address.value)} else {},
                    if session.Some? then {(w, session.value)} else {})
  {
  }

  function Hello(x: Node, y: Node): Packet {
    Packet(x, y, HandshakeMsg(x))
  }

  function KeyInit(x: Node, y: Node, bundle: Node, n: nat): Packet {
    Packet(x, y, KeyInitMsg(Ciphertext(bundle, n)))
  }

  // ---------------------------------------------------------------- the steps of a handshake

  /** A call is started. */
  lemma Dial(all: set<Node>, net: Net, c: Call) returns (net': Net)
    requires Reaches(all, net) && c.who in all
    ensures Follows(all, net, net', {(c.who, c.addr)}, {})
    ensures net'.calls == net.calls + [c] && Hello(c.who, c.addr) in net'.sent
    ensures Calling(net', c.who, c.addr, c.bundle, |net.calls|) && Expects(net', c.who, c.addr, c.bundle)
  {
    ReachesSound(all, net, c.who);
    OneStep(all, net, Start(c.who, c.addr, c.bundle));
    net' := Next(net, Start(c.who, c.addr, c.bundle));
    StartedAt(net.nodes[c.who], c.addr, c.bundle, |net.calls|);
    Stepped(all, net, net', c.who, Some(c.addr), None);
  }

  /** y hears the HANDSHAKE of x and answers. */
  lemma Hears(all: set<Node>, net: Net, x: Node, y: Node) returns (net': Net)
    requires Reaches(all, net) && y in all && Hello(x, y) in net.sent
    ensures Follows(all, net, net', {(y, x)}, {})
    ensures net'.calls == net.calls && Resp(y, x) in net'.sent && Expects(net', y, x, x)
    ensures forall bundle: Node, n: nat :: Calling(net, x, y, bundle, n) ==> Calling(net', x, y, bundle, n)
  {
    ReachesSound(all, net, y);
    OneStep(all, net, Deliver(Hello(x, y)));
    net' := Next(net, Deliver(Hello(x, y)));
    HeardAt(net.nodes[y], x);
    Stepped(all, net, net', y, Some(x), None);
  }

  /** x hears the answer of y to its call, and encapsulates. */
  lemma HearsBack(all: set<Node>, net: Net, x: Node, y: Node, bundle: Node, n: nat) returns (net': Net)
    requires Reaches(all, net) && x in all && Resp(y, x) in net.sent && Calling(net, x, y, bundle, n)
    ensures Follows(all, net, net', {(x, y)}, {}) && net'.calls == net.calls
    ensures Calling(net', x, y, bundle, n) && AnsweredAt(net'.nodes[x], y) && Expects(net', x, y, y)
  {
    ReachesSound(all, net, x);
    OneStep(all, net, Deliver(Resp(y, x)));
    net' := Next(net, Deliver(Resp(y, x)));
    HeardBackAt(net.nodes[x], y, bundle, n);
    Stepped(all, net, net', x, Some(y), None);
  }

  lemma Encapsulates(all: set<Node>, net: Net, x: Node, y: Node, bundle: Node, n: nat) returns (net': Net)
    requires Reaches(all, net) && x in all && Calling(net, x, y, bundle, n) && AnsweredAt(net.nodes[x], y)
    ensures Follows(all, net, net', {}, {}) && net'.calls == net.calls
    ensures KeyInit(x, y, bundle, n) in net'.sent && Keyed(net', x, y, Encapsulated(x, bundle, n))
    ensures AwaitsAt(net'.nodes[x], y, bundle, n)
  {
    ReachesSound(all, net, x);
    var r := net.nodes[x].pending[y];
    EncapsulatedAt(net.nodes[x], y, bundle, n);
    OneStep(all, net, Resume(x, r));
    net' := Next(net, Resume(x, r));
    Stepped(all, net, net', x, None, None);
  }

  /** y takes a KEY_INIT and installs a session under the id it expects. */
  lemma Installs(all: set<Node>, net: Net, x: Node, y: Node, bundle: Node, n: nat, peer: Node) returns (net': Net)
    requires Reaches(all, net) && y in all && KeyInit(x, y, bundle, n) in net.sent && Expects(net, y, x, peer)
    ensures var key := Decapsulated(y, peer, Ciphertext(bundle, n));
            && Follows(all, net, net', {(y, x)}, {(y, peer)}) && net'.calls == net.calls && Holds(net', y, peer, key)
            && Packet(y, x, KeyAckMsg(key)) in net'.sent
    ensures forall u: Node :: u != y && u in net.nodes ==> u in net'.nodes && net'.nodes[u] == net.nodes[u]
  {
    ReachesSound(all, net, y);
    OneStep(all, net, Deliver(KeyInit(x, y, bundle, n)));
    net' := Next(net, Deliver(KeyInit(x, y, bundle, n)));
    InstalledAt(net.nodes[y], x, peer, Ciphertext(bundle, n));
    Stepped(all, net, net', y, Some(x), Some(peer));
  }

  /** x takes the acknowledgement and installs its own key. */
  lemma TakesAcknowledgement(all: set<Node>, net: Net, x: Node, y: Node, key: SessionKey) returns (net': Net)
    requires Reaches(all, net) && x in all && Packet(y, x, KeyAckMsg(key)) in net.sent
    requires Keyed(net, x, y, key) && Expects(net, x, y, y)
    ensures Follows(all, net, net', {}, {(x, y)}) && net'.calls == net.calls && Holds(net', x, y, key)
    ensures forall b: Node, n: nat :: AwaitsAt(net.nodes[x], y, b, n) ==>
              AwaitsAt(net'.nodes[x], y, b, n) && CanFinish(net'.nodes[x], net'.nodes[x].pending[y])
  {
    ReachesSound(all, net, x);
    OneStep(all, net, Deliver(Packet(y, x, KeyAckMsg(key))));
    net' := Next(net, Deliver(Packet(y, x, KeyAckMsg(key))));
    AcknowledgedAt(net.nodes[x], y, key);
    Stepped(all, net, net', x, None, Some(y));
  }

  /** A call just started gets as far as its KEY_INIT. */
  lemma Primes(all: set<Node>, net: Net, x: Node, y: Node, bundle: Node, n: nat) returns (net': Net)
    requires Reaches(all, net) && x in all && y in all && Hello(x, y) in net.sent && Calling(net, x, y, bundle, n)
    ensures Follows(all, net, net', {(x, y), (y, x)}, {}) && net'.calls == net.calls
    ensures KeyInit(x, y, bundle, n) in net'.sent && Keyed(net', x, y, Encapsulated(x, bundle, n))
    ensures Expects(net', x, y, y) && Expects(net', y, x, x) && AwaitsAt(net'.nodes[x], y, bundle, n)
  {
    var net1 := Hears(all, net, x, y);
    var net2 := HearsBack(all, net1, x, y, bundle, n);
    net' := Encapsulates(all, net2, x, y, bundle, n);
    FollowsTrans(all, net, net1, net2, {(y, x)}, {(x, y)}, {}, {});
    FollowsTrans(all, net, net2, net', {(y, x), (x, y)}, {}, {}, {});
    assert {(y, x), (x, y)} + {} == {(x, y), (y, x)};
  }

  lemma BothWays(all: set<Node>, net: Net, net1: Net, net2: Net, net3: Net, a: Node, b: Node)
    requires Follows(all, net, net1, {(a, b), (b, a)}, {}) && Follows(all, net1, net2, {(b, a)}, {(b, a)})
    requires Follows(all, net2, net3, {}, {(a, b)})
    ensures Follows(all, net, net3, {(a, b), (b, a)}, {(a, b), (b, a)})
  {
    FollowsTrans(all, net, net1, net2, {(a, b), (b, a)}, {(b, a)}, {}, {(b, a)});
    FollowsTrans(all, net, net2, net3, {(a, b), (b, a)} + {(b, a)}, {}, {} + {(b, a)}, {(a, b)});
    assert {(a, b), (b, a)} + {(b, a)} + {} == {(a, b), (b, a)} && {} + {(b, a)} + {(a, b)} == {(a, b), (b, a)};
  }

  /** A call of a to b just started is run to its end: both hold its key. */
  lemma Completes(all: set<Node>, net: Net, a: Node, b: Node, n: nat) returns (net': Net)
    requires Reaches(all, net) && a in all && b in all && a != b && Hello(a, b) in net.sent && Calling(net, a, b, b, n)
    ensures Follows(all, net, net', {(a, b), (b, a)}, {(a, b), (b, a)}) && net'.calls == net.calls
    ensures Holds(net', a, b, Encapsulated(a, b, n))
  {
    var net1 := Primes(all, net, a, b, b, n);
    var net2 := Installs(all, net1, a, b, b, n, a);
    assert Decapsulated(b, a, Ciphertext(b, n)) == Encapsulated(a, b, n);
    net' := TakesAcknowledgement(all, net2, a, b, Encapsulated(a, b, n));
    BothWays(all, net, net1, net2, net', a, b);
  }

  // ---------------------------------------------------------------- both nodes answer

  /** How a node comes to install a key: call `source` from address `via` draws it, and at call `base`
      the node expects its peer's id at that address. */
  datatype Way = Way(via: Node, source: nat, base: nat)

  /** A way for a to install a session under b's id. */
  ghost predicate GoodWay(calls: seq<Call>, a: Node, b: Node, w: Way) {
    && w.source <= w.base < |calls| && Dials(calls[w.source], w.via, a)
    && (if w.via == b then w.base == w.source else w.source < w.base && calls[w.base] == Call(a, w.via, b))
  }

  function WayKey(calls: seq<Call>, a: Node, b: Node, w: Way): SessionKey
    requires w.source < |calls|
  {
    Decapsulated(a, b, Ciphertext(calls[w.source].bundle, w.source))
  }

  lemma RedirectedWay(calls: seq<Call>, a: Node, x: Node, b: Node, k: nat) returns (w: Way)
    requires Redirects(calls, a, x, b, k)
    ensures GoodWay(calls, a, b, w) && w.via == x && w.base == k
  {
    var m :| 0 <= m < |calls[..k]| && Dials(calls[..k][m], x, a);
    assert calls[..k][m] == calls[m];
    w := Way(x, m, k);
  }

  lemma AnswersWay(calls: seq<Call>, a: Node, b: Node) returns (w: Way)
    requires Answers(calls, a, b)
    ensures GoodWay(calls, a, b, w)
  {
    if n: nat :| n < |calls| && Dials(calls[n], b, a) {
      w := Way(b, n, n);
    } else {
      var x: Node, k: nat :| Redirects(calls, a, x, b, k);
      w := RedirectedWay(calls, a, x, b, k);
    }
  }

  /** What of the way has been gone after the first i calls. */
  ghost predicate Gone(net: Net, calls: seq<Call>, a: Node, b: Node, w: Way, i: nat)
    requires w.source < |calls|
  {
    && (w.source < i ==> KeyInit(w.via, a, calls[w.source].bundle, w.source) in net.sent)
    && (w.base < i ==> Holds(net, a, b, WayKey(calls, a, b, w)))
  }

  /** Call n has just been started. */
  ghost predicate JustDialled(net: Net, c: Call, n: nat) {
    && Hello(c.who, c.addr) in net.sent
    && Calling(net, c.who, c.addr, c.bundle, n) && Expects(net, c.who, c.addr, c.bundle)
  }

  ghost predicate CallersIn(all: set<Node>, calls: seq<Call>) {
    forall c :: c in calls ==> c.who in all
  }

  /** The part of a way that belongs to call i. */
  lemma GoesOn(all: set<Node>, net: Net, calls: seq<Call>, a: Node, b: Node, w: Way, i: nat) returns (net': Net)
    requires Reaches(all, net) && a in all && CallersIn(all, calls) && GoodWay(calls, a, b, w) && i < |calls|
    requires Gone(net, calls, a, b, w, i) && (i == w.source || i == w.base ==> JustDialled(net, calls[i], i))
    ensures Reaches(all, net') && net'.calls == net.calls && net.sent <= net'.sent
    ensures forall u: Node, p: Node, k :: (u, p) != (a, b) && Holds(net, u, p, k) ==> Holds(net', u, p, k)
    ensures i != w.source && i != w.base ==> net' == net
    ensures Gone(net', calls, a, b, w, i + 1)
  {
    var c := calls[w.source];
    assert c in calls;
    net' := net;
    if i == w.source {
      net' := Primes(all, net', w.via, a, c.bundle, i);
    }
    if i == w.base {
      net' := Installs(all, net', w.via, a, c.bundle, w.source, b);
    }
  }

  /** No call is part of a's way to b and of b's way to a. */
  lemma WaysApart(calls: seq<Call>, a: Node, b: Node, w: Way, v: Way)
    requires a != b && GoodWay(calls, a, b, w) && GoodWay(calls, b, a, v)
    ensures w.source != v.source && w.source != v.base && w.base != v.source && w.base != v.base
  {
  }

  lemma DialledGoOn(all: set<Node>, net: Net, calls: seq<Call>, a: Node, b: Node, w: Way, v: Way, i: nat)
    returns (net': Net)
    requires a in all && b in all && a != b && CallersIn(all, calls) && i < |calls|
    requires GoodWay(calls, a, b, w) && GoodWay(calls, b, a, v)
    requires Reaches(all, net) && JustDialled(net, calls[i], i)
    requires Gone(net, calls, a, b, w, i) && Gone(net, calls, b, a, v, i)
    ensures Reaches(all, net') && net'.calls == net.calls
    ensures Gone(net', calls, a, b, w, i + 1) && Gone(net', calls, b, a, v, i + 1)
  {
    WaysApart(calls, a, b, w, v);
    net' := GoesOn(all, net, calls, a, b, w, i);
    net' := GoesOn(all, net', calls, b, a, v, i);
  }

  /** Call i is started, and what of the two ways belongs to it is gone. */
  lemma BothGoOn(all: set<Node>, net: Net, calls: seq<Call>, a: Node, b: Node, w: Way, v: Way, i: nat)
    returns (net': Net)
    requires a in all && b in all && a != b && CallersIn(all, calls) && i < |calls|
    requires GoodWay(calls, a, b, w) && GoodWay(calls, b, a, v)
    requires Reaches(all, net) && net.calls == calls[..i]
    requires Gone(net, calls, a, b, w, i) && Gone(net, calls, b, a, v, i)
    ensures Reaches(all, net') && net'.calls == calls[..i + 1]
    ensures Gone(net', calls, a, b, w, i + 1) && Gone(net', calls, b, a, v, i + 1)
  {
    assert calls[i] in calls && calls[..i + 1] == calls[..i] + [calls[i]];
    net' := Dial(all, net, calls[i]);
    net' := DialledGoOn(all, net', calls, a, b, w, v, i);
  }

  lemma {:induction false} BothAnswer(all: set<Node>, calls: seq<Call>, a: Node, b: Node, w: Way, v: Way, i: nat)
    returns (net: Net)
    requires a in all && b in all && a != b && CallersIn(all, calls) && i <= |calls|
    requires GoodWay(calls, a, b, w) && GoodWay(calls, b, a, v)
    ensures Reaches(all, net) && net.calls == calls[..i]
    ensures Gone(net, calls, a, b, w, i) && Gone(net, calls, b, a, v, i)
  {
    if i == 0 {
      net := Initial(all);
      assert net == Run(all, []);
    } else {
      net := BothAnswer(all, calls, a, b, w, v, i - 1);
      net := BothGoOn(all, net, calls, a, b, w, v, i - 1);
    }
  }

  // ---------------------------------------------------------------- one node is overwritten

  /** Call n of a reaches b, and w is a way for b to install another key for a, open until after call n. */
  ghost predicate LateWay(calls: seq<Call>, a: Node, b: Node, n: nat, w: Way) {
    && n < |calls| && calls[n] == Call(a, b, b) && GoodWay(calls, b, a, w) && w.source != n
    && (w.via != a ==> StaysPending(calls, b, w.via, w.base, n))
  }

  function Later(n: nat, w: Way): nat {
    if w.base < n then n else w.base
  }

  lemma OverwritesWay(calls: seq<Call>, a: Node, b: Node, n: nat) returns (w: Way)
    requires Overwrites(calls, a, b, n)
    ensures LateWay(calls, a, b, n, w)
  {
    if m: nat :| m < |calls| && m != n && Dials(calls[m], a, b) {
      w := Way(a, m, m);
    } else {
      var y: Node, k: nat :| Redirects(calls, b, y, a, k) && StaysPending(calls, b, y, k, n);
      w := RedirectedWay(calls, b, y, a, k);
      assert Dials(calls[n], a, b);
    }
  }

  /** What has happened after the first i calls: a's call n is complete, then b is overwritten. */
  ghost predicate Overwriting(net: Net, calls: seq<Call>, a: Node, b: Node, n: nat, w: Way, i: nat)
    requires w.source < |calls|
  {
    && (w.source < i ==> KeyInit(w.via, b, calls[w.source].bundle, w.source) in net.sent)
    && (n < i || (w.via == a && w.source < i) ==> Hello(a, b) in net.sent)
    && (w.via != a && w.base < i <= Later(n, w) ==> Expects(net, b, w.via, a))
    && (n < i ==> Holds(net, a, b, Encapsulated(a, b, n)))
    && (Later(n, w) < i ==> Holds(net, b, a, WayKey(calls, b, a, w)))
  }

  /** Call i was just started, and the rest is as after the first i calls. */
  ghost predicate Dialling(net: Net, calls: seq<Call>, a: Node, b: Node, n: nat, w: Way, i: nat)
    requires w.source < |calls| && i < |calls|
  {
    && JustDialled(net, calls[i], i)
    && (w.source < i ==> KeyInit(w.via, b, calls[w.source].bundle, w.source) in net.sent)
    && (n <= i || (w.via == a && w.source <= i) ==> Hello(a, b) in net.sent)
    && (w.via != a && w.base <= i <= Later(n, w) ==> Expects(net, b, w.via, a))
    && (n < i ==> Holds(net, a, b, Encapsulated(a, b, n)))
    && (Later(n, w) < i ==> Holds(net, b, a, WayKey(calls, b, a, w)))
  }

  /** As Overwriting after i + 1 calls, but for the overwriting itself if it belongs to call i. */
  ghost predicate Prepared(net: Net, calls: seq<Call>, a: Node, b: Node, n: nat, w: Way, i: nat)
    requires w.source < |calls|
  {
    && (w.source <= i ==> KeyInit(w.via, b, calls[w.source].bundle, w.source) in net.sent)
    && (n <= i || (w.via == a && w.source <= i) ==> Hello(a, b) in net.sent)
    && (w.via != a && w.base <= i <= Later(n, w) ==> Expects(net, b, w.via, a))
    && (n <= i ==> Holds(net, a, b, Encapsulated(a, b, n)))
    && (Later(n, w) < i ==> Holds(net, b, a, WayKey(calls, b, a, w)))
  }

  /** The source was just called and is primed. */
  lemma PreparesSource(all: set<Node>, net: Net, calls: seq<Call>, a: Node, b: Node, n: nat, w: Way) returns (net': Net)
    requires Reaches(all, net) && b in all && a != b && CallersIn(all, calls) && LateWay(calls, a, b, n, w)
    requires Dialling(net, calls, a, b, n, w, w.source)
    ensures Reaches(all, net') && net'.calls == net.calls && Prepared(net', calls, a, b, n, w, w.source)
  {
    assert calls[w.source] in calls;
    net' := Primes(all, net, w.via, b, calls[w.source].bundle, w.source);
  }

  /** a's call was just made and is completed. */
  lemma PreparesCall(all: set<Node>, net: Net, calls: seq<Call>, a: Node, b: Node, n: nat, w: Way) returns (net': Net)
    requires Reaches(all, net) && a in all && b in all && a != b && LateWay(calls, a, b, n, w)
    requires Dialling(net, calls, a, b, n, w, n)
    ensures Reaches(all, net') && net'.calls == net.calls && Prepared(net', calls, a, b, n, w, n)
  {
    net' := Completes(all, net, a, b, n);
  }

  lemma OverwritePrepares(all: set<Node>, net: Net, calls: seq<Call>, a: Node, b: Node, n: nat, w: Way, i: nat)
    returns (net': Net)
    requires Reaches(all, net) && a in all && b in all && a != b && CallersIn(all, calls) && i < |calls|
    requires LateWay(calls, a, b, n, w) && Dialling(net, calls, a, b, n, w, i)
    ensures Reaches(all, net') && net'.calls == net.calls && Prepared(net', calls, a, b, n, w, i)
  {
    if i == w.source {
      net' := PreparesSource(all, net, calls, a, b, n, w);
    } else if i == n {
      net' := PreparesCall(all, net, calls, a, b, n, w);
    } else {
      net' := net;
    }
  }

  /** b installs the other key. */
  lemma OverwriteHappens(all: set<Node>, net: Net, calls: seq<Call>, a: Node, b: Node, n: nat, w: Way)
    returns (net': Net)
    requires Reaches(all, net) && a in all && b in all && a != b && LateWay(calls, a, b, n, w)
    requires KeyInit(w.via, b, calls[w.source].bundle, w.source) in net.sent
    requires if w.via == a then Hello(a, b) in net.sent else Expects(net, b, w.via, a)
    ensures Reaches(all, net') && net'.calls == net.calls && net.sent <= net'.sent
    ensures Holds(net', b, a, WayKey(calls, b, a, w))
    ensures forall k :: Holds(net, a, b, k) ==> Holds(net', a, b, k)
  {
    net' := net;
    if w.via == a {
      net' := Hears(all, net, a, b);
    }
    net' := Installs(all, net', w.via, b, calls[w.source].bundle, w.source, a);
  }

  /** The entry b keeps for the way outlasts the start of call i. */
  lemma EntryOutlasts(calls: seq<Call>, a: Node, b: Node, n: nat, w: Way, i: nat)
    requires LateWay(calls, a, b, n, w) && a != b && w.via != a && w.base < i <= Later(n, w) && i < |calls|
    ensures (b, w.via) != (calls[i].who, calls[i].addr) && i != w.source
  {
  }

  /** A call is started; what a and b hold for each other stays, and so does what b expects at x. */
  lemma DialBeside(all: set<Node>, net: Net, c: Call, a: Node, b: Node, x: Node) returns (net': Net)
    requires Reaches(all, net) && c.who in all
    ensures Reaches(all, net') && net'.calls == net.calls + [c] && net.sent <= net'.sent
    ensures JustDialled(net', c, |net.calls|)
    ensures forall k :: Holds(net, a, b, k) ==> Holds(net', a, b, k)
    ensures forall k :: Holds(net, b, a, k) ==> Holds(net', b, a, k)
    ensures (b, x) != (c.who, c.addr) && Expects(net, b, x, a) ==> Expects(net', b, x, a)
  {
    net' := Dial(all, net, c);
  }

  /** What call i itself brings. */
  lemma DialBrings(net: Net, calls: seq<Call>, a: Node, b: Node, n: nat, w: Way, i: nat)
    requires i < |calls| && LateWay(calls, a, b, n, w) && JustDialled(net, calls[i], i)
    ensures i == n || (w.via == a && i == w.source) ==> Hello(a, b) in net.sent
    ensures w.via != a && i == w.base ==> Expects(net, b, w.via, a)
  {
  }

  lemma OverwriteDials(all: set<Node>, net: Net, calls: seq<Call>, a: Node, b: Node, n: nat, w: Way, i: nat)
    returns (net': Net)
    requires a != b && i < |calls| && calls[i].who in all && LateWay(calls, a, b, n, w)
    requires Reaches(all, net) && |net.calls| == i && Overwriting(net, calls, a, b, n, w, i)
    ensures Reaches(all, net') && net'.calls == net.calls + [calls[i]] && Dialling(net', calls, a, b, n, w, i)
  {
    if w.via != a && w.base < i <= Later(n, w) {
      EntryOutlasts(calls, a, b, n, w, i);
    }
    net' := DialBeside(all, net, calls[i], a, b, w.via);
    DialBrings(net', calls, a, b, n, w, i);
  }

  lemma OverwriteGoesOn(all: set<Node>, net: Net, calls: seq<Call>, a: Node, b: Node, n: nat, w: Way, i: nat)
    returns (net': Net)
    requires a in all && b in all && a != b && CallersIn(all, calls) && i < |calls| && LateWay(calls, a, b, n, w)
    requires Reaches(all, net) && net.calls == calls[..i] && Overwriting(net, calls, a, b, n, w, i)
    ensures Reaches(all, net') && net'.calls == calls[..i + 1] && Overwriting(net', calls, a, b, n, w, i + 1)
  {
    assert calls[i] in calls && calls[..i + 1] == calls[..i] + [calls[i]];
    net' := OverwriteDials(all, net, calls, a, b, n, w, i);
    net' := OverwritePrepares(all, net', calls, a, b, n, w, i);
    if i == Later(n, w) {
      net' := OverwriteHappens(all, net', calls, a, b, n, w);
    }
  }

  lemma {:induction false} Overwritten(all: set<Node>, calls: seq<Call>, a: Node, b: Node, n: nat, w: Way, i: nat)
    returns (net: Net)
    requires a in all && b in all && a != b && CallersIn(all, calls) && i <= |calls| && LateWay(calls, a, b, n, w)
    ensures Reaches(all, net) && net.calls == calls[..i] && Overwriting(net, calls, a, b, n, w, i)
  {
    if i == 0 {
      net := Initial(all);
      assert net == Run(all, []);
    } else {
      net := Overwritten(all, calls, a, b, n, w, i - 1);
      net := OverwriteGoesOn(all, net, calls, a, b, n, w, i - 1);
    }
  }

  // ---------------------------------------------------------------- exactly when

  /** A run of exactly these calls after which a and b hold different keys. */
  ghost predicate Disagree(all: set<Node>, calls: seq<Call>, a: Node, b: Node, steps: seq<Step>) {
    var net := Run(all, steps);
    && net.calls == calls && a in net.nodes && b in net.nodes
    && b in net.nodes[a].sessions && a in net.nodes[b].sessions
    && net.nodes[a].sessions[b].key != net.nodes[b].sessions[a].key
  }

  lemma BothAnswerDisagree(all: set<Node>, calls: seq<Call>, a: Node, b: Node) returns (steps: seq<Step>)
    requires a in all && b in all && a != b && CallersIn(all, calls)
    requires Answers(calls, a, b) && Answers(calls, b, a)
    ensures Disagree(all, calls, a, b, steps)
  {
    var w := AnswersWay(calls, a, b);
    var v := AnswersWay(calls, b, a);
    WaysApart(calls, a, b, w, v);
    var net := BothAnswer(all, calls, a, b, w, v, |calls|);
    assert calls[..|calls|] == calls;
    assert DrawOf(WayKey(calls, a, b, w)) == w.source && DrawOf(WayKey(calls, b, a, v)) == v.source;
    steps :| net == Run(all, steps);
  }

  lemma OverwritesDisagree(all: set<Node>, calls: seq<Call>, a: Node, b: Node, n: nat) returns (steps: seq<Step>)
    requires a in all && b in all && a != b && CallersIn(all, calls) && Overwrites(calls, a, b, n)
    ensures Disagree(all, calls, a, b, steps)
  {
    var w := OverwritesWay(calls, a, b, n);
    var net := Overwritten(all, calls, a, b, n, w, |calls|);
    assert calls[..|calls|] == calls;
    assert DrawOf(WayKey(calls, b, a, w)) == w.source && DrawOf(Encapsulated(a, b, n)) == n;
    steps :| net == Run(all, steps);
  }

  lemma DisagreementRun(all: set<Node>, calls: seq<Call>, a: Node, b: Node) returns (steps: seq<Step>)
    requires a in all && b in all && a != b && CallersIn(all, calls) && CanDisagree(calls, a, b)
    ensures Disagree(all, calls, a, b, steps)
  {
    if Answers(calls, a, b) && Answers(calls, b, a) {
      steps := BothAnswerDisagree(all, calls, a, b);
    } else if n: nat :| Overwrites(calls, a, b, n) {
      steps := OverwritesDisagree(all, calls, a, b, n);
    } else {
      var n: nat :| Overwrites(calls, b, a, n);
      steps := OverwritesDisagree(all, calls, b, a, n);
    }
  }

  /** Exactly when two nodes always agree: after a history of connects every run leaves them the same
      key, if it leaves both a session at all, if and only if the history does not let them disagree. */
  lemma AgreementExactly(all: set<Node>, calls: seq<Call>, a: Node, b: Node)
    requires a in all && b in all && a != b && CallersIn(all, calls)
    ensures (exists steps :: Disagree(all, calls, a, b, steps)) <==> CanDisagree(calls, a, b)
  {
    if CanDisagree(calls, a, b) {
      var steps := DisagreementRun(all, calls, a, b);
    }
    if steps :| Disagree(all, calls, a, b, steps) && !CanDisagree(calls, a, b) {
      HistoryAgrees(all, steps, a, b);
    }
  }

  // ---------------------------------------------------------------- connects between two nodes

  predicate Direct(c: Call, a: Node, b: Node) {
    c == Call(a, b, b) || c == Call(b, a, a)
  }

  /** Two connects between a and b, crossing or repeated and whatever else is called, can leave them
      with different keys. */
  lemma TwoConnectsCanDisagree(all: set<Node>, calls: seq<Call>, a: Node, b: Node, i: nat, j: nat)
    returns (steps: seq<Step>)
    requires a in all && b in all && a != b && CallersIn(all, calls)
    requires i < j < |calls| && Direct(calls[i], a, b) && Direct(calls[j], a, b)
    ensures Disagree(all, calls, a, b, steps)
  {
    assert Dials(calls[i], a, b) || Dials(calls[i], b, a);
    assert Dials(calls[j], a, b) || Dials(calls[j], b, a);
    if calls[i] == calls[j] {
      assert Overwrites(calls, calls[i].who, calls[i].addr, i);
    } else {
      assert Dialled(calls, a, b) && Dialled(calls, b, a);
    }
    steps := DisagreementRun(all, calls, a, b);
  }

  /** One connect that has to do with the two is too few. */
  lemma OneConnectCannot(calls: seq<Call>, a: Node, b: Node)
    requires a != b && AtMostOneConnect(calls, a, b)
    ensures !CanDisagree(calls, a, b)
  {
  }
}
