/** Whole runs of one sender's retry table, a lossy and reordering (but not duplicating) network, and
    the receiver's reassembly, with other peers' traffic interleaved (mesh/transport.py:446-471,
    697-764, 774-794).

    `run`, `transmitted`, `lost`, `firstSent`, `failures`, `failedAt` are history: the arrivals at the
    receiver, how often each fragment was put on the network and lost by it, when the last fragment of
    a message was first sent, and which send_failed callbacks fired when. */
module RetryRuns {
  import opened Addresses
  import opened Bytes
  import opened Fragments
  import opened Primitives
  import opened Reassembly
  import opened Transport

  /** The receiver's environment, and the sender under observation as the receiver knows it. */
  datatype Link = Link(env: Env, peer: PeerId, addr: Addr, dst: Addr)

  type Copies = multiset<(nat, nat)>   // (msg_id, frag_idx)

  datatype Sys = Sys(
    nextId: nat,
    table: InFlightTable,
    net: Copies,
    nonces: Nonces,
    run: seq<Arrival>,
    acks: set<nat>,   // ids acknowledged: what `Reassembly.AckNamesItsMessage` says of the ACK packets
    transmitted: Copies,
    lost: Copies,
    firstSent: map<nat, real>,
    failures: multiset<nat>,
    failedAt: map<nat, real>)

  datatype Step =
    | SendNext(nonces: seq<Bytes>, now: real)
    | Deliver(msgId: nat, idx: nat)
    | Lose(msgId: nat, idx: nat)
    | Foreign(a: Arrival)
    | Sweep(now: real)
    | AckArrives(msgId: nat)

  ghost predicate WellFormed(l: Link) {
    Honest(l.env) && l.addr in l.env.byAddr && l.env.byAddr[l.addr] == l.peer && l.peer in l.env.sessions
  }

  /** The message with this id is one the sender sends; ids not logged are those whose send raised. */
  predicate Logged(l: Link, m: nat) {
    (l.peer, m) in l.env.log
  }

  function Frags(l: Link, m: nat): (n: nat)
    requires Logged(l, m)
    ensures n > 0
  {
    Total(l.env, (l.peer, m))
  }

  type Nonces = map<(nat, nat), Bytes>

  function CopyOf(l: Link, nonces: Nonces, m: nat, i: nat): Arrival
    requires (m, i) in nonces
  {
    Arrival(l.addr, (l.peer, m), i, nonces[(m, i)])
  }

  /** One copy of each of the first n fragments of message m. */
  function Burst(m: nat, n: nat): (b: Copies)
    ensures forall p: (nat, nat) :: b[p] == if p.0 == m && p.1 < n then 1 else 0
  {
    var each := set i: nat | i < n :: (m, i);
    assert forall p: (nat, nat) :: p in each <==> p.0 == m && p.1 < n by {
      forall p: (nat, nat) ensures p in each <==> p.0 == m && p.1 < n {
        assert p == (p.0, p.1);
      }
    }
    multiset(each)
  }

  function NoncesOf(m: nat, nonces: seq<Bytes>): Nonces {
    map i: nat | i < |nonces| :: (m, i) := nonces[i]
  }

  ghost predicate FreshNonces(l: Link, m: nat, nonces: seq<Bytes>) {
    && Logged(l, m) && |nonces| == Frags(l, m)
    && forall i :: 0 <= i < |nonces| ==> |nonces[i]| == NONCE_SIZE
  }

  ghost function AfterSend(l: Link, s: Sys, nonces: seq<Bytes>, now: real): Sys
    requires WellFormed(l) && FreshNonces(l, s.nextId, nonces)
  {
    var m, n := s.nextId, Frags(l, s.nextId);
    var last := Arrival(l.addr, (l.peer, m), n - 1, nonces[n - 1]);
    s.(nextId := m + 1,
       table := s.table[m := FreshEntry(m, PacketFor(l.env, last), l.dst, now)],
       net := s.net + Burst(m, n), transmitted := s.transmitted + Burst(m, n),
       nonces := s.nonces + NoncesOf(m, nonces),
       firstSent := s.firstSent[m := now])
  }

  ghost function AfterArrival(l: Link, s: Sys, a: Arrival): Sys
    requires WellFormed(l) && AllGenuine(l.env, s.run) && Genuine(l.env, a)
  {
    s.(run := s.run + [a],
       acks := s.acks + (if a.key.0 == l.peer && Delivers(l.env, Run(l.env, s.run), a).Some? then {a.key.1} else {}))
  }

  /** The last fragment of each message swept again: the only packet an entry holds. */
  function Retransmitted(l: Link, t: InFlightTable, now: real): set<(nat, nat)> {
    set m | m in t && Logged(l, m) && Retransmits(t, m, now) :: (m, Frags(l, m) - 1)
  }

  function GivenUp(t: InFlightTable, now: real): set<nat> {
    set m | m in t && GivesUp(t, m, now)
  }

  function AfterSweep(l: Link, s: Sys, now: real): Sys {
    s.(table := Swept(s.table, now),
       net := s.net + multiset(Retransmitted(l, s.table, now)),
       transmitted := s.transmitted + multiset(Retransmitted(l, s.table, now)),
       failures := s.failures + multiset(GivenUp(s.table, now)),
       failedAt := s.failedAt + map m | m in GivenUp(s.table, now) :: now)
  }

  /** A step that does not apply leaves the state as it is. */
  ghost function Next(l: Link, s: Sys, step: Step): (s': Sys)
    requires WellFormed(l) && AllGenuine(l.env, s.run)
    ensures AllGenuine(l.env, s'.run)
  {
    match step
    case SendNext(nonces, now) =>
      if !Logged(l, s.nextId) then s.(nextId := s.nextId + 1)
      else if FreshNonces(l, s.nextId, nonces) then AfterSend(l, s, nonces, now)
      else s
    case Deliver(m, i) =>
      if s.net[(m, i)] > 0 && (m, i) in s.nonces && Genuine(l.env, CopyOf(l, s.nonces, m, i))
      then AfterArrival(l, s, CopyOf(l, s.nonces, m, i)).(net := s.net - multiset{(m, i)})
      else s
    case Lose(m, i) =>
      if s.net[(m, i)] > 0 then s.(net := s.net - multiset{(m, i)}, lost := s.lost + multiset{(m, i)}) else s
    case Foreign(a) => if Genuine(l.env, a) && a.key.0 != l.peer then AfterArrival(l, s, a) else s
    case Sweep(now) => AfterSweep(l, s, now)
    case AckArrives(m) => if m in s.acks then s.(table := s.table - {m}) else s
  }

  const START: Sys :=
    Sys(1, map[], multiset{}, map[], [], {}, multiset{}, multiset{}, map[], multiset{}, map[])

  ghost function Runs(l: Link, steps: seq<Step>): (s: Sys)
    requires WellFormed(l)
    ensures AllGenuine(l.env, s.run)
  {
    if steps == [] then START else Next(l, Runs(l, steps[..|steps| - 1]), steps[|steps| - 1])
  }

  lemma RunsOneMore(l: Link, steps: seq<Step>, step: Step)
    requires WellFormed(l)
    ensures Runs(l, steps + [step]) == Next(l, Runs(l, steps), step)
  {
    assert (steps + [step])[..|steps|] == steps;
  }

  // ---------------------------------------------------------------- the invariant

  /** Time from the first transmission to the end of the wait that follows attempt k. */
  function Wait(k: nat): real {
    if k == 1 then 0.5 else if k == 2 then 1.5 else 3.5
  }

  /** `packet` is the last fragment of message m, as first sent. */
  ghost predicate HoldsLast(l: Link, nonces: Nonces, m: nat, packet: Bytes)
    requires WellFormed(l) && Logged(l, m)
  {
    var k := (m, Frags(l, m) - 1);
    && k in nonces
    && Genuine(l.env, CopyOf(l, nonces, k.0, k.1))
    && packet == PacketFor(l.env, CopyOf(l, nonces, k.0, k.1))
  }

  ghost predicate EntryOk(l: Link, s: Sys, m: nat)
    requires WellFormed(l) && m in s.table
  {
    var e := s.table[m];
    && 1 <= m < s.nextId && Logged(l, m) && e.msgId == m && e.peerAddr == l.dst
    && 1 <= e.attempt <= MAX_RETRIES
    && s.transmitted[(m, Frags(l, m) - 1)] == e.attempt
    && HoldsLast(l, s.nonces, m, e.packet)
    && m in s.firstSent && e.nextRetryAt >= s.firstSent[m] + Wait(e.attempt)
    && s.failures[m] == 0
  }

  ghost predicate TableOk(l: Link, s: Sys)
    requires WellFormed(l)
  {
    forall m :: m in s.table ==> EntryOk(l, s, m)
  }

  ghost predicate SpentOk(l: Link, s: Sys, m: nat, i: nat)
    requires WellFormed(l)
  {
    && 1 <= m < s.nextId && Logged(l, m) && i < Frags(l, m)
    && (m, i) in s.nonces && |s.nonces[(m, i)]| == NONCE_SIZE
    && s.transmitted[(m, i)] <= (if i == Frags(l, m) - 1 then MAX_RETRIES else 1)
  }

  ghost predicate AllSpentOk(l: Link, s: Sys)
    requires WellFormed(l)
  {
    forall m, i :: s.transmitted[(m, i)] > 0 ==> SpentOk(l, s, m, i)
  }

  /** Conservation: every transmission has arrived, is on its way, or was lost. */
  ghost predicate CountsOk(l: Link, s: Sys) {
    forall m, i :: CountOk(l, s, m, i)
  }

  ghost predicate CountOk(l: Link, s: Sys, m: nat, i: nat) {
    Arrivals(s.run, (l.peer, m), i) + s.net[(m, i)] + s.lost[(m, i)] == s.transmitted[(m, i)]
  }

  ghost predicate FailuresOk(s: Sys) {
    forall m :: s.failures[m] > 0 ==> FailureOk(s, m)
  }

  ghost predicate FailureOk(s: Sys, m: nat) {
    && s.failures[m] == 1 && m < s.nextId && m !in s.table
    && m in s.firstSent && m in s.failedAt && s.failedAt[m] >= s.firstSent[m] + 3.5
  }

  /** An acknowledged message was delivered. */
  ghost predicate AcksOk(l: Link, run: seq<Arrival>, acks: set<nat>)
    requires WellFormed(l) && AllGenuine(l.env, run)
  {
    forall m :: m in acks ==> Deliveries(l.env, run, (l.peer, m)) > 0
  }

  /** A message that left the table was acknowledged or reported as failed. */
  ghost predicate LeftOk(l: Link, s: Sys, m: nat) {
    1 <= m < s.nextId && Logged(l, m) && m !in s.table ==> m in s.acks || s.failures[m] > 0
  }

  ghost predicate SettledOk(l: Link, s: Sys)
    requires WellFormed(l) && AllGenuine(l.env, s.run)
  {
    AcksOk(l, s.run, s.acks) && forall m :: LeftOk(l, s, m)
  }

  ghost predicate Inv(l: Link, s: Sys)
    requires WellFormed(l) && AllGenuine(l.env, s.run)
  {
    && s.nextId >= 1
    && TableOk(l, s) && AllSpentOk(l, s) && CountsOk(l, s) && FailuresOk(s) && SettledOk(l, s)
  }

  // ---------------------------------------------------------------- preservation

  lemma ArrivalCounts(l: Link, s: Sys, a: Arrival, m: nat, i: nat)
    requires WellFormed(l) && AllGenuine(l.env, s.run) && Genuine(l.env, a)
    ensures Arrivals(AfterArrival(l, s, a).run, (l.peer, m), i) ==
            Arrivals(s.run, (l.peer, m), i) + (if a.key == (l.peer, m) && a.idx == i then 1 else 0)
  {
    assert (s.run + [a])[..|s.run|] == s.run;
  }

  lemma ArrivalAcks(l: Link, s: Sys, a: Arrival)
    requires WellFormed(l) && AllGenuine(l.env, s.run) && Genuine(l.env, a) && AcksOk(l, s.run, s.acks)
    ensures AcksOk(l, AfterArrival(l, s, a).run, AfterArrival(l, s, a).acks)
  {
    var s' := AfterArrival(l, s, a);
    assert (s.run + [a])[..|s.run|] == s.run;
    forall m | m in s'.acks ensures Deliveries(l.env, s'.run, (l.peer, m)) > 0 {
      assert m in s.acks || a.key == (l.peer, m);
    }
  }

  lemma SendKeeps(l: Link, s: Sys, nonces: seq<Bytes>, now: real)
    requires WellFormed(l) && AllGenuine(l.env, s.run) && Inv(l, s) && FreshNonces(l, s.nextId, nonces)
    ensures Inv(l, AfterSend(l, s, nonces, now))
  {
    SendTable(l, s, nonces, now);
    SendFailures(l, s, nonces, now);
    SendSettles(l, s, nonces, now);
    SendCounts(l, s, nonces, now);
    SendSpends(l, s, nonces, now);
  }

  lemma SendCounts(l: Link, s: Sys, nonces: seq<Bytes>, now: real)
    requires WellFormed(l) && CountsOk(l, s) && FreshNonces(l, s.nextId, nonces)
    ensures CountsOk(l, AfterSend(l, s, nonces, now))
  {
    var s' := AfterSend(l, s, nonces, now);
    forall m, i ensures CountOk(l, s', m, i) {
      assert CountOk(l, s, m, i);
    }
  }

  lemma NothingSpentYet(l: Link, s: Sys, i: nat)
    requires WellFormed(l) && AllSpentOk(l, s)
    ensures s.transmitted[(s.nextId, i)] == 0
  {
    assert s.transmitted[(s.nextId, i)] > 0 ==> SpentOk(l, s, s.nextId, i);
  }

  lemma SendSpends(l: Link, s: Sys, nonces: seq<Bytes>, now: real)
    requires WellFormed(l) && s.nextId >= 1 && AllSpentOk(l, s) && FreshNonces(l, s.nextId, nonces)
    ensures AllSpentOk(l, AfterSend(l, s, nonces, now))
  {
    var s' := AfterSend(l, s, nonces, now);
    forall m, i | s'.transmitted[(m, i)] > 0 ensures SpentOk(l, s', m, i) {
      NothingSpentYet(l, s, i);
      assert s.transmitted[(m, i)] > 0 ==> SpentOk(l, s, m, i);
      assert m == s.nextId && i < |nonces| ==> (m, i) in NoncesOf(m, nonces);
      assert (m, i) in NoncesOf(s.nextId, nonces) ==> m == s.nextId;
    }
  }

  lemma SendTable(l: Link, s: Sys, nonces: seq<Bytes>, now: real)
    requires WellFormed(l) && AllGenuine(l.env, s.run) && Inv(l, s) && FreshNonces(l, s.nextId, nonces)
    ensures TableOk(l, AfterSend(l, s, nonces, now))
  {
    var s' := AfterSend(l, s, nonces, now);
    NewEntry(l, s, nonces, now);
    forall m | m in s'.table && m != s.nextId ensures EntryOk(l, s', m) {
      OldEntry(l, s, nonces, now, m);
    }
  }

  lemma OldEntry(l: Link, s: Sys, nonces: seq<Bytes>, now: real, m: nat)
    requires WellFormed(l) && TableOk(l, s) && FreshNonces(l, s.nextId, nonces) && m in s.table && m != s.nextId
    ensures EntryOk(l, AfterSend(l, s, nonces, now), m)
  {
    assert EntryOk(l, s, m);
    SendTouchesOne(l, s, nonces, now, m);
    OldHeld(l, s.nonces, s.nextId, nonces, m, s.table[m].packet);
  }

  lemma SendTouchesOne(l: Link, s: Sys, nonces: seq<Bytes>, now: real, m: nat)
    requires WellFormed(l) && FreshNonces(l, s.nextId, nonces) && m in s.table && m != s.nextId
    ensures var s' := AfterSend(l, s, nonces, now);
            && m in s'.table && s'.table[m] == s.table[m] && s'.failures == s.failures
            && (m in s.firstSent ==> m in s'.firstSent && s'.firstSent[m] == s.firstSent[m])
            && (forall i :: s'.transmitted[(m, i)] == s.transmitted[(m, i)])
  {
  }

  lemma OldHeld(l: Link, before: Nonces, other: nat, nonces: seq<Bytes>, m: nat, packet: Bytes)
    requires WellFormed(l) && Logged(l, m) && m != other && HoldsLast(l, before, m, packet)
    ensures HoldsLast(l, before + NoncesOf(other, nonces), m, packet)
  {
    NoncesKept(before, other, nonces);
    HeldStays(l, before, before + NoncesOf(other, nonces), m, other, packet);
  }

  lemma NoncesKept(before: Nonces, m: nat, nonces: seq<Bytes>)
    ensures var after := before + NoncesOf(m, nonces);
            forall k: (nat, nat) :: k.0 != m && k in before ==> k in after && after[k] == before[k]
  {
  }

  lemma SendFailures(l: Link, s: Sys, nonces: seq<Bytes>, now: real)
    requires WellFormed(l) && FailuresOk(s) && FreshNonces(l, s.nextId, nonces)
    ensures FailuresOk(AfterSend(l, s, nonces, now))
  {
    forall m | s.failures[m] > 0 ensures FailureOk(AfterSend(l, s, nonces, now), m) {
      assert FailureOk(s, m);
    }
  }

  lemma SendSettles(l: Link, s: Sys, nonces: seq<Bytes>, now: real)
    requires WellFormed(l) && AllGenuine(l.env, s.run) && Inv(l, s) && FreshNonces(l, s.nextId, nonces)
    ensures SettledOk(l, AfterSend(l, s, nonces, now))
  {
    forall m ensures LeftOk(l, AfterSend(l, s, nonces, now), m) {
      assert LeftOk(l, s, m);
    }
  }

  lemma NewHeld(l: Link, before: Nonces, m: nat, nonces: seq<Bytes>)
    requires WellFormed(l) && FreshNonces(l, m, nonces)
    ensures var last := Arrival(l.addr, (l.peer, m), Frags(l, m) - 1, nonces[Frags(l, m) - 1]);
            Genuine(l.env, last) && HoldsLast(l, before + NoncesOf(m, nonces), m, PacketFor(l.env, last))
  {
    var k := (m, Frags(l, m) - 1);
    assert k in NoncesOf(m, nonces) && NoncesOf(m, nonces)[k] == nonces[k.1];
  }

  lemma NewEntry(l: Link, s: Sys, nonces: seq<Bytes>, now: real)
    requires WellFormed(l) && AllGenuine(l.env, s.run) && Inv(l, s) && FreshNonces(l, s.nextId, nonces)
    ensures EntryOk(l, AfterSend(l, s, nonces, now), s.nextId)
  {
    var s' := AfterSend(l, s, nonces, now);
    var m, n := s.nextId, Frags(l, s.nextId);
    NothingSpentYet(l, s, n - 1);
    NewHeld(l, s.nonces, m, nonces);
    assert s.failures[m] > 0 ==> m < s.nextId;
  }

  lemma HeldStays(l: Link, before: Nonces, after: Nonces, m: nat, other: nat, packet: Bytes)
    requires WellFormed(l) && Logged(l, m) && m != other && HoldsLast(l, before, m, packet)
    requires forall k: (nat, nat) :: k.0 != other && k in before ==> k in after && after[k] == before[k]
    ensures HoldsLast(l, after, m, packet)
  {
    var k := (m, Frags(l, m) - 1);
    assert k.0 != other;
    assert CopyOf(l, after, k.0, k.1) == CopyOf(l, before, k.0, k.1);
  }

  /** net' is the network once the arrived copy, if it is this sender's, is taken off it. */
  ghost predicate TakenOff(l: Link, s: Sys, a: Arrival, net': Copies) {
    if a.key.0 == l.peer
    then (a.key.1, a.idx) in s.net && net' == s.net - multiset{(a.key.1, a.idx)}
    else net' == s.net
  }

  lemma ArrivalKeeps(l: Link, s: Sys, a: Arrival, net': Copies)
    requires WellFormed(l) && AllGenuine(l.env, s.run) && Genuine(l.env, a) && Inv(l, s)
    requires TakenOff(l, s, a, net')
    ensures Inv(l, AfterArrival(l, s, a).(net := net'))
  {
    var s' := AfterArrival(l, s, a).(net := net');
    ArrivalAcks(l, s, a);
    forall m ensures LeftOk(l, s', m) {
      assert LeftOk(l, s, m);
    }
    ArrivalKeepsCounts(l, s, a, net');
    forall m | m in s'.table ensures EntryOk(l, s', m) {
      assert EntryOk(l, s, m);
    }
    forall m, i | s'.transmitted[(m, i)] > 0 ensures SpentOk(l, s', m, i) {
      assert SpentOk(l, s, m, i);
    }
  }

  lemma ArrivalKeepsCount(l: Link, s: Sys, a: Arrival, net': Copies, m: nat, i: nat)
    requires WellFormed(l) && AllGenuine(l.env, s.run) && Genuine(l.env, a) && CountOk(l, s, m, i)
    requires TakenOff(l, s, a, net')
    ensures CountOk(l, AfterArrival(l, s, a).(net := net'), m, i)
  {
    ArrivalCounts(l, s, a, m, i);
    assert a.key == (a.key.0, a.key.1);
  }

  lemma ArrivalKeepsCounts(l: Link, s: Sys, a: Arrival, net': Copies)
    requires WellFormed(l) && AllGenuine(l.env, s.run) && Genuine(l.env, a) && CountsOk(l, s)
    requires TakenOff(l, s, a, net')
    ensures CountsOk(l, AfterArrival(l, s, a).(net := net'))
  {
    forall m, i ensures CountOk(l, AfterArrival(l, s, a).(net := net'), m, i) {
      assert CountOk(l, s, m, i);
      ArrivalKeepsCount(l, s, a, net', m, i);
    }
  }

  lemma SweepKeeps(l: Link, s: Sys, now: real)
    requires WellFormed(l) && AllGenuine(l.env, s.run) && Inv(l, s)
    ensures Inv(l, AfterSweep(l, s, now))
  {
    var s' := AfterSweep(l, s, now);
    forall m, i ensures CountOk(l, s', m, i) {
      assert CountOk(l, s, m, i);
    }
    SweepTable(l, s, now);
    SweepSpent(l, s, now);
    SweepFailures(l, s, now);
  }

  lemma ResentAt(l: Link, t: InFlightTable, now: real, m: nat)
    requires Logged(l, m)
    ensures (m, Frags(l, m) - 1) in Retransmitted(l, t, now) <==> Retransmits(t, m, now)
    ensures multiset(Retransmitted(l, t, now))[(m, Frags(l, m) - 1)] == if Retransmits(t, m, now) then 1 else 0
  {
  }

  lemma ResentMember(l: Link, t: InFlightTable, now: real, m: nat, i: nat)
    requires (m, i) in Retransmitted(l, t, now)
    ensures Logged(l, m) && Retransmits(t, m, now) && i == Frags(l, m) - 1
  {
  }

  lemma SweepTable(l: Link, s: Sys, now: real)
    requires WellFormed(l) && AllGenuine(l.env, s.run) && Inv(l, s)
    ensures TableOk(l, AfterSweep(l, s, now))
  {
    var s' := AfterSweep(l, s, now);
    forall m | m in s'.table ensures EntryOk(l, s', m) {
      SweepEntryOk(l, s, now, m);
    }
  }

  lemma SweepEntryOk(l: Link, s: Sys, now: real, m: nat)
    requires WellFormed(l) && TableOk(l, s) && m in Swept(s.table, now)
    ensures EntryOk(l, AfterSweep(l, s, now), m)
  {
    assert EntryOk(l, s, m);
    ResentAt(l, s.table, now, m);
    if Retransmits(s.table, m, now) {
      RetryWaits(s.table[m], now);
    }
  }

  lemma RetryWaits(e: InFlight, now: real)
    requires 1 <= e.attempt < MAX_RETRIES && Expired(e, now)
    ensures Retried(e, now).nextRetryAt - e.nextRetryAt >= Wait(e.attempt + 1) - Wait(e.attempt)
    ensures Retried(e, now).attempt == e.attempt + 1 && Retried(e, now).packet == e.packet
  {
  }

  lemma SweepSpentAt(l: Link, s: Sys, now: real, m: nat, i: nat)
    requires WellFormed(l) && TableOk(l, s) && AllSpentOk(l, s)
    requires s.transmitted[(m, i)] > 0 || (m, i) in Retransmitted(l, s.table, now)
    ensures SpentOk(l, AfterSweep(l, s, now), m, i)
  {
    if (m, i) in Retransmitted(l, s.table, now) {
      ResentMember(l, s.table, now, m, i);
      assert EntryOk(l, s, m);
      ResentAt(l, s.table, now, m);
      assert SpentOk(l, s, m, i);
    } else {
      assert SpentOk(l, s, m, i);
    }
  }

  lemma SweepSpent(l: Link, s: Sys, now: real)
    requires WellFormed(l) && TableOk(l, s) && AllSpentOk(l, s)
    ensures AllSpentOk(l, AfterSweep(l, s, now))
  {
    var again := multiset(Retransmitted(l, s.table, now));
    forall m, i | (s.transmitted + again)[(m, i)] > 0 ensures SpentOk(l, AfterSweep(l, s, now), m, i) {
      SweepSpentAt(l, s, now, m, i);
    }
  }

  lemma GivenUpIsLate(l: Link, s: Sys, now: real, m: nat)
    requires WellFormed(l) && TableOk(l, s) && m in GivenUp(s.table, now)
    ensures FailureOk(AfterSweep(l, s, now), m)
  {
    assert EntryOk(l, s, m);
  }

  lemma SweepFailure(l: Link, s: Sys, now: real, m: nat)
    requires WellFormed(l) && TableOk(l, s) && FailuresOk(s) && AfterSweep(l, s, now).failures[m] > 0
    ensures FailureOk(AfterSweep(l, s, now), m)
  {
    if m in GivenUp(s.table, now) {
      GivenUpIsLate(l, s, now, m);
    } else {
      assert FailureOk(s, m);
    }
  }

  lemma SweepLeaves(l: Link, s: Sys, now: real, m: nat)
    requires LeftOk(l, s, m)
    ensures LeftOk(l, AfterSweep(l, s, now), m)
  {
    assert m in s.table && m !in Swept(s.table, now) ==> m in GivenUp(s.table, now);
  }

  lemma SweepFailures(l: Link, s: Sys, now: real)
    requires WellFormed(l) && AllGenuine(l.env, s.run) && Inv(l, s)
    ensures FailuresOk(AfterSweep(l, s, now)) && SettledOk(l, AfterSweep(l, s, now))
  {
    var s' := AfterSweep(l, s, now);
    forall m | s'.failures[m] > 0 ensures FailureOk(s', m) {
      SweepFailure(l, s, now, m);
    }
    forall m ensures LeftOk(l, s', m) {
      SweepLeaves(l, s, now, m);
    }
  }

  /** What entries and fragment counts rest on is the same; ids may have been passed over. */
  ghost predicate SameRecords(s: Sys, s': Sys) {
    && s'.transmitted == s.transmitted && s'.nonces == s.nonces && s'.firstSent == s.firstSent
    && s'.failures == s.failures && s'.failedAt == s.failedAt && s'.nextId >= s.nextId
  }

  lemma RecordsKeepEntries(l: Link, s: Sys, s': Sys)
    requires WellFormed(l) && TableOk(l, s) && SameRecords(s, s')
    requires forall m :: m in s'.table ==> m in s.table && s'.table[m] == s.table[m]
    ensures TableOk(l, s')
  {
    forall m | m in s'.table ensures EntryOk(l, s', m) {
      assert EntryOk(l, s, m);
    }
  }

  lemma RecordsKeepSpent(l: Link, s: Sys, s': Sys)
    requires WellFormed(l) && AllSpentOk(l, s) && SameRecords(s, s')
    ensures AllSpentOk(l, s')
  {
    forall m, i | s'.transmitted[(m, i)] > 0 ensures SpentOk(l, s', m, i) {
      assert SpentOk(l, s, m, i);
    }
  }

  lemma RecordsKeepCounts(l: Link, s: Sys, s': Sys)
    requires CountsOk(l, s) && SameRecords(s, s') && s'.run == s.run && s'.net + s'.lost == s.net + s.lost
    ensures CountsOk(l, s')
  {
    forall m, i ensures CountOk(l, s', m, i) {
      assert CountOk(l, s, m, i);
      assert (s'.net + s'.lost)[(m, i)] == (s.net + s.lost)[(m, i)];
    }
  }

  lemma RecordsKeepFailures(s: Sys, s': Sys)
    requires FailuresOk(s) && SameRecords(s, s') && forall m :: m in s'.table ==> m in s.table
    ensures FailuresOk(s')
  {
    forall m | s'.failures[m] > 0 ensures FailureOk(s', m) {
      assert FailureOk(s, m);
    }
  }

  lemma AckSettles(l: Link, s: Sys, m: nat)
    requires WellFormed(l) && AllGenuine(l.env, s.run) && SettledOk(l, s) && m in s.acks
    ensures SettledOk(l, s.(table := s.table - {m}))
  {
    forall k ensures LeftOk(l, s.(table := s.table - {m}), k) {
      assert LeftOk(l, s, k);
    }
  }

  lemma AckKeeps(l: Link, s: Sys, m: nat)
    requires WellFormed(l) && AllGenuine(l.env, s.run) && Inv(l, s) && m in s.acks
    ensures Inv(l, s.(table := s.table - {m}))
  {
    var s' := s.(table := s.table - {m});
    RecordsKeepEntries(l, s, s');
    RecordsKeepSpent(l, s, s');
    RecordsKeepCounts(l, s, s');
    RecordsKeepFailures(s, s');
    AckSettles(l, s, m);
  }

  lemma QuietSettles(l: Link, s: Sys, s': Sys)
    requires WellFormed(l) && AllGenuine(l.env, s.run) && SettledOk(l, s) && SameRecords(s, s')
    requires s'.run == s.run && s'.acks == s.acks && s'.table == s.table
    requires s'.nextId == s.nextId || (s'.nextId == s.nextId + 1 && !Logged(l, s.nextId))
    ensures SettledOk(l, s')
  {
    forall m ensures LeftOk(l, s', m) {
      assert LeftOk(l, s, m);
    }
  }

  lemma QuietKeeps(l: Link, s: Sys, s': Sys)
    requires WellFormed(l) && AllGenuine(l.env, s.run) && Inv(l, s)
    requires s' == s.(nextId := s'.nextId, net := s'.net, lost := s'.lost) && s'.net + s'.lost == s.net + s.lost
    requires s'.nextId == s.nextId || (s'.nextId == s.nextId + 1 && !Logged(l, s.nextId))
    ensures Inv(l, s')
  {
    RecordsKeepEntries(l, s, s');
    RecordsKeepSpent(l, s, s');
    RecordsKeepCounts(l, s, s');
    RecordsKeepFailures(s, s');
    QuietSettles(l, s, s');
  }

  lemma DeliverKeeps(l: Link, s: Sys, m: nat, i: nat)
    requires WellFormed(l) && AllGenuine(l.env, s.run) && Inv(l, s)
    ensures Inv(l, Next(l, s, Deliver(m, i)))
  {
    if s.net[(m, i)] > 0 && (m, i) in s.nonces && Genuine(l.env, CopyOf(l, s.nonces, m, i)) {
      ArrivalKeeps(l, s, CopyOf(l, s.nonces, m, i), s.net - multiset{(m, i)});
    }
  }

  lemma SendNextKeeps(l: Link, s: Sys, nonces: seq<Bytes>, now: real)
    requires WellFormed(l) && AllGenuine(l.env, s.run) && Inv(l, s)
    ensures Inv(l, Next(l, s, SendNext(nonces, now)))
  {
    if FreshNonces(l, s.nextId, nonces) {
      SendKeeps(l, s, nonces, now);
    } else {
      QuietKeeps(l, s, Next(l, s, SendNext(nonces, now)));
    }
  }

  lemma StepKeeps(l: Link, s: Sys, step: Step)
    requires WellFormed(l) && AllGenuine(l.env, s.run) && Inv(l, s)
    ensures Inv(l, Next(l, s, step))
  {
    match step
    case SendNext(nonces, now) => SendNextKeeps(l, s, nonces, now);
    case Deliver(m, i) => DeliverKeeps(l, s, m, i);
    case Lose(m, i) => QuietKeeps(l, s, Next(l, s, step));
    case Foreign(a) => if Genuine(l.env, a) && a.key.0 != l.peer { ArrivalKeeps(l, s, a, s.net); }
    case Sweep(now) => SweepKeeps(l, s, now);
    case AckArrives(m) => if m in s.acks { AckKeeps(l, s, m); }
  }

  lemma {:induction false} RunsKeep(l: Link, steps: seq<Step>)
    requires WellFormed(l)
    ensures Inv(l, Runs(l, steps))
  {
    if steps != [] {
      RunsKeep(l, steps[..|steps| - 1]);
      StepKeeps(l, Runs(l, steps[..|steps| - 1]), steps[|steps| - 1]);
    }
  }

  // ---------------------------------------------------------------- what holds in every run

  ghost predicate Reachable(l: Link, s: Sys)
    requires WellFormed(l)
  {
    exists steps :: s == Runs(l, steps)
  }

  lemma ReachableInv(l: Link, s: Sys)
    requires WellFormed(l) && Reachable(l, s)
    ensures AllGenuine(l.env, s.run) && Inv(l, s)
  {
    var steps :| s == Runs(l, steps);
    RunsKeep(l, steps);
  }

  /** Delivery bound: a message of two or more fragments is delivered at most once, a single-fragment
      message at most MAX_RETRIES times. */
  lemma DeliveryBound(l: Link, s: Sys, m: nat)
    requires WellFormed(l) && Logged(l, m) && Reachable(l, s)
    ensures AllGenuine(l.env, s.run)
    ensures Deliveries(l.env, s.run, (l.peer, m)) <= if Frags(l, m) >= 2 then 1 else MAX_RETRIES
  {
    ReachableInv(l, s);
    DeliveriesBounded(l.env, s.run, (l.peer, m), 0);
    assert CountOk(l, s, m, 0);
    assert s.transmitted[(m, 0)] > 0 ==> SpentOk(l, s, m, 0);
  }

  /** Only the last fragment of a message is ever sent again, so the loss of any other is final. */
  lemma LostFragmentIsFatal(l: Link, s: Sys, m: nat, i: nat)
    requires WellFormed(l) && Logged(l, m) && i < Frags(l, m) - 1
    requires Reachable(l, s) && s.lost[(m, i)] > 0
    ensures AllGenuine(l.env, s.run) && Deliveries(l.env, s.run, (l.peer, m)) == 0
  {
    ReachableInv(l, s);
    DeliveriesBounded(l.env, s.run, (l.peer, m), i);
    assert CountOk(l, s, m, i);
    assert SpentOk(l, s, m, i);
  }

  /** An entry's attempt counts the transmissions of the packet it holds, which is the last fragment, on
      its way to the receiver. */
  lemma AttemptsCountTransmissions(l: Link, s: Sys, m: nat)
    requires WellFormed(l) && Reachable(l, s) && m in s.table
    ensures var e := s.table[m];
            && Logged(l, m) && 1 <= e.attempt <= MAX_RETRIES
            && e.attempt == s.transmitted[(m, Frags(l, m) - 1)]
            && HoldsLast(l, s.nonces, m, e.packet) && e.peerAddr == l.dst
  {
    ReachableInv(l, s);
    assert EntryOk(l, s, m);
  }

  /** send_failed fires at most once per id, and not before 3.5 s after the last fragment was first sent. */
  lemma FailuresAreLateAndSingle(l: Link, s: Sys, m: nat)
    requires WellFormed(l) && Reachable(l, s)
    ensures s.failures[m] <= 1
    ensures s.failures[m] == 1 ==>
              m !in s.table && m in s.firstSent && m in s.failedAt && s.failedAt[m] - s.firstSent[m] >= 3.5
  {
    ReachableInv(l, s);
    assert s.failures[m] > 0 ==> FailureOk(s, m);
  }

  /** A message no longer in flight was delivered or reported as failed: none is forgotten. */
  lemma NoMessageForgotten(l: Link, s: Sys, m: nat)
    requires WellFormed(l) && Logged(l, m) && Reachable(l, s) && 1 <= m < s.nextId && m !in s.table
    ensures AllGenuine(l.env, s.run)
    ensures Deliveries(l.env, s.run, (l.peer, m)) > 0 || s.failures[m] == 1
  {
    ReachableInv(l, s);
    assert LeftOk(l, s, m);
    assert s.failures[m] > 0 ==> FailureOk(s, m);
  }

  /** The id was used and is not in the table any more. */
  ghost predicate Gone(l: Link, steps: seq<Step>, m: nat)
    requires WellFormed(l)
  {
    m < Runs(l, steps).nextId && m !in Runs(l, steps).table
  }

  lemma GoneOneMore(l: Link, steps: seq<Step>, step: Step, m: nat)
    requires WellFormed(l) && Gone(l, steps, m)
    ensures Gone(l, steps + [step], m)
  {
    RunsOneMore(l, steps, step);
    StepNeverReturns(l, Runs(l, steps), step, m);
  }

  lemma FirstMoves<T>(a: seq<T>, b: seq<T>)
    ensures b == [] ==> a + b == a
    ensures b != [] ==> a + [b[0]] + b[1..] == a + b
  {
  }

  /** An id that has left the table never returns. */
  lemma {:induction false} NeverReturns(l: Link, steps: seq<Step>, more: seq<Step>, m: nat)
    requires WellFormed(l) && Gone(l, steps, m)
    ensures Gone(l, steps + more, m)
    decreases |more|
  {
    FirstMoves(steps, more);
    if more != [] {
      GoneOneMore(l, steps, more[0], m);
      NeverReturns(l, steps + [more[0]], more[1..], m);
    }
  }

  lemma StepNeverReturns(l: Link, s: Sys, step: Step, m: nat)
    requires WellFormed(l) && AllGenuine(l.env, s.run) && m < s.nextId && m !in s.table
    ensures var s' := Next(l, s, step); m < s'.nextId && m !in s'.table
  {
  }

  predicate Hit(s: Sys, step: Step, m: nat) {
    step.Sweep? && m in s.table && Expired(s.table[m], step.now)
  }

  /** What one step does to the entry and the failure count of m. */
  ghost predicate ExpiryEffect(s: Sys, s': Sys, step: Step, m: nat) {
    && (m in s.table && m in s'.table ==>
          s'.table[m].attempt == s.table[m].attempt + (if Hit(s, step, m) then 1 else 0))
    && (m in s'.table && m !in s.table ==> m == s.nextId && s'.table[m].attempt == 1)
    && s'.failures[m] == s.failures[m] + (if Hit(s, step, m) && s.table[m].attempt == MAX_RETRIES then 1 else 0)
    && (Hit(s, step, m) && s.table[m].attempt == MAX_RETRIES ==> m !in s'.table)
    && s'.nextId >= s.nextId
  }

  lemma SweepExpiry(l: Link, s: Sys, now: real, m: nat)
    requires WellFormed(l) && TableOk(l, s)
    ensures ExpiryEffect(s, AfterSweep(l, s, now), Sweep(now), m)
  {
    SweptAt(s.table, now, m);
    if m in s.table {
      assert EntryOk(l, s, m);
    }
  }

  lemma SweptAt(t: InFlightTable, now: real, m: nat)
    ensures m in Swept(t, now) <==> m in t && !GivesUp(t, m, now)
    ensures m in Swept(t, now) ==> Swept(t, now)[m] == if Retransmits(t, m, now) then Retried(t[m], now) else t[m]
    ensures multiset(GivenUp(t, now))[m] == if GivesUp(t, m, now) then 1 else 0
  {
  }

  lemma QuietStep(l: Link, s: Sys, step: Step, m: nat)
    requires WellFormed(l) && AllGenuine(l.env, s.run) && !step.Sweep?
    ensures var s' := Next(l, s, step);
            && s'.failures == s.failures && s'.nextId >= s.nextId
            && (m in s'.table ==>
                  (m in s.table && s'.table[m] == s.table[m]) || (m == s.nextId && s'.table[m].attempt == 1))
  {
  }

  lemma QuietExpiry(l: Link, s: Sys, step: Step, m: nat)
    requires WellFormed(l) && AllGenuine(l.env, s.run) && TableOk(l, s) && !step.Sweep?
    ensures ExpiryEffect(s, Next(l, s, step), step, m)
  {
    QuietStep(l, s, step, m);
    if m in s.table {
      assert EntryOk(l, s, m);
    }
  }

  /** How often a sweep found the entry of m expired. */
  ghost function Expiries(l: Link, steps: seq<Step>, m: nat): nat
    requires WellFormed(l)
  {
    if steps == [] then 0
    else
      var init, step := steps[..|steps| - 1], steps[|steps| - 1];
      Expiries(l, init, m) + (if Hit(Runs(l, init), step, m) then 1 else 0)
  }

  /** n expiries so far account for the entry of m, or for its failure. */
  ghost predicate Counted(s: Sys, m: nat, n: nat) {
    && n <= MAX_RETRIES
    && (m >= s.nextId ==> n == 0)
    && (m in s.table ==> n + 1 == s.table[m].attempt)
    && (s.failures[m] == 1 <==> n == MAX_RETRIES)
  }

  lemma StepCounts(s: Sys, s': Sys, step: Step, m: nat, n: nat)
    requires Counted(s, m, n) && ExpiryEffect(s, s', step, m)
    requires m in s.table ==> m < s.nextId && 1 <= s.table[m].attempt <= MAX_RETRIES && s.failures[m] == 0
    requires s.failures[m] > 0 ==> m < s.nextId
    ensures Counted(s', m, n + if Hit(s, step, m) then 1 else 0)
  {
  }

  lemma ExpiryStep(l: Link, s: Sys, step: Step, m: nat, n: nat)
    requires WellFormed(l) && AllGenuine(l.env, s.run) && Inv(l, s) && Counted(s, m, n)
    ensures Counted(Next(l, s, step), m, n + if Hit(s, step, m) then 1 else 0)
  {
    if step.Sweep? {
      SweepExpiry(l, s, step.now, m);
    } else {
      QuietExpiry(l, s, step, m);
    }
    assert m in s.table ==> EntryOk(l, s, m);
    StepCounts(s, Next(l, s, step), step, m, n);
  }

  lemma {:induction false} ExpiriesCounted(l: Link, steps: seq<Step>, m: nat)
    requires WellFormed(l)
    ensures Counted(Runs(l, steps), m, Expiries(l, steps, m))
  {
    if steps != [] {
      var init, step := steps[..|steps| - 1], steps[|steps| - 1];
      ExpiriesCounted(l, init, m);
      RunsKeep(l, init);
      ExpiryStep(l, Runs(l, init), step, m, Expiries(l, init, m));
    }
  }

  /** Each entry is exhausted by its third expiry, and failure is reported exactly then. */
  lemma {:induction false} ThreeExpiriesExhaust(l: Link, steps: seq<Step>, m: nat)
    requires WellFormed(l)
    ensures var s := Runs(l, steps); var n := Expiries(l, steps, m);
            && n <= MAX_RETRIES
            && (m >= s.nextId ==> n == 0)
            && (m in s.table ==> n + 1 == s.table[m].attempt)
            && (s.failures[m] == 1 <==> n == MAX_RETRIES)
  {
    ExpiriesCounted(l, steps, m);
  }

  // ---------------------------------------------------------------- what a sweep puts on the wire

  /** The copies that events of a sweep put on the network: each is the last fragment of its message. */
  ghost predicate Puts(l: Link, events: map<nat, SweepEvent>, m: nat, i: nat) {
    m in events && events[m].Resent? && Logged(l, m) && i == Frags(l, m) - 1
  }

  lemma EventAt(t: InFlightTable, now: real, m: nat)
    ensures var events := Events(t, now);
            && (m in events <==> m in t && t[m].nextRetryAt <= now)
            && (m in events ==>
                  events[m] == if t[m].attempt < 3 then Resent(Datagram(t[m].peerAddr, t[m].packet))
                               else Failed(t[m].peerAddr))
  {
  }

  /** In every run, the datagram a sweep sends for an entry is the last fragment as it was first sent, to
      the same address; after three transmissions the entry is given up and reported with that address;
      entries whose wait is not over are left alone. */
  lemma SweepSendsTheLast(l: Link, s: Sys, now: real, m: nat)
    requires WellFormed(l) && Reachable(l, s)
    ensures var events := Events(s.table, now);
            && (m in events <==> m in s.table && s.table[m].nextRetryAt <= now)
            && (m in events && s.table[m].attempt < 3 ==>
                  && Logged(l, m) && (m, Frags(l, m) - 1) in s.nonces
                  && Genuine(l.env, CopyOf(l, s.nonces, m, Frags(l, m) - 1))
                  && events[m] == Resent(Datagram(l.dst, PacketFor(l.env, CopyOf(l, s.nonces, m, Frags(l, m) - 1)))))
            && (m in events && s.table[m].attempt >= 3 ==> events[m] == Failed(l.dst))
  {
    EventAt(s.table, now, m);
    if m in s.table {
      AttemptsCountTransmissions(l, s, m);
    }
  }

  lemma EventKinds(t: InFlightTable, now: real, m: nat)
    ensures var events := Events(t, now);
            && (m in events && events[m].Resent? <==> Retransmits(t, m, now))
            && (m in events && events[m].Failed? <==> GivesUp(t, m, now))
  {
  }

  lemma SentBySweep(l: Link, t: InFlightTable, now: real, m: nat, i: nat)
    ensures multiset(Retransmitted(l, t, now))[(m, i)] == if Puts(l, Events(t, now), m, i) then 1 else 0
  {
    EventKinds(t, now, m);
    if Logged(l, m) {
      ResentAt(l, t, now, m);
    }
    if (m, i) in Retransmitted(l, t, now) {
      ResentMember(l, t, now, m, i);
    }
  }

  /** The network gains exactly the datagrams of the sweep's events, and exactly its failures are reported. */
  lemma SweepIsItsEvents(l: Link, s: Sys, now: real, m: nat, i: nat)
    ensures var s', events := AfterSweep(l, s, now), Events(s.table, now);
            && s'.net[(m, i)] == s.net[(m, i)] + (if Puts(l, events, m, i) then 1 else 0)
            && s'.failures[m] == s.failures[m] + (if m in events && events[m].Failed? then 1 else 0)
            && (m in s'.table <==> m in s.table && !(m in events && events[m].Failed?))
  {
    SentBySweep(l, s.table, now, m, i);
    EventKinds(s.table, now, m);
    SweptAt(s.table, now, m);
  }

  /** The wait after the first transmission is half a second. */
  lemma FirstWait(l: Link, s: Sys, nonces: seq<Bytes>, now: real)
    requires WellFormed(l) && FreshNonces(l, s.nextId, nonces)
    ensures var t := AfterSend(l, s, nonces, now).table;
            s.nextId in t && t[s.nextId].attempt == 1 && t[s.nextId].nextRetryAt == now + 0.5
  {
  }

  /** After the second it is one second, after the third two; an entry whose wait is not over stays as it is. */
  lemma NextWait(l: Link, s: Sys, now: real, m: nat)
    requires WellFormed(l) && Reachable(l, s) && m in s.table && m in AfterSweep(l, s, now).table
    ensures var e, e' := s.table[m], AfterSweep(l, s, now).table[m];
            if e.nextRetryAt > now then e' == e
            else
              || (e.attempt == 1 && e' == e.(attempt := 2, nextRetryAt := now + 1.0))
              || (e.attempt == 2 && e' == e.(attempt := 3, nextRetryAt := now + 2.0))
  {
    AttemptsCountTransmissions(l, s, m);
    SweptAt(s.table, now, m);
  }

  // ---------------------------------------------------------------- what Send puts on the wire

  lemma LastSent(l: Link, s: Sys, drawn: seq<Bytes>, now: real, sent: seq<Datagram>, clock: nat -> real)
    requires WellFormed(l) && FreshNonces(l, s.nextId, drawn) && clock(|drawn| - 1) == now && |sent| == |drawn|
    requires var a := Arrival(l.addr, (l.peer, s.nextId), |drawn| - 1, drawn[|drawn| - 1]);
             Genuine(l.env, a) && sent[|drawn| - 1] == Datagram(l.dst, PacketFor(l.env, a))
    ensures WithLast(s.table, sent, s.nextId, l.dst, clock) == AfterSend(l, s, drawn, now).table
  {
  }

  lemma SentFragment(l: Link, nonces: nat -> Bytes, m: nat, i: nat, from: SessionInfo)
    requires WellFormed(l) && Logged(l, m) && i < Frags(l, m) && |nonces(i)| == NONCE_SIZE
    requires from.sessionKey == l.env.sessions[l.peer].sessionKey && from.peerAddr == l.dst
    ensures var out := l.env.log[(l.peer, m)]; var a := Arrival(l.addr, (l.peer, m), i, nonces(i));
            && Genuine(l.env, a)
            && DatagramOf(l.env.c, out.senderId, out.signKey, from, m, out.message, nonces, i)
               == Datagram(l.dst, PacketFor(l.env, a))
  {
    SentDatagramIsPacketFor(l.env, Arrival(l.addr, (l.peer, m), i, nonces(i)), from, nonces);
  }

  /** The sending step of these runs is what MeshTransport.Send does over a session to the receiver: the
      same table afterwards, and one datagram to it for each fragment. */
  lemma SendIsAStep(l: Link, s: Sys, drawn: seq<Bytes>, now: real, from: SessionInfo, nonces: nat -> Bytes,
                    clock: nat -> real, sent: seq<Datagram>, after: InFlightTable)
    requires WellFormed(l) && FreshNonces(l, s.nextId, drawn) && clock(|drawn| - 1) == now
    requires (forall i :: |nonces(i)| == NONCE_SIZE) && (forall i :: 0 <= i < |drawn| ==> nonces(i) == drawn[i])
    requires from.sessionKey == l.env.sessions[l.peer].sessionKey && from.peerAddr == l.dst
    requires var out := l.env.log[(l.peer, s.nextId)];
             WentOut(sent, l.env.c, out.senderId, out.signKey, from, s.nextId, out.message, nonces, clock, s.table,
                     after)
    ensures after == AfterSend(l, s, drawn, now).table && |sent| == Frags(l, s.nextId)
    ensures forall i :: 0 <= i < |sent| ==>
              var a := Arrival(l.addr, (l.peer, s.nextId), i, drawn[i]);
              Genuine(l.env, a) && sent[i] == Datagram(l.dst, PacketFor(l.env, a))
  {
    forall i | 0 <= i < |sent|
      ensures var a := Arrival(l.addr, (l.peer, s.nextId), i, drawn[i]);
              Genuine(l.env, a) && sent[i] == Datagram(l.dst, PacketFor(l.env, a))
    {
      SentFragment(l, nonces, s.nextId, i, from);
    }
    LastSent(l, s, drawn, now, sent, clock);
  }
}
