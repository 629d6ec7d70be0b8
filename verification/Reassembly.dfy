/** Any interleaving, reordering, duplication and loss of the datagrams of any number of messages,
    from any number of peers, seen by one receiver (mesh/transport.py:434-471, 697-756). */
module Reassembly {
  import opened Addresses
  import opened Bytes
  import opened Finite
  import opened Fragments
  import opened Packet
  import opened Primitives
  import opened Transport
  import opened Wrappers

  /** What one peer sent under one of its message ids. */
  datatype Outbound = Outbound(senderId: Bytes, signKey: Bytes, message: Bytes)

  datatype Env = Env(c: Crypto, sessions: Sessions, byAddr: ByAddr, log: map<MsgKey, Outbound>)

  /** One arriving copy of one datagram of one logged message. */
  datatype Arrival = Arrival(addr: Addr, key: MsgKey, idx: nat, nonce: Bytes)

  /** The receiver's sessions hold the keys the senders use; every logged message was sendable. */
  ghost predicate Honest(env: Env) {
    && Sound(env.c)
    && forall key :: key in env.log ==>
        && |env.log[key].senderId| == 32
        && Sendable(key.1, env.log[key].message)
        && (key.0 in env.sessions ==> env.sessions[key.0].verifyKey == env.c.publicOf(env.log[key].signKey))
  }

  function Total(env: Env, key: MsgKey): (n: nat)
    requires key in env.log
    ensures n > 0
  {
    ChunkCount(SIG_SIZE + |env.log[key].message|)
  }

  ghost predicate Genuine(env: Env, a: Arrival) {
    && a.key in env.log && a.idx < Total(env, a.key) && |a.nonce| == NONCE_SIZE
    && a.addr in env.byAddr && env.byAddr[a.addr] == a.key.0 && a.key.0 in env.sessions
  }

  function FragFor(env: Env, key: MsgKey, i: nat): (f: Frag)
    requires Honest(env) && key in env.log && i < Total(env, key)
    ensures Encodable(f)
  {
    FragOf(env.c, env.log[key].signKey, key.1, env.log[key].message, i)
  }

  function PacketFor(env: Env, a: Arrival): Bytes
    requires Honest(env) && Genuine(env, a)
  {
    MessagePacket(env.c, env.log[a.key].senderId, env.sessions[a.key.0].sessionKey, a.nonce, FragFor(env, a.key, a.idx))
  }

  function After(env: Env, bufs: Buffers, a: Arrival): Buffers
    requires Honest(env) && Genuine(env, a)
  {
    AfterDatagram(env.c, env.sessions, env.byAddr, bufs, PacketFor(env, a), a.addr)
  }

  function Delivers(env: Env, bufs: Buffers, a: Arrival): Option<(PeerId, Bytes)>
    requires Honest(env) && Genuine(env, a)
  {
    DatagramDelivers(env.c, env.sessions, env.byAddr, bufs, PacketFor(env, a), a.addr)
  }

  ghost predicate AllGenuine(env: Env, run: seq<Arrival>) {
    forall a :: a in run ==> Genuine(env, a)
  }

  function Run(env: Env, run: seq<Arrival>): Buffers
    requires Honest(env) && AllGenuine(env, run)
  {
    if run == [] then map[]
    else
      assert run[|run| - 1] in run;
      After(env, Run(env, run[..|run| - 1]), run[|run| - 1])
  }

  // ---------------------------------------------------------------- from bytes to fragments

  /** Parsing, MAC check, decryption and storage of a genuine datagram come to storing the sender's fragment. */
  lemma DatagramIsFragment(env: Env, bufs: Buffers, a: Arrival)
    requires Honest(env) && Genuine(env, a)
    ensures After(env, bufs, a) == AfterFrag(bufs, a.key.0, FragFor(env, a.key, a.idx))
    ensures Delivers(env, bufs, a) ==
            (match Delivery(env.c, env.sessions[a.key.0].verifyKey, bufs, a.key.0, FragFor(env, a.key, a.idx))
             case None => None
             case Some(m) => Some((a.key.0, m)))
  {
    var out := env.log[a.key];
    var s := env.sessions[a.key.0];
    MessagePacketReads(env.c, out.senderId, s.sessionKey, a.nonce, FragFor(env, a.key, a.idx));
  }

  // ---------------------------------------------------------------- the invariant

  function Text(env: Env, key: MsgKey): (t: Bytes)
    requires Honest(env) && key in env.log
    ensures |t| == SIG_SIZE + |env.log[key].message|
  {
    SignedText(env.c, env.log[key].signKey, env.log[key].message)
  }

  /** Buffered indices lie below frag_total, hold the sender's chunks, and never are all of them. */
  ghost predicate BufferHonest(env: Env, key: MsgKey, buf: Buffer)
    requires Honest(env) && key in env.log
  {
    && |buf| < Total(env, key)
    && forall i :: i in buf ==> i < Total(env, key) && buf[i] == Chunk(Text(env, key), i)
  }

  ghost predicate BuffersHonest(env: Env, bufs: Buffers)
    requires Honest(env)
  {
    forall key :: key in bufs ==> key in env.log && BufferHonest(env, key, bufs[key])
  }

  predicate Buffered(bufs: Buffers, key: MsgKey, i: nat) {
    key in bufs && i in bufs[key]
  }

  /** All other fragments of the message are there. */
  ghost predicate LastMissing(env: Env, bufs: Buffers, key: MsgKey, idx: nat)
    requires key in env.log
  {
    forall i :: 0 <= i < Total(env, key) && i != idx ==> Buffered(bufs, key, i)
  }

  lemma JoinableWhenLast(env: Env, bufs: Buffers, key: MsgKey, idx: nat)
    requires Honest(env) && key in env.log && idx < Total(env, key)
    ensures Joinable(BufferWith(bufs, key, FragFor(env, key, idx)), Total(env, key))
            <==> LastMissing(env, bufs, key, idx)
  {
    var n := Total(env, key);
    var buf := BufferWith(bufs, key, FragFor(env, key, idx));
    if Joinable(buf, n) {
      forall i | 0 <= i < n && i != idx ensures Buffered(bufs, key, i) {
        assert i in buf;
      }
    }
    if LastMissing(env, bufs, key, idx) {
      forall i | 0 <= i < n ensures i in buf {
        assert i != idx ==> Buffered(bufs, key, i);
      }
    }
  }

  /** The pigeonhole step: frag_total stored entries are exactly the indices 0 to frag_total - 1. */
  lemma BufferFills(env: Env, bufs: Buffers, key: MsgKey, idx: nat)
    requires Honest(env) && BuffersHonest(env, bufs) && key in env.log && idx < Total(env, key)
    ensures var buf := BufferWith(bufs, key, FragFor(env, key, idx));
            && (forall i :: i in buf ==> i < Total(env, key) && buf[i] == Chunk(Text(env, key), i))
            && |buf| <= Total(env, key)
            && (|buf| == Total(env, key) <==> Joinable(buf, Total(env, key)))
  {
    var buf := BufferWith(bufs, key, FragFor(env, key, idx));
    assert key in bufs ==> BufferHonest(env, key, bufs[key]);
    FullRange(buf.Keys, Total(env, key));
    assert |buf| == |buf.Keys|;
    if Joinable(buf, Total(env, key)) {
      RangeFits(buf.Keys, Total(env, key));
    }
  }

  lemma {:induction false} RangeFits(s: set<nat>, n: nat)
    requires forall i :: 0 <= i < n ==> i in s
    ensures n <= |s|
  {
    if n > 0 {
      RangeFits(s - {n - 1}, n - 1);
    }
  }

  lemma CompletesWhenLast(env: Env, bufs: Buffers, key: MsgKey, idx: nat)
    requires Honest(env) && BuffersHonest(env, bufs) && key in env.log && idx < Total(env, key)
    ensures Completes(bufs, key.0, FragFor(env, key, idx)) <==> !Refused(bufs, key) && LastMissing(env, bufs, key, idx)
    ensures !Refused(bufs, key) && !LastMissing(env, bufs, key, idx) ==>
              BufferHonest(env, key, BufferWith(bufs, key, FragFor(env, key, idx)))
  {
    assert (key.0, FragFor(env, key, idx).msgId) == key;
    BufferFills(env, bufs, key, idx);
    JoinableWhenLast(env, bufs, key, idx);
  }

  lemma FragmentKeepsBuffers(env: Env, bufs: Buffers, key: MsgKey, idx: nat)
    requires Honest(env) && BuffersHonest(env, bufs) && key in env.log && idx < Total(env, key)
    ensures BuffersHonest(env, AfterFrag(bufs, key.0, FragFor(env, key, idx)))
  {
    assert (key.0, FragFor(env, key, idx).msgId) == key;
    CompletesWhenLast(env, bufs, key, idx);
  }

  /** A fragment completes its message exactly when it is the last one missing and a buffer is to be
      had; the message delivered is then the one sent.  KeyError cannot occur. */
  lemma FragmentDelivers(env: Env, bufs: Buffers, key: MsgKey, idx: nat)
    requires Honest(env) && BuffersHonest(env, bufs) && key in env.log && idx < Total(env, key)
    requires key.0 in env.sessions
    ensures Delivery(env.c, env.sessions[key.0].verifyKey, bufs, key.0, FragFor(env, key, idx)) ==
            if !Refused(bufs, key) && LastMissing(env, bufs, key, idx) then Some(env.log[key].message) else None
  {
    var f := FragFor(env, key, idx);
    assert (key.0, f.msgId) == key;
    CompletesWhenLast(env, bufs, key, idx);
    if Completes(bufs, key.0, f) {
      BufferFills(env, bufs, key, idx);
      ChunksJoin(Text(env, key), BufferWith(bufs, key, f));
      OpensSigned(env, key);
    }
  }

  lemma OpensSigned(env: Env, key: MsgKey)
    requires Honest(env) && key in env.log && key.0 in env.sessions
    ensures Opened(env.c, env.sessions[key.0].verifyKey, Text(env, key)) == Some(env.log[key].message)
  {
    var out := env.log[key];
    var t := Text(env, key);
    assert t[SIG_SIZE..] == out.message && t[..SIG_SIZE] == env.c.sign(out.signKey, out.message);
  }

  lemma {:induction false} RunHonest(env: Env, run: seq<Arrival>)
    requires Honest(env) && AllGenuine(env, run)
    ensures BuffersHonest(env, Run(env, run))
  {
    if run != [] {
      var init, a := run[..|run| - 1], run[|run| - 1];
      assert a in run;
      RunHonest(env, init);
      DatagramIsFragment(env, Run(env, init), a);
      FragmentKeepsBuffers(env, Run(env, init), a.key, a.idx);
    }
  }

  /** Integrity: after any run, whatever the next datagram delivers is the message sent by that peer
      under that message id, and it delivers exactly when it is the last fragment missing. */
  lemma EveryDeliveryWasSent(env: Env, run: seq<Arrival>, a: Arrival)
    requires Honest(env) && AllGenuine(env, run) && Genuine(env, a)
    ensures var bufs := Run(env, run);
            Delivers(env, bufs, a) ==
            if !Refused(bufs, a.key) && LastMissing(env, bufs, a.key, a.idx)
            then Some((a.key.0, env.log[a.key].message)) else None
  {
    RunHonest(env, run);
    DatagramIsFragment(env, Run(env, run), a);
    FragmentDelivers(env, Run(env, run), a.key, a.idx);
  }

  // ---------------------------------------------------------------- counting

  function Deliveries(env: Env, run: seq<Arrival>, key: MsgKey): nat
    requires Honest(env) && AllGenuine(env, run)
  {
    if run == [] then 0
    else
      var init, a := run[..|run| - 1], run[|run| - 1];
      assert a in run;
      Deliveries(env, init, key) + (if a.key == key && Delivers(env, Run(env, init), a).Some? then 1 else 0)
  }

  function Arrivals(run: seq<Arrival>, key: MsgKey, i: nat): nat {
    if run == [] then 0
    else
      var a := run[|run| - 1];
      Arrivals(run[..|run| - 1], key, i) + (if a.key == key && a.idx == i then 1 else 0)
  }

  /** A message is delivered no more often than any one of its fragments arrived. */
  lemma {:induction false} DeliveriesBounded(env: Env, run: seq<Arrival>, key: MsgKey, i: nat)
    requires Honest(env) && AllGenuine(env, run) && key in env.log && i < Total(env, key)
    ensures Deliveries(env, run, key) + (if Buffered(Run(env, run), key, i) then 1 else 0) <= Arrivals(run, key, i)
  {
    if run != [] {
      var init, a := run[..|run| - 1], run[|run| - 1];
      assert a in run;
      DeliveriesBounded(env, init, key, i);
      RunHonest(env, init);
      BufferStep(env, Run(env, init), a, key, i);
    }
  }

  /** One arrival buffers i only by being i, and delivers only what had all other fragments buffered. */
  lemma BufferStep(env: Env, bufs: Buffers, a: Arrival, key: MsgKey, i: nat)
    requires Honest(env) && BuffersHonest(env, bufs) && Genuine(env, a) && key in env.log && i < Total(env, key)
    ensures Buffered(After(env, bufs, a), key, i) ==> Buffered(bufs, key, i) || (a.key == key && a.idx == i)
    ensures a.key == key && Delivers(env, bufs, a).Some? ==>
              !Buffered(After(env, bufs, a), key, i) && (a.idx == i || Buffered(bufs, key, i))
  {
    DatagramIsFragment(env, bufs, a);
    FragmentDelivers(env, bufs, a.key, a.idx);
    CompletesWhenLast(env, bufs, a.key, a.idx);
  }

  // ---------------------------------------------------------------- nothing arriving is wasted

  /** No fragment of the message was turned away for want of a reassembly buffer. */
  ghost predicate NeverRefused(env: Env, run: seq<Arrival>, key: MsgKey)
    requires Honest(env) && AllGenuine(env, run)
  {
    run != [] ==>
      var init, a := run[..|run| - 1], run[|run| - 1];
      assert a in run;
      NeverRefused(env, init, key) && (a.key == key ==> !Refused(Run(env, init), key))
  }

  lemma KeepsStep(env: Env, bufs: Buffers, a: Arrival, key: MsgKey, i: nat)
    requires Honest(env) && BuffersHonest(env, bufs) && Genuine(env, a) && key in env.log && i < Total(env, key)
    requires a.key == key ==> !Refused(bufs, key) && Delivers(env, bufs, a).None?
    requires Buffered(bufs, key, i) || (a.key == key && a.idx == i)
    ensures Buffered(After(env, bufs, a), key, i)
  {
    DatagramIsFragment(env, bufs, a);
    FragmentDelivers(env, bufs, a.key, a.idx);
    CompletesWhenLast(env, bufs, a.key, a.idx);
  }

  lemma {:induction false} UndeliveredIsBuffered(env: Env, run: seq<Arrival>, key: MsgKey, i: nat)
    requires Honest(env) && AllGenuine(env, run) && key in env.log && i < Total(env, key)
    requires NeverRefused(env, run, key) && Deliveries(env, run, key) == 0 && Arrivals(run, key, i) > 0
    ensures Buffered(Run(env, run), key, i)
  {
    var init, a := run[..|run| - 1], run[|run| - 1];
    assert a in run;
    RunHonest(env, init);
    if Arrivals(init, key, i) > 0 {
      UndeliveredIsBuffered(env, init, key, i);
    }
    KeepsStep(env, Run(env, init), a, key, i);
  }

  /** A message every fragment of which arrived, in any order and never refused, was delivered. */
  lemma CompleteArrivalDelivers(env: Env, run: seq<Arrival>, key: MsgKey)
    requires Honest(env) && AllGenuine(env, run) && key in env.log && NeverRefused(env, run, key)
    requires forall i :: 0 <= i < Total(env, key) ==> Arrivals(run, key, i) > 0
    ensures Deliveries(env, run, key) >= 1
  {
    if Deliveries(env, run, key) == 0 {
      var bufs := Run(env, run);
      RunHonest(env, run);
      forall i | 0 <= i < Total(env, key) ensures Buffered(bufs, key, i) {
        UndeliveredIsBuffered(env, run, key, i);
      }
      assert Buffered(bufs, key, 0);
      assert |bufs[key]| == |bufs[key].Keys|;
      forall i | 0 <= i < Total(env, key) ensures i in bufs[key].Keys {
        assert Buffered(bufs, key, i);
      }
      RangeFits(bufs[key].Keys, Total(env, key));
    }
  }

  /** What Send emits under a key the receiver shares is what the runs above are made of. */
  lemma SentDatagramIsPacketFor(env: Env, a: Arrival, s: SessionInfo, nonces: nat -> Bytes)
    requires Honest(env) && Genuine(env, a) && nonces(a.idx) == a.nonce
    requires s.sessionKey == env.sessions[a.key.0].sessionKey
    ensures var out := env.log[a.key];
            DatagramOf(env.c, out.senderId, out.signKey, s, a.key.1, out.message, nonces, a.idx).packet
            == PacketFor(env, a)
  {
  }

  /** The ACK for a delivered message carries the id its sender knows it by. */
  lemma AckNamesItsMessage(env: Env, a: Arrival, receiverId: Bytes, sessions: Sessions, byAddr: ByAddr, addr: Addr)
    requires Honest(env) && Genuine(env, a) && |receiverId| == 32
    requires addr in byAddr ==>
               byAddr[addr] in sessions && sessions[byAddr[addr]].sessionKey == env.sessions[a.key.0].sessionKey
    ensures ParsePacket(PacketFor(env, a)).Ok? && |ParsePacket(PacketFor(env, a)).value.payload| >= 4
    ensures var id := ParsePacket(PacketFor(env, a)).value.payload[..4];
            AckedBy(env.c, sessions, byAddr, AckPacket(env.c, receiverId, env.sessions[a.key.0].sessionKey, id), addr)
            == Some(a.key.1)
  {
    var key := env.sessions[a.key.0].sessionKey;
    MessagePacketReads(env.c, env.log[a.key].senderId, key, a.nonce, FragFor(env, a.key, a.idx));
    var id := ParsePacket(PacketFor(env, a)).value.payload[..4];
    EncodeBE(id);
    AckIsRead(env.c, receiverId, key, a.key.1, sessions, byAddr, addr);
  }
}
