/** At-most-once delivery fails for the messages of one fragment, and for no others: when the
    acknowledgements come too late, the receiver delivers one message as often as it is transmitted
    (mesh/transport.py:715-756, 781-794). */
module Redelivery {
  import opened Bytes
  import opened Primitives
  import opened Reassembly
  import opened RetryRuns
  import opened Transport

  /** Message m fits one fragment, and `nonce` is what its encryption draws. */
  ghost predicate OneFragment(l: Link, m: nat, nonce: Bytes) {
    WellFormed(l) && m >= 1 && Logged(l, m) && Frags(l, m) == 1 && |nonce| == NONCE_SIZE
  }

  function OnlyArrival(l: Link, m: nat, nonce: Bytes): Arrival {
    Arrival(l.addr, (l.peer, m), 0, nonce)
  }

  // ---------------------------------------------------------------- up to the message

  function ZeroNonces(l: Link, m: nat): (nonces: seq<Bytes>)
    requires Logged(l, m)
    ensures FreshNonces(l, m, nonces)
  {
    seq(Frags(l, m), _ => Zeros(NONCE_SIZE))
  }

  /** After these steps the sender has sent the messages before m, and nothing has arrived. */
  ghost predicate SentUpTo(l: Link, steps: seq<Step>, m: nat)
    requires WellFormed(l)
  {
    var s := Runs(l, steps);
    s.nextId == m && s.run == []
  }

  /** What sends message m, or passes over its id. */
  function SendOf(l: Link, m: nat): Step {
    SendNext(if Logged(l, m) then ZeroNonces(l, m) else [], 0.0)
  }

  lemma SentOneMore(l: Link, steps: seq<Step>, m: nat)
    requires WellFormed(l) && m >= 2 && SentUpTo(l, steps, m - 1)
    ensures SentUpTo(l, steps + [SendOf(l, m - 1)], m)
  {
    RunsOneMore(l, steps, SendOf(l, m - 1));
  }

  lemma NoneSent(l: Link)
    requires WellFormed(l)
    ensures SentUpTo(l, [], 1)
  {
  }

  lemma {:induction false} SentBefore(l: Link, m: nat) returns (steps: seq<Step>)
    requires WellFormed(l) && m >= 1
    ensures SentUpTo(l, steps, m)
  {
    if m == 1 {
      NoneSent(l);
      steps := [];
    } else {
      var before := SentBefore(l, m - 1);
      SentOneMore(l, before, m);
      steps := before + [SendOf(l, m - 1)];
    }
  }

  // ---------------------------------------------------------------- the message

  /** The message was transmitted `sent` times, of which `delivered` copies arrived and were delivered,
      and the entry is still in flight until `retryAt`. */
  ghost predicate At(l: Link, s: Sys, m: nat, nonce: Bytes, sent: nat, delivered: nat, retryAt: real)
    requires OneFragment(l, m, nonce)
  {
    && AllGenuine(l.env, s.run) && Run(l.env, s.run) == map[]
    && Deliveries(l.env, s.run, (l.peer, m)) == delivered
    && (m, 0) in s.nonces && s.nonces[(m, 0)] == nonce
    && s.net[(m, 0)] + delivered == sent
    && m in s.table && s.table[m].attempt == sent && s.table[m].nextRetryAt == retryAt
  }

  lemma EmptyBuffersDeliver(l: Link, m: nat, nonce: Bytes)
    requires OneFragment(l, m, nonce)
    ensures var a := OnlyArrival(l, m, nonce);
            Genuine(l.env, a) && After(l.env, map[], a) == map[] && Delivers(l.env, map[], a).Some?
  {
    var a, key := OnlyArrival(l, m, nonce), (l.peer, m);
    DatagramIsFragment(l.env, map[], a);
    FragmentDelivers(l.env, map[], key, 0);
    CompletesWhenLast(l.env, map[], key, 0);
  }

  lemma ArrivalDelivers(l: Link, m: nat, run: seq<Arrival>, nonce: Bytes)
    requires OneFragment(l, m, nonce) && AllGenuine(l.env, run) && Run(l.env, run) == map[]
    ensures var a := OnlyArrival(l, m, nonce); var run' := run + [a]; var key := (l.peer, m);
            && Genuine(l.env, a) && AllGenuine(l.env, run')
            && Run(l.env, run') == map[] && Deliveries(l.env, run', key) == Deliveries(l.env, run, key) + 1
  {
    EmptyBuffersDeliver(l, m, nonce);
    assert (run + [OnlyArrival(l, m, nonce)])[..|run|] == run;
  }

  lemma Sent(l: Link, s: Sys, m: nat, nonce: Bytes)
    requires OneFragment(l, m, nonce) && AllGenuine(l.env, s.run) && Inv(l, s) && s.nextId == m && s.run == []
    ensures At(l, Next(l, s, SendNext([nonce], 0.0)), m, nonce, 1, 0, 0.5)
  {
    assert (m, 0) in NoncesOf(m, [nonce]);
    NothingSpentYet(l, s, 0);
    assert CountOk(l, s, m, 0);
  }

  lemma DeliverTakes(l: Link, s: Sys, m: nat, nonce: Bytes)
    requires OneFragment(l, m, nonce) && AllGenuine(l.env, s.run) && Genuine(l.env, OnlyArrival(l, m, nonce))
    requires (m, 0) in s.nonces && s.nonces[(m, 0)] == nonce && s.net[(m, 0)] > 0
    ensures var s' := Next(l, s, Deliver(m, 0));
            && s'.run == s.run + [OnlyArrival(l, m, nonce)] && s'.net == s.net - multiset{(m, 0)}
            && s'.nonces == s.nonces && s'.table == s.table
  {
    assert CopyOf(l, s.nonces, m, 0) == OnlyArrival(l, m, nonce);
  }

  lemma Delivered(l: Link, s: Sys, m: nat, nonce: Bytes, sent: nat, delivered: nat, retryAt: real)
    requires OneFragment(l, m, nonce) && delivered < sent && At(l, s, m, nonce, sent, delivered, retryAt)
    ensures At(l, Next(l, s, Deliver(m, 0)), m, nonce, sent, delivered + 1, retryAt)
  {
    ArrivalDelivers(l, m, s.run, nonce);
    DeliverTakes(l, s, m, nonce);
  }

  lemma SentAgain(l: Link, s: Sys, m: nat, nonce: Bytes, sent: nat, delivered: nat, retryAt: real)
    requires OneFragment(l, m, nonce) && 1 <= sent < MAX_RETRIES && At(l, s, m, nonce, sent, delivered, retryAt)
    ensures At(l, Next(l, s, Sweep(retryAt)), m, nonce, sent + 1, delivered, retryAt + RETRY_BACKOFFS[sent])
  {
    ResentAt(l, s.table, retryAt, m);
  }

  /** After one more expiry the message is transmitted and delivered once more. */
  lemma OnceMore(l: Link, s: Sys, m: nat, nonce: Bytes, n: nat, retryAt: real)
    requires OneFragment(l, m, nonce) && 1 <= n < MAX_RETRIES && At(l, s, m, nonce, n, n, retryAt)
    ensures At(l, Next(l, Next(l, s, Sweep(retryAt)), Deliver(m, 0)), m, nonce, n + 1, n + 1,
               retryAt + RETRY_BACKOFFS[n])
  {
    SentAgain(l, s, m, nonce, n, n, retryAt);
    Delivered(l, Next(l, s, Sweep(retryAt)), m, nonce, n + 1, n, retryAt + RETRY_BACKOFFS[n]);
  }

  lemma RunsTwoMore(l: Link, steps: seq<Step>, one: Step, two: Step)
    requires WellFormed(l)
    ensures Runs(l, steps + [one] + [two]) == Next(l, Next(l, Runs(l, steps), one), two)
  {
    RunsOneMore(l, steps, one);
    RunsOneMore(l, steps + [one], two);
  }

  lemma FirstDelivery(l: Link, m: nat, nonce: Bytes) returns (steps: seq<Step>)
    requires OneFragment(l, m, nonce)
    ensures At(l, Runs(l, steps), m, nonce, 1, 1, 0.5)
  {
    steps := SentBefore(l, m);
    RunsKeep(l, steps);
    var s := Runs(l, steps);
    RunsTwoMore(l, steps, SendNext([nonce], 0.0), Deliver(m, 0));
    Sent(l, s, m, nonce);
    Delivered(l, Next(l, s, SendNext([nonce], 0.0)), m, nonce, 1, 0, 0.5);
    steps := steps + [SendNext([nonce], 0.0)] + [Deliver(m, 0)];
  }

  lemma NextDelivery(l: Link, m: nat, nonce: Bytes, before: seq<Step>, n: nat, retryAt: real) returns (steps: seq<Step>)
    requires OneFragment(l, m, nonce) && 1 <= n < MAX_RETRIES && At(l, Runs(l, before), m, nonce, n, n, retryAt)
    ensures At(l, Runs(l, steps), m, nonce, n + 1, n + 1, retryAt + RETRY_BACKOFFS[n])
  {
    RunsTwoMore(l, before, Sweep(retryAt), Deliver(m, 0));
    OnceMore(l, Runs(l, before), m, nonce, n, retryAt);
    steps := before + [Sweep(retryAt)] + [Deliver(m, 0)];
  }

  /** For every message of one fragment there is a run that delivers it MAX_RETRIES times. */
  lemma SingleFragmentDeliveredThreeTimes(l: Link, m: nat, nonce: Bytes) returns (steps: seq<Step>)
    requires OneFragment(l, m, nonce)
    ensures Deliveries(l.env, Runs(l, steps).run, (l.peer, m)) == MAX_RETRIES
  {
    steps := FirstDelivery(l, m, nonce);
    steps := NextDelivery(l, m, nonce, steps, 1, 0.5);
    steps := NextDelivery(l, m, nonce, steps, 2, 1.5);
  }

  // ---------------------------------------------------------------- exactly when

  ghost predicate DeliveredTwice(l: Link, steps: seq<Step>, m: nat)
    requires WellFormed(l)
  {
    Deliveries(l.env, Runs(l, steps).run, (l.peer, m)) >= 2
  }

  /** A message can be delivered more than once if and only if it has one fragment. */
  lemma RedeliveryExactly(l: Link, m: nat)
    requires WellFormed(l) && m >= 1 && Logged(l, m)
    ensures (exists steps :: DeliveredTwice(l, steps, m)) <==> Frags(l, m) == 1
  {
    if Frags(l, m) == 1 {
      var steps := SingleFragmentDeliveredThreeTimes(l, m, Zeros(NONCE_SIZE));
      assert DeliveredTwice(l, steps, m);
    }
    if steps :| DeliveredTwice(l, steps, m) {
      DeliveryBound(l, Runs(l, steps), m);
    }
  }
}
