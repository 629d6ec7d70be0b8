/** Whole runs of enqueue, flush and purge on one queue, under a clock that never goes back. */
module QueueRuns {
  import opened ForwardQueue
  import opened QueueTable
  import opened RowTable
  import opened Wrappers

  /** `handed` and `purged` are history: the rows given to the transport, and those deleted as expired. */
  datatype World = World(rows: Rows, nextId: nat, clock: real, enqueued: Rows, handed: Rows, purged: Rows)

  datatype Step =
    | EnqueueAt(peerId: PeerId, payload: Payload, checkedAt: real, now: real)
    | FlushAt(peerId: PeerId, now: real, outcome: seq<bool>)
    | PurgeAt(now: real)

  function OutcomeOf(outcome: seq<bool>): nat -> bool {
    (k: nat) => k < |outcome| && outcome[k]
  }

  function Enqueued(w: World, peer: PeerId, payload: Payload, now: real): World {
    var r := Row(w.nextId, peer, payload, now, now + TTL_SECONDS, 0);
    w.(rows := w.rows + [r], nextId := w.nextId + 1, clock := now, enqueued := w.enqueued + [r])
  }

  /** Steps that would turn the clock back do not happen. */
  function Next(w: World, step: Step): World {
    match step
    case EnqueueAt(peerId, payload, checkedAt, now) =>
      var peer := Normalize(peerId);
      if !(w.clock <= checkedAt <= now) then w
      else if |LiveRows(w.rows, peer, checkedAt)| >= MAX_QUEUE_PER_PEER then w.(clock := now)
      else
        Enqueued(w, peer, payload, now)
    case FlushAt(peerId, now, outcome) =>
      if now < w.clock then w
      else
        var pending := Pending(w.rows, Normalize(peerId), now);
        w.(rows := Flushed(w.rows, pending, OutcomeOf(outcome)),
           handed := w.handed + Handed(pending, OutcomeOf(outcome)), clock := now)
    case PurgeAt(now) =>
      if now < w.clock then w
      else w.(rows := Unexpired(w.rows, now), purged := w.purged + Expired(w.rows, now), clock := now)
  }

  function Run(start: real, steps: seq<Step>): World {
    if steps == [] then World([], 1, start, [], [], []) else Next(Run(start, steps[..|steps| - 1]), steps[|steps| - 1])
  }

  // ---------------------------------------------------------------- the invariant

  /** r is the row enqueued under its id, but for its attempt counter. */
  ghost predicate Matches(enqueued: Rows, r: Row) {
    1 <= r.id <= |enqueued| && r == enqueued[r.id - 1].(attempt := r.attempt)
  }

  ghost predicate AllMatch(enqueued: Rows, rows: Rows) {
    forall r :: r in rows ==> Matches(enqueued, r)
  }

  ghost predicate Conserved(w: World, id: nat) {
    && Count(w.enqueued, id) == (if 1 <= id < w.nextId then 1 else 0)
    && Count(w.rows, id) + Count(w.handed, id) + Count(w.purged, id) == Count(w.enqueued, id)
  }

  ghost predicate Bounded(w: World, peer: PeerId) {
    |LiveRows(w.rows, peer, w.clock)| <= MAX_QUEUE_PER_PEER
  }

  ghost predicate Inv(w: World) {
    && Ordered(w.rows)
    && w.nextId == |w.enqueued| + 1
    && (forall r :: r in w.enqueued ==> r.id < w.nextId && r.queuedAt <= w.clock)
    && AllMatch(w.enqueued, w.rows) && AllMatch(w.enqueued, w.handed) && AllMatch(w.enqueued, w.purged)
    && (forall r :: r in w.purged ==> r.queuedAt + TTL_SECONDS <= w.clock)
    && (forall id :: Conserved(w, id))
    && (forall peer :: Bounded(w, peer))
    && (forall i :: 0 <= i < |w.enqueued| ==> w.enqueued[i].id == i + 1)
  }

  // ---------------------------------------------------------------- preservation

  lemma LiveShrinks(rows: Rows, peer: PeerId, t: real, later: real)
    requires t <= later
    ensures |LiveRows(rows, peer, later)| <= |LiveRows(rows, peer, t)|
  {
    FilterStronger(rows, LiveFor(peer, t), LiveFor(peer, later));
  }

  /** A purge is invisible to every later query. */
  lemma PurgeIsInvisible(rows: Rows, peer: PeerId, t: real, later: real)
    requires t <= later
    ensures LiveRows(Unexpired(rows, t), peer, later) == LiveRows(rows, peer, later)
    ensures Unexpired(Unexpired(rows, t), later) == Unexpired(rows, later)
    ensures Pending(Unexpired(rows, t), peer, later) == Pending(rows, peer, later)
  {
    FilterTwice(rows, Alive(t), LiveFor(peer, later));
    FilterTwice(rows, Alive(t), Alive(later));
  }

  lemma {:induction false} AttemptsKeepLive(rows: Rows, peer: PeerId, now: real, id: nat)
    ensures |LiveRows(Attempted(rows, id), peer, now)| == |LiveRows(rows, peer, now)|
  {
    if rows != [] {
      AttemptsKeepLive(rows[..|rows| - 1], peer, now, id);
      assert Attempted(rows, id)[..|Attempted(rows, id)| - 1] == Attempted(rows[..|rows| - 1], id);
    }
  }

  lemma {:induction false} FlushCounts(rows: Rows, pending: Rows, outcome: nat -> bool, peer: PeerId, now: real)
    ensures |LiveRows(Flushed(rows, pending, outcome), peer, now)| <= |LiveRows(rows, peer, now)|
  {
    if pending != [] {
      var k := |pending| - 1;
      FlushCounts(rows, pending[..k], outcome, peer, now);
      FilterFewer(Flushed(rows, pending[..k], outcome), Unlike(pending[k].id), LiveFor(peer, now));
      AttemptsKeepLive(Flushed(rows, pending[..k], outcome), peer, now, pending[k].id);
    }
  }

  lemma DeletionMatches(enqueued: Rows, rows: Rows, id: nat)
    requires AllMatch(enqueued, rows)
    ensures AllMatch(enqueued, Without(rows, id))
  {
    FilterMembers(rows, Unlike(id));
  }

  lemma AttemptMatches(enqueued: Rows, rows: Rows, id: nat)
    requires AllMatch(enqueued, rows)
    ensures AllMatch(enqueued, Attempted(rows, id))
  {
    var l := Attempted(rows, id);
    AttemptedAt(rows, id);
    forall r | r in l ensures Matches(enqueued, r) {
      var i :| 0 <= i < |l| && l[i] == r;
      assert rows[i] in rows;
    }
  }

  lemma {:induction false} FlushMatches(enqueued: Rows, rows: Rows, pending: Rows, outcome: nat -> bool)
    requires AllMatch(enqueued, rows)
    ensures AllMatch(enqueued, Flushed(rows, pending, outcome))
  {
    if pending != [] {
      var k := |pending| - 1;
      FlushMatches(enqueued, rows, pending[..k], outcome);
      DeletionMatches(enqueued, Flushed(rows, pending[..k], outcome), pending[k].id);
      AttemptMatches(enqueued, Flushed(rows, pending[..k], outcome), pending[k].id);
    }
  }

  lemma EnqueueConserves(w: World, peer: PeerId, payload: Payload, now: real, id: nat)
    requires w.nextId >= 1 && Conserved(w, id)
    ensures Conserved(Enqueued(w, peer, payload, now), id)
  {
    var r := Row(w.nextId, peer, payload, now, now + TTL_SECONDS, 0);
    CountAppend(w.rows, [r], id);
    CountAppend(w.enqueued, [r], id);
  }

  lemma EnqueueOrders(w: World, r: Row)
    requires Ordered(w.rows) && AllMatch(w.enqueued, w.rows)
    requires forall x :: x in w.enqueued ==> x.id < r.id && x.queuedAt <= r.queuedAt
    requires r.expiresAt == r.queuedAt + TTL_SECONDS
    ensures Ordered(w.rows + [r])
  {
    assert (w.rows + [r])[..|w.rows|] == w.rows;
    forall x | x in w.rows ensures x.id < r.id && x.queuedAt <= r.queuedAt {
      assert Matches(w.enqueued, x) && w.enqueued[x.id - 1] in w.enqueued;
    }
  }

  lemma EnqueueRecords(w: World, r: Row)
    requires w.nextId == |w.enqueued| + 1 && r.id == w.nextId
    requires AllMatch(w.enqueued, w.rows) && AllMatch(w.enqueued, w.handed) && AllMatch(w.enqueued, w.purged)
    requires forall i :: 0 <= i < |w.enqueued| ==> w.enqueued[i].id == i + 1
    ensures var all := w.enqueued + [r];
            && AllMatch(all, w.rows + [r]) && AllMatch(all, w.handed) && AllMatch(all, w.purged)
            && forall i :: 0 <= i < |all| ==> all[i].id == i + 1
  {
    MatchesGrows(w.enqueued, r);
    assert Matches(w.enqueued + [r], r);
  }

  lemma EnqueueBounds(w: World, peer: PeerId, payload: Payload, checkedAt: real, now: real, p: PeerId)
    requires Bounded(w, p) && w.clock <= checkedAt <= now && |LiveRows(w.rows, peer, checkedAt)| < MAX_QUEUE_PER_PEER
    ensures Bounded(Enqueued(w, peer, payload, now), p)
  {
    var r := Row(w.nextId, peer, payload, now, now + TTL_SECONDS, 0);
    LiveShrinks(w.rows, p, w.clock, now);
    LiveShrinks(w.rows, p, checkedAt, now);
    FilterLast(w.rows + [r], LiveFor(p, now));
    assert (w.rows + [r])[..|w.rows|] == w.rows;
  }

  lemma EnqueueKeeps(w: World, peer: PeerId, payload: Payload, checkedAt: real, now: real)
    requires Inv(w) && w.clock <= checkedAt <= now && |LiveRows(w.rows, peer, checkedAt)| < MAX_QUEUE_PER_PEER
    ensures Inv(Enqueued(w, peer, payload, now))
  {
    var r := Row(w.nextId, peer, payload, now, now + TTL_SECONDS, 0);
    var w' := Enqueued(w, peer, payload, now);
    EnqueueOrders(w, r);
    EnqueueRecords(w, r);
    forall id ensures Conserved(w', id) {
      assert Conserved(w, id);
      EnqueueConserves(w, peer, payload, now, id);
    }
    forall p ensures Bounded(w', p) {
      assert Bounded(w, p);
      EnqueueBounds(w, peer, payload, checkedAt, now, p);
    }
  }

  lemma MatchesGrows(enqueued: Rows, r: Row)
    ensures forall x :: Matches(enqueued, x) ==> Matches(enqueued + [r], x)
  {
  }

  lemma FlushKeeps(w: World, peerId: PeerId, now: real, outcome: seq<bool>)
    requires Inv(w) && w.clock <= now
    ensures Inv(Next(w, FlushAt(peerId, now, outcome)))
  {
    var o, peer := OutcomeOf(outcome), Normalize(peerId);
    var pending := Pending(w.rows, peer, now);
    var w' := Next(w, FlushAt(peerId, now, outcome));
    PendingIsLive(w.rows, peer, now);
    FlushedOrdered(w.rows, pending, o);
    FlushMatches(w.enqueued, w.rows, pending, o);
    HandedMembers(pending, o);
    forall id ensures Conserved(w', id) {
      assert Conserved(w, id);
      FlushSplits(w.rows, peer, now, o, id);
      CountAppend(w.handed, Handed(pending, o), id);
    }
    forall p ensures Bounded(w', p) {
      assert Bounded(w, p);
      LiveShrinks(w.rows, p, w.clock, now);
      FlushCounts(w.rows, pending, o, p, now);
    }
  }

  lemma ExpiredMembers(rows: Rows, now: real)
    requires Ordered(rows)
    ensures forall r :: r in Expired(rows, now) ==> r in rows && r.queuedAt + TTL_SECONDS <= now
  {
    FilterMembers(rows, Dead(now));
    forall r | r in Expired(rows, now) ensures r in rows && r.queuedAt + TTL_SECONDS <= now {
      var i: nat :| i < |rows| && rows[i] == r;
      OrderedLifetime(rows, i);
    }
  }

  lemma PurgeConserves(w: World, now: real, id: nat)
    requires Ordered(w.rows) && w.clock <= now && Conserved(w, id)
    ensures Conserved(Next(w, PurgeAt(now)), id)
  {
    PurgeSplits(w.rows, now, id);
    CountAppend(w.purged, Expired(w.rows, now), id);
  }

  lemma PurgeKeeps(w: World, now: real)
    requires Inv(w) && w.clock <= now
    ensures Inv(Next(w, PurgeAt(now)))
  {
    var w' := Next(w, PurgeAt(now));
    FilterOrdered(w.rows, Alive(now));
    FilterMembers(w.rows, Alive(now));
    ExpiredMembers(w.rows, now);
    forall id ensures Conserved(w', id) {
      PurgeConserves(w, now, id);
    }
    forall p ensures Bounded(w', p) {
      assert Bounded(w, p);
      LiveShrinks(w.rows, p, w.clock, now);
      PurgeIsInvisible(w.rows, p, now, now);
    }
  }

  lemma ClockKeeps(w: World, now: real)
    requires Inv(w) && w.clock <= now
    ensures Inv(w.(clock := now))
  {
    var w' := w.(clock := now);
    forall id ensures Conserved(w', id) {
      assert Conserved(w, id);
    }
    forall p ensures Bounded(w', p) {
      assert Bounded(w, p);
      LiveShrinks(w.rows, p, w.clock, now);
    }
  }

  lemma EnqueueStepKeeps(w: World, peerId: PeerId, payload: Payload, checkedAt: real, now: real)
    requires Inv(w) && w.clock <= checkedAt <= now
    ensures Inv(Next(w, EnqueueAt(peerId, payload, checkedAt, now)))
  {
    if |LiveRows(w.rows, Normalize(peerId), checkedAt)| < MAX_QUEUE_PER_PEER {
      EnqueueKeeps(w, Normalize(peerId), payload, checkedAt, now);
    } else {
      ClockKeeps(w, now);
    }
  }

  lemma StepKeeps(w: World, step: Step)
    requires Inv(w)
    ensures Inv(Next(w, step))
  {
    match step
    case EnqueueAt(peerId, payload, checkedAt, now) =>
      if w.clock <= checkedAt <= now { EnqueueStepKeeps(w, peerId, payload, checkedAt, now); }
    case FlushAt(peerId, now, outcome) => if w.clock <= now { FlushKeeps(w, peerId, now, outcome); }
    case PurgeAt(now) => if w.clock <= now { PurgeKeeps(w, now); }
  }

  lemma StartKeeps(start: real)
    ensures Inv(World([], 1, start, [], [], []))
  {
    var w := World([], 1, start, [], [], []);
    assert forall id :: Conserved(w, id);
    assert forall peer :: Bounded(w, peer);
  }

  lemma {:induction false} RunKeeps(start: real, steps: seq<Step>)
    ensures Inv(Run(start, steps))
  {
    if steps == [] {
      StartKeeps(start);
    } else {
      RunKeeps(start, steps[..|steps| - 1]);
      StepKeeps(Run(start, steps[..|steps| - 1]), steps[|steps| - 1]);
    }
  }

  // ---------------------------------------------------------------- what holds in every run

  ghost predicate Reachable(w: World) {
    exists start, steps :: w == Run(start, steps)
  }

  lemma ReachableInv(w: World)
    requires Reachable(w)
    ensures Inv(w)
  {
    var start, steps :| w == Run(start, steps);
    RunKeeps(start, steps);
  }

  /** r is where message id is, and is that message. */
  ghost predicate IsMessage(w: World, id: nat, r: Row) {
    1 <= id <= |w.enqueued| && r == w.enqueued[id - 1].(attempt := r.attempt)
  }

  lemma RowIsMessage(w: World, id: nat, r: Row)
    requires AllMatch(w.enqueued, w.rows) && AllMatch(w.enqueued, w.handed) && AllMatch(w.enqueued, w.purged)
    requires (r in w.rows || r in w.handed || r in w.purged) && r.id == id
    ensures IsMessage(w, id, r)
  {
    assert Matches(w.enqueued, r);
  }

  /** Conservation: each enqueued message is, once and only once, still stored, handed to the transport,
      or purged after its time to live; wherever it is, it is the message that was enqueued. */
  lemma EachMessageOnce(w: World, id: nat)
    requires Reachable(w) && 1 <= id < w.nextId
    ensures Count(w.rows, id) + Count(w.handed, id) + Count(w.purged, id) == 1
    ensures forall r :: (r in w.rows || r in w.handed || r in w.purged) && r.id == id ==> IsMessage(w, id, r)
    ensures forall r :: r in w.purged && r.id == id ==> r.queuedAt + 86400.0 <= w.clock
  {
    ReachableInv(w);
    assert Conserved(w, id);
    forall r | (r in w.rows || r in w.handed || r in w.purged) && r.id == id ensures IsMessage(w, id, r) {
      RowIsMessage(w, id, r);
    }
  }

  /** An enqueue adds its message exactly if the peer has fewer than 256 live entries. */
  lemma EnqueuedExactly(w: World, peerId: PeerId, payload: Payload, checkedAt: real, now: real)
    requires w.clock <= checkedAt <= now
    ensures var peer := Normalize(peerId); var w' := Next(w, EnqueueAt(peerId, payload, checkedAt, now));
            if |LiveRows(w.rows, peer, checkedAt)| < 256
            then w'.rows == w.rows + [Row(w.nextId, peer, payload, now, now + 86400.0, 0)] && w'.nextId == w.nextId + 1
            else w'.rows == w.rows && w'.nextId == w.nextId
  {
  }

  /** Every peer has at most 256 live entries, now and at any later time. */
  lemma LiveEntriesBounded(w: World, peer: PeerId, now: real)
    requires Reachable(w) && w.clock <= now
    ensures |LiveRows(w.rows, peer, now)| <= 256
  {
    ReachableInv(w);
    assert Bounded(w, peer);
    LiveShrinks(w.rows, peer, w.clock, now);
  }

  /** A stored message is pending for its peer from the moment it was enqueued until 86400 s later. */
  lemma PendingForADay(w: World, r: Row, peer: PeerId, now: real)
    requires Reachable(w) && r in w.rows
    ensures r in Pending(w.rows, peer, now) <==> r.peerId == peer && now < r.queuedAt + 86400.0
  {
    ReachableInv(w);
    PendingIsLive(w.rows, peer, now);
    FilterMembers(w.rows, LiveFor(peer, now));
    RowLivesATtl(w.rows, r);
  }

  /** The live entries are those past some point of the table: what is live stays live further on. */
  lemma LiveIsSuffix(w: World, i: nat, j: nat, now: real)
    requires Reachable(w) && i < j < |w.rows| && Live(w.rows[i], now)
    ensures Live(w.rows[j], now) && w.rows[i].id < w.rows[j].id
  {
    ReachableInv(w);
    OrderedAt(w.rows, i, j);
  }

  /** One flush in any reachable state: it goes over the peer's live messages in id order, hands on a
      subsequence of them in that order, deletes exactly those, adds one attempt to exactly the
      others, and touches nothing else. */
  lemma FlushIsExact(w: World, peer: PeerId, now: real, outcome: nat -> bool)
    requires Reachable(w)
    ensures var rows := w.rows; var pending := Pending(rows, peer, now);
            && pending == LiveRows(rows, peer, now) && Ordered(pending)
            && Ordered(Handed(pending, outcome))
            && (forall r :: r in Handed(pending, outcome) <==>
                              r in pending && Verdict(pending, outcome, r.id) == Some(true))
            && Flushed(rows, pending, outcome) == Resolved(rows, pending, outcome)
            && (forall r :: r in rows && (r.peerId != peer || !Live(r, now)) ==>
                              Verdict(pending, outcome, r.id) == None)
  {
    ReachableInv(w);
    var rows := w.rows;
    var pending := Pending(rows, peer, now);
    PendingIsLive(rows, peer, now);
    HandedInOrder(pending, outcome);
    HandedMembers(pending, outcome);
    FlushedExactly(rows, pending, outcome);
    forall r | r in rows && (r.peerId != peer || !Live(r, now)) ensures Verdict(pending, outcome, r.id) == None {
      forall p | p in pending ensures p.id != r.id {
        IdsDiffer(rows, p, r);
      }
      NoVerdict(pending, outcome, r.id);
    }
  }

  lemma IdsDiffer(rows: Rows, p: Row, r: Row)
    requires Ordered(rows) && p in rows && r in rows && p != r
    ensures p.id != r.id
  {
    var i :| 0 <= i < |rows| && rows[i] == p;
    var j :| 0 <= j < |rows| && rows[j] == r;
    if i < j {
      OrderedAt(rows, i, j);
    } else {
      OrderedAt(rows, j, i);
    }
  }
}
