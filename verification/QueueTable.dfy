/** What one pass over the queue's table does, for a table in insertion order. */
module QueueTable {
  import opened ForwardQueue
  import opened RowTable
  import opened Wrappers

  /** The rows a purge at `now` deletes. */
  function Expired(rows: Rows, now: real): Rows {
    Filter(rows, Dead(now))
  }

  // ---------------------------------------------------------------- the order of the table

  /** Inserted before r: a smaller id, no later time. */
  ghost predicate Below(rows: Rows, r: Row) {
    forall x :: x in rows ==> x.id < r.id && x.queuedAt <= r.queuedAt
  }

  /** Ids rise strictly along the table, times do not fall, and every row lives one TTL. */
  ghost predicate Ordered(rows: Rows) {
    rows != [] ==>
      var init, r := rows[..|rows| - 1], rows[|rows| - 1];
      Ordered(init) && Below(init, r) && r.expiresAt == r.queuedAt + TTL_SECONDS
  }

  lemma {:induction false} RowLivesATtl(rows: Rows, r: Row)
    requires Ordered(rows) && r in rows
    ensures r.expiresAt == r.queuedAt + TTL_SECONDS
  {
    if r != rows[|rows| - 1] {
      RowLivesATtl(rows[..|rows| - 1], r);
    }
  }

  lemma {:induction false} OrderedAt(rows: Rows, i: nat, j: nat)
    requires Ordered(rows) && i < j < |rows|
    ensures rows[i].id < rows[j].id && rows[i].queuedAt <= rows[j].queuedAt && rows[i].expiresAt <= rows[j].expiresAt
  {
    var n := |rows| - 1;
    if j < n {
      OrderedAt(rows[..n], i, j);
    } else {
      assert rows[i] in rows[..n];
      OrderedLifetime(rows, i);
    }
  }

  lemma {:induction false} OrderedLifetime(rows: Rows, i: nat)
    requires Ordered(rows) && i < |rows|
    ensures rows[i].expiresAt == rows[i].queuedAt + TTL_SECONDS
  {
    if i < |rows| - 1 {
      OrderedLifetime(rows[..|rows| - 1], i);
    }
  }

  /** Keeping the last row of an ordered table after some of its other rows, or dropping it. */
  lemma AppendOrdered(init: Rows, l: Rows, r: Row)
    requires Ordered(init + [r]) && Ordered(l) && forall x :: x in l ==> x in init
    ensures Ordered(l + [r]) && Ordered(l + [])
  {
    assert (init + [r])[..|init|] == init;
    assert (l + [r])[..|l|] == l && l + [] == l;
  }

  lemma {:induction false} FilterOrdered(rows: Rows, keep: Row -> bool)
    requires Ordered(rows)
    ensures Ordered(Filter(rows, keep))
  {
    if rows != [] {
      var init, r := rows[..|rows| - 1], rows[|rows| - 1];
      FilterOrdered(init, keep);
      FilterMembers(init, keep);
      FilterLast(rows, keep);
      AppendOrdered(init, Filter(init, keep), r);
    }
  }

  /** b is a, but for the attempt counters. */
  ghost predicate SameButAttempts(a: Rows, b: Rows) {
    |a| == |b| && forall i :: 0 <= i < |a| ==> b[i] == a[i].(attempt := b[i].attempt)
  }

  lemma AttemptedIsSame(rows: Rows, id: nat)
    ensures SameButAttempts(rows, Attempted(rows, id))
  {
    AttemptedAt(rows, id);
  }

  lemma {:induction false} SameIsOrdered(a: Rows, b: Rows)
    requires Ordered(a) && SameButAttempts(a, b)
    ensures Ordered(b)
  {
    if a != [] {
      var n := |a| - 1;
      SameIsOrdered(a[..n], b[..n]);
      forall x | x in b[..n] ensures x.id < b[n].id && x.queuedAt <= b[n].queuedAt {
        var i :| 0 <= i < n && b[..n][i] == x;
        assert a[..n][i] in a[..n];
      }
    }
  }

  lemma AttemptedOrdered(rows: Rows, id: nat)
    requires Ordered(rows)
    ensures Ordered(Attempted(rows, id))
  {
    AttemptedIsSame(rows, id);
    SameIsOrdered(rows, Attempted(rows, id));
  }

  lemma {:induction false} FlushedOrdered(rows: Rows, pending: Rows, outcome: nat -> bool)
    requires Ordered(rows)
    ensures Ordered(Flushed(rows, pending, outcome))
  {
    if pending != [] {
      var k := |pending| - 1;
      FlushedOrdered(rows, pending[..k], outcome);
      FilterOrdered(Flushed(rows, pending[..k], outcome), Unlike(pending[k].id));
      AttemptedOrdered(Flushed(rows, pending[..k], outcome), pending[k].id);
    }
  }

  /** Sorting by time and id leaves an ordered table as it is: pending messages come in FIFO order. */
  lemma {:induction false} SortedIsIdentity(rows: Rows)
    requires Ordered(rows)
    ensures Sorted(rows) == rows
  {
    if rows != [] {
      var n := |rows| - 1;
      SortedIsIdentity(rows[..n]);
      if n > 0 {
        assert rows[..n][n - 1] in rows[..n];
      }
      assert rows[..n] + [rows[n]] == rows;
    }
  }

  lemma PendingIsLive(rows: Rows, peer: PeerId, now: real)
    requires Ordered(rows)
    ensures Pending(rows, peer, now) == LiveRows(rows, peer, now) && Ordered(Pending(rows, peer, now))
    ensures forall r :: r in Pending(rows, peer, now) <==> r in rows && r.peerId == peer && Live(r, now)
  {
    FilterOrdered(rows, LiveFor(peer, now));
    FilterMembers(rows, LiveFor(peer, now));
    SortedIsIdentity(LiveRows(rows, peer, now));
  }

  // ---------------------------------------------------------------- what a flush does

  /** The fate a flush decides for a row id: None if it was not pending. */
  function Verdict(pending: Rows, outcome: nat -> bool, id: nat): Option<bool> {
    if pending == [] then None
    else
      var k := |pending| - 1;
      if pending[k].id == id then Some(outcome(k)) else Verdict(pending[..k], outcome, id)
  }

  function Fate(verdict: Option<bool>, r: Row): Rows {
    match verdict
    case None => [r]
    case Some(ok) => if ok then [] else [r.(attempt := r.attempt + 1)]
  }

  /** Row by row: gone if its send returned, one attempt more if it raised, unchanged if not pending. */
  function Resolved(rows: Rows, pending: Rows, outcome: nat -> bool): Rows {
    if rows == [] then []
    else
      var r := rows[|rows| - 1];
      Resolved(rows[..|rows| - 1], pending, outcome) + Fate(Verdict(pending, outcome, r.id), r)
  }

  lemma {:induction false} NoVerdict(pending: Rows, outcome: nat -> bool, id: nat)
    requires forall x :: x in pending ==> x.id != id
    ensures Verdict(pending, outcome, id) == None
  {
    if pending != [] {
      var k := |pending| - 1;
      assert pending[k] in pending;
      NoVerdict(pending[..k], outcome, id);
    }
  }

  function Settled(rows: Rows, id: nat, ok: bool): Rows {
    if ok then Without(rows, id) else Attempted(rows, id)
  }

  /** Settling one id in a table that ends in the fate of row r. */
  lemma SettleAppend(rows: Rows, r: Row, verdict: Option<bool>, id: nat, ok: bool)
    requires r.id == id ==> verdict == None
    ensures Settled(rows + Fate(verdict, r), id, ok) ==
            Settled(rows, id, ok) + (if r.id == id then Fate(Some(ok), r) else Fate(verdict, r))
  {
    var fate := Fate(verdict, r);
    if fate == [] {
      assert rows + fate == rows;
      assert Settled(rows, id, ok) + [] == Settled(rows, id, ok);
    } else {
      assert fate == [fate[0]] && (rows + fate)[..|rows|] == rows;
    }
  }

  lemma VerdictOneMore(pending: Rows, x: Row, outcome: nat -> bool, id: nat)
    ensures Verdict(pending + [x], outcome, id) ==
            if x.id == id then Some(outcome(|pending|)) else Verdict(pending, outcome, id)
  {
    assert (pending + [x])[..|pending|] == pending;
  }

  lemma {:induction false} ResolveOneMore(rows: Rows, pending: Rows, x: Row, outcome: nat -> bool)
    requires Verdict(pending, outcome, x.id) == None
    ensures Resolved(rows, pending + [x], outcome) ==
            Settled(Resolved(rows, pending, outcome), x.id, outcome(|pending|))
  {
    if rows != [] {
      var init, r := rows[..|rows| - 1], rows[|rows| - 1];
      ResolveOneMore(init, pending, x, outcome);
      VerdictOneMore(pending, x, outcome, r.id);
      SettleAppend(Resolved(init, pending, outcome), r, Verdict(pending, outcome, r.id), x.id, outcome(|pending|));
    }
  }

  lemma {:induction false} NothingPending(rows: Rows, outcome: nat -> bool)
    ensures Resolved(rows, [], outcome) == rows
  {
    if rows != [] {
      NothingPending(rows[..|rows| - 1], outcome);
      assert rows[..|rows| - 1] + [rows[|rows| - 1]] == rows;
    }
  }

  /** The flush loop removes exactly the successes, adds one attempt to exactly the failures, and
      leaves every other row, and the order of the table, alone. */
  lemma {:induction false} FlushedExactly(rows: Rows, pending: Rows, outcome: nat -> bool)
    requires Ordered(pending)
    ensures Flushed(rows, pending, outcome) == Resolved(rows, pending, outcome)
  {
    if pending == [] {
      NothingPending(rows, outcome);
    } else {
      var init, x := pending[..|pending| - 1], pending[|pending| - 1];
      assert pending == init + [x];
      FlushedExactly(rows, init, outcome);
      NoVerdict(init, outcome, x.id);
      ResolveOneMore(rows, init, x, outcome);
    }
  }

  lemma {:induction false} HandedMembers(pending: Rows, outcome: nat -> bool)
    requires Ordered(pending)
    ensures forall r :: r in Handed(pending, outcome) <==> r in pending && Verdict(pending, outcome, r.id) == Some(true)
  {
    if pending != [] {
      var k := |pending| - 1;
      var init, x := pending[..k], pending[k];
      HandedMembers(init, outcome);
      NoVerdict(init, outcome, x.id);
      assert pending == init + [x];
    }
  }

  /** What is handed to the transport is a subsequence of pending, oldest first. */
  lemma {:induction false} HandedInOrder(pending: Rows, outcome: nat -> bool)
    requires Ordered(pending)
    ensures Ordered(Handed(pending, outcome))
  {
    if pending != [] {
      var k := |pending| - 1;
      HandedInOrder(pending[..k], outcome);
      HandedMembers(pending[..k], outcome);
      var h := Handed(pending[..k], outcome);
      assert (h + [pending[k]])[..|h|] == h && h + [] == h;
    }
  }

  // ---------------------------------------------------------------- counting

  function Count(rows: Rows, id: nat): nat {
    if rows == [] then 0
    else Count(rows[..|rows| - 1], id) + (if rows[|rows| - 1].id == id then 1 else 0)
  }

  lemma {:induction false} CountAppend(a: Rows, b: Rows, id: nat)
    ensures Count(a + b, id) == Count(a, id) + Count(b, id)
  {
    if b == [] {
      assert a + b == a;
    } else {
      var n := |b| - 1;
      CountAppend(a, b[..n], id);
      assert (a + b)[..|a + b| - 1] == a + b[..n];
    }
  }

  lemma {:induction false} CountOrdered(rows: Rows, id: nat)
    requires Ordered(rows)
    ensures Count(rows, id) == if exists r :: r in rows && r.id == id then 1 else 0
  {
    if rows != [] {
      var init, r := rows[..|rows| - 1], rows[|rows| - 1];
      CountOrdered(init, id);
      assert rows == init + [r];
    }
  }

  lemma CountFiltered(rows: Rows, keep: Row -> bool, id: nat)
    requires rows != []
    ensures var init, r := rows[..|rows| - 1], rows[|rows| - 1];
            Count(Filter(rows, keep), id) == Count(Filter(init, keep), id) + (if keep(r) && r.id == id then 1 else 0)
  {
    var init, r := rows[..|rows| - 1], rows[|rows| - 1];
    FilterLast(rows, keep);
    CountAppend(Filter(init, keep), [r], id);
  }

  lemma {:induction false} PurgeSplits(rows: Rows, now: real, id: nat)
    ensures Count(Unexpired(rows, now), id) + Count(Expired(rows, now), id) == Count(rows, id)
  {
    if rows != [] {
      var init, r := rows[..|rows| - 1], rows[|rows| - 1];
      PurgeSplits(init, now, id);
      CountFiltered(rows, Alive(now), id);
      CountFiltered(rows, Dead(now), id);
    }
  }

  lemma CountFate(verdict: Option<bool>, r: Row, id: nat)
    ensures Count(Fate(verdict, r), id) == if r.id == id && verdict != Some(true) then 1 else 0
  {
  }

  lemma CountResolvedLast(rows: Rows, pending: Rows, outcome: nat -> bool, id: nat)
    requires rows != []
    ensures var init, r := rows[..|rows| - 1], rows[|rows| - 1];
            Count(Resolved(rows, pending, outcome), id) ==
            Count(Resolved(init, pending, outcome), id)
            + (if r.id == id && Verdict(pending, outcome, id) != Some(true) then 1 else 0)
  {
    var init, r := rows[..|rows| - 1], rows[|rows| - 1];
    CountAppend(Resolved(init, pending, outcome), Fate(Verdict(pending, outcome, r.id), r), id);
    CountFate(Verdict(pending, outcome, r.id), r, id);
  }

  lemma {:induction false} CountResolved(rows: Rows, pending: Rows, outcome: nat -> bool, id: nat)
    ensures Count(Resolved(rows, pending, outcome), id) ==
            if Verdict(pending, outcome, id) == Some(true) then 0 else Count(rows, id)
  {
    if rows != [] {
      var init, r := rows[..|rows| - 1], rows[|rows| - 1];
      CountResolved(init, pending, outcome, id);
      CountResolvedLast(rows, pending, outcome, id);
    }
  }

  /** A flush moves ids from the table to the transport and loses none. */
  lemma FlushSplits(rows: Rows, peer: PeerId, now: real, outcome: nat -> bool, id: nat)
    requires Ordered(rows)
    ensures var pending := Pending(rows, peer, now);
            Count(Flushed(rows, pending, outcome), id) + Count(Handed(pending, outcome), id) == Count(rows, id)
  {
    var pending := Pending(rows, peer, now);
    PendingIsLive(rows, peer, now);
    FlushedExactly(rows, pending, outcome);
    CountResolved(rows, pending, outcome, id);
    HandedInOrder(pending, outcome);
    HandedMembers(pending, outcome);
    CountOrdered(Handed(pending, outcome), id);
    CountOrdered(rows, id);
    if Verdict(pending, outcome, id) == Some(true) {
      VerdictWitness(pending, outcome, id);
    }
  }

  lemma {:induction false} VerdictWitness(pending: Rows, outcome: nat -> bool, id: nat)
    requires Verdict(pending, outcome, id).Some?
    ensures exists r :: r in pending && r.id == id
  {
    var k := |pending| - 1;
    if pending[k].id == id {
      assert pending[k] in pending;
    } else {
      VerdictWitness(pending[..k], outcome, id);
      var r :| r in pending[..k] && r.id == id;
      assert r in pending;
    }
  }
}
