/** The store-and-forward queue (mesh/store_forward.py); payload encryption at rest is left out, so a
    row holds the payload itself. */
module ForwardQueue {
  import opened RowTable
  import opened Wrappers

  const TTL_SECONDS: real := 86400.0
  const MAX_QUEUE_PER_PEER: nat := 256

  datatype QueueError = Overflow | SendRaised

  // ---------------------------------------------------------------- peer ids

  predicate IsHex(c: char) {
    '0' <= c <= '9' || 'a' <= c <= 'f' || 'A' <= c <= 'F'
  }

  function LowerChar(c: char): char {
    if 'A' <= c <= 'Z' then c - 'A' + 'a' else c
  }

  function Lower(s: string): (r: string)
    ensures |r| == |s| && forall i :: 0 <= i < |s| ==> r[i] == LowerChar(s[i])
  {
    seq(|s|, i requires 0 <= i < |s| => LowerChar(s[i]))
  }

  /** The old wire form: 32 hex digits, no hyphens. */
  predicate IsWireForm(s: string) {
    |s| == 32 && forall i :: 0 <= i < |s| ==> IsHex(s[i])
  }

  function Normalize(s: string): string {
    if |s| == 36 then s
    else if IsWireForm(s) then
      var p := Lower(s);
      p[0..8] + "-" + p[8..12] + "-" + p[12..16] + "-" + p[16..20] + "-" + p[20..32]
    else s
  }

  /** Wire-form ids meet in one entry exactly when they differ in case only; normalizing is idempotent. */
  lemma NormalizeIsCanonical(s: string, t: string)
    ensures Normalize(Normalize(s)) == Normalize(s)
    ensures IsWireForm(s) && IsWireForm(t) ==> (Normalize(s) == Normalize(t) <==> Lower(s) == Lower(t))
  {
    if IsWireForm(s) && IsWireForm(t) && Normalize(s) == Normalize(t) {
      Unhyphenated(s);
      Unhyphenated(t);
    }
  }

  function HexGroups(u: string): string
    requires |u| == 36
  {
    u[0..8] + u[9..13] + u[14..18] + u[19..23] + u[24..36]
  }

  lemma Unhyphenated(s: string)
    requires IsWireForm(s)
    ensures |Normalize(s)| == 36 && HexGroups(Normalize(s)) == Lower(s)
  {
    var p := Lower(s);
    var u := Normalize(s);
    assert u[0..8] == p[0..8] && u[9..13] == p[8..12] && u[14..18] == p[12..16];
    assert u[19..23] == p[16..20] && u[24..36] == p[20..32];
  }

  // ---------------------------------------------------------------- the flush loop

  /** The table after the flush loop has gone over `pending`; outcome k is whether the k-th send returned. */
  function Flushed(rows: Rows, pending: Rows, outcome: nat -> bool): Rows {
    if pending == [] then rows
    else
      var k := |pending| - 1;
      var before := Flushed(rows, pending[..k], outcome);
      if outcome(k) then Without(before, pending[k].id) else Attempted(before, pending[k].id)
  }

  /** The messages handed to the transport by that loop, in order. */
  function Handed(pending: Rows, outcome: nat -> bool): Rows {
    if pending == [] then []
    else
      var k := |pending| - 1;
      Handed(pending[..k], outcome) + (if outcome(k) then [pending[k]] else [])
  }

  /** One more turn of the flush loop. */
  lemma FlushedNext(rows: Rows, pending: Rows, outcome: nat -> bool, k: nat)
    requires k < |pending|
    ensures var before, after := Flushed(rows, pending[..k], outcome), Flushed(rows, pending[..k + 1], outcome);
            after == if outcome(k) then Without(before, pending[k].id) else Attempted(before, pending[k].id)
    ensures Handed(pending[..k + 1], outcome) ==
            Handed(pending[..k], outcome) + (if outcome(k) then [pending[k]] else [])
  {
    assert pending[..k + 1][..k] == pending[..k];
  }

  class Queue {
    var rows: Rows
    var nextId: nat

    constructor ()
      ensures rows == [] && nextId == 1
    {
      rows, nextId := [], 1;
    }

    /** `checkedAt` and `now` are the two clock readings the source takes. */
    method Enqueue(peerId: PeerId, payload: Payload, checkedAt: real, now: real) returns (r: Result<nat, QueueError>)
      modifies this
      ensures var peer := Normalize(peerId);
              if |LiveRows(old(rows), peer, checkedAt)| >= 256
              then r == Err(Overflow) && rows == old(rows) && nextId == old(nextId)
              else
                && r == Ok(old(nextId)) && nextId == old(nextId) + 1
                && rows == old(rows) + [Row(old(nextId), peer, payload, now, now + 86400.0, 0)]
    {
      var peer := Normalize(peerId);
      var size := QueueSize(peer, checkedAt);
      NormalizeIsCanonical(peerId, peerId);
      if size >= MAX_QUEUE_PER_PEER {
        return Err(Overflow);
      }
      rows := rows + [Row(nextId, peer, payload, now, now + TTL_SECONDS, 0)];
      nextId := nextId + 1;
      return Ok(nextId - 1);
    }

    /** The peer's live rows, each as often as in the table, oldest first. */
    method GetPending(peerId: PeerId, now: real) returns (pending: Rows)
      ensures pending == Pending(rows, Normalize(peerId), now) && InOrder(pending)
      ensures forall r :: multiset(pending)[r]
                          == if r.peerId == Normalize(peerId) && Live(r, now) then multiset(rows)[r] else 0
    {
      pending := Pending(rows, Normalize(peerId), now);
      PendingSorts(rows, Normalize(peerId), now);
    }

    method QueueSize(peerId: PeerId, now: real) returns (n: nat)
      ensures n == |LiveRows(rows, Normalize(peerId), now)|
      ensures n == |set i: nat | i < |rows| && rows[i].peerId == Normalize(peerId) && Live(rows[i], now)|
    {
      n := |LiveRows(rows, Normalize(peerId), now)|;
      FilterSize(rows, LiveFor(Normalize(peerId), now));
      assert Places(rows, LiveFor(Normalize(peerId), now))
          == set i: nat | i < |rows| && rows[i].peerId == Normalize(peerId) && Live(rows[i], now);
    }

    method TotalSize(now: real) returns (n: nat)
      ensures n == |Unexpired(rows, now)|
      ensures n == |set i: nat | i < |rows| && Live(rows[i], now)|
    {
      n := |Unexpired(rows, now)|;
      FilterSize(rows, Alive(now));
      assert Places(rows, Alive(now)) == set i: nat | i < |rows| && Live(rows[i], now);
    }

    /** The rows of other ids stay, in their order. */
    method MarkSent(id: nat)
      modifies this`rows
      ensures rows == Without(old(rows), id) && IsSelection(old(rows), rows, Unlike(id))
      ensures forall r :: r in rows <==> r in old(rows) && r.id != id
    {
      FilterSelects(rows, Unlike(id));
      FilterMembers(rows, Unlike(id));
      rows := Without(rows, id);
    }

    method IncrementAttempt(id: nat)
      modifies this`rows
      ensures rows == Attempted(old(rows), id) && |rows| == |old(rows)|
      ensures forall i :: 0 <= i < |rows| ==>
                && (old(rows)[i].id == id ==> rows[i] == old(rows)[i].(attempt := old(rows)[i].attempt + 1))
                && (old(rows)[i].id != id ==> rows[i] == old(rows)[i])
    {
      AttemptedAt(rows, id);
      rows := Attempted(rows, id);
    }

    /** The live rows stay, in their order. */
    method PurgeExpired(now: real) returns (removed: nat)
      modifies this`rows
      ensures rows == Unexpired(old(rows), now) && IsSelection(old(rows), rows, Alive(now))
      ensures forall r :: r in rows <==> r in old(rows) && Live(r, now)
      ensures removed == |old(rows)| - |rows|
    {
      FilterSelects(rows, Alive(now));
      FilterMembers(rows, Alive(now));
      var kept := Unexpired(rows, now);
      removed := |rows| - |kept|;
      rows := kept;
    }
  }

  class StoreForward {
    const queue: Queue

    constructor (queue: Queue)
      ensures this.queue == queue
    {
      this.queue := queue;
    }

    /** What follows a send that returned, or raised. */
    method Settle(id: nat, returned: bool)
      modifies queue`rows
      ensures queue.rows == if returned then Without(old(queue.rows), id) else Attempted(old(queue.rows), id)
    {
      if returned {
        queue.MarkSent(id);
      } else {
        queue.IncrementAttempt(id);
      }
    }

    /** `outcome` says of each pending message whether transport.send returned or raised. */
    method FlushPeer(peerId: PeerId, now: real, outcome: nat -> bool) returns (sent: nat, handed: Rows)
      modifies queue`rows
      ensures var pending := Pending(old(queue.rows), Normalize(peerId), now);
              && queue.rows == Flushed(old(queue.rows), pending, outcome)
              && handed == Handed(pending, outcome) && sent == |handed|
    {
      var peer := Normalize(peerId);
      NormalizeIsCanonical(peerId, peerId);
      var pending := queue.GetPending(peer, now);
      sent, handed := FlushAll(pending, outcome);
    }

    method FlushAll(pending: Rows, outcome: nat -> bool) returns (sent: nat, handed: Rows)
      modifies queue`rows
      ensures queue.rows == Flushed(old(queue.rows), pending, outcome)
      ensures handed == Handed(pending, outcome) && sent == |handed|
    {
      sent, handed := 0, [];
      for k := 0 to |pending|
        invariant queue.rows == Flushed(old(queue.rows), pending[..k], outcome)
        invariant handed == Handed(pending[..k], outcome) && sent == |handed|
      {
        FlushedNext(old(queue.rows), pending, outcome, k);
        if outcome(k) {
          handed := handed + [pending[k]];
          sent := sent + 1;
        }
        Settle(pending[k].id, outcome(k));
      }
      assert pending[..|pending|] == pending;
    }

    /** Sends over a live session, or queues; `live` holds the peers with a session, `sends` says
        whether transport.send would return or raise. */
    method SendOrQueue(peerId: PeerId, payload: Payload, live: set<PeerId>, sends: bool, checkedAt: real, now: real)
      returns (r: Result<bool, QueueError>)
      modifies queue
      ensures Normalize(peerId) in live ==>
                && r == (if sends then Ok(true) else Err(SendRaised))
                && queue.rows == old(queue.rows) && queue.nextId == old(queue.nextId)
      ensures Normalize(peerId) !in live ==>
                var peer := Normalize(peerId);
                if |LiveRows(old(queue.rows), peer, checkedAt)| >= 256
                then r == Err(Overflow) && queue.rows == old(queue.rows) && queue.nextId == old(queue.nextId)
                else
                  && r == Ok(false) && queue.nextId == old(queue.nextId) + 1
                  && queue.rows == old(queue.rows) + [Row(old(queue.nextId), peer, payload, now, now + 86400.0, 0)]
    {
      var peer := Normalize(peerId);
      NormalizeIsCanonical(peerId, peerId);
      if peer in live {
        return if sends then Ok(true) else Err(SendRaised);
      }
      var q := queue.Enqueue(peer, payload, checkedAt, now);
      if q.Err? {
        return Err(q.error);
      }
      return Ok(false);
    }
  }
}
