/** The queue's SQLite table as a sequence of rows in insertion order, and what the statements of
    mesh/store_forward.py:151-247 make of it. */
module RowTable {

  type PeerId = string
  type Payload = seq<nat>

  datatype Row = Row(id: nat, peerId: PeerId, payload: Payload, queuedAt: real, expiresAt: real, attempt: nat)

  type Rows = seq<Row>

  predicate Live(r: Row, now: real) {
    r.expiresAt > now
  }

  // ---------------------------------------------------------------- WHERE

  function Filter(rows: Rows, keep: Row -> bool): (f: Rows)
    ensures |f| <= |rows|
  {
    if rows == [] then []
    else
      var r := rows[|rows| - 1];
      Filter(rows[..|rows| - 1], keep) + (if keep(r) then [r] else [])
  }

  /** peer_id = peer AND expires_at > now */
  function LiveFor(peer: PeerId, now: real): Row -> bool {
    (r: Row) => r.peerId == peer && Live(r, now)
  }

  function Alive(now: real): Row -> bool {
    (r: Row) => Live(r, now)
  }

  function Dead(now: real): Row -> bool {
    (r: Row) => !Live(r, now)
  }

  function Unlike(id: nat): Row -> bool {
    (r: Row) => r.id != id
  }

  function LiveRows(rows: Rows, peer: PeerId, now: real): Rows {
    Filter(rows, LiveFor(peer, now))
  }

  function Unexpired(rows: Rows, now: real): (u: Rows)
    ensures |u| <= |rows|
  {
    Filter(rows, Alive(now))
  }

  function Without(rows: Rows, id: nat): Rows {
    Filter(rows, Unlike(id))
  }

  /** `at` picks from a table exactly the rows that satisfy `keep`, in table order. */
  ghost predicate Picks(from: Rows, to: Rows, keep: Row -> bool, at: seq<nat>) {
    && |at| == |to|
    && (forall k :: 0 <= k < |at| ==> at[k] < |from| && from[at[k]] == to[k] && keep(to[k]))
    && (forall k, l :: 0 <= k < l < |at| ==> at[k] < at[l])
    && (forall i: nat :: i < |from| && keep(from[i]) ==> i in at)
  }

  /** `to` is the selection from a table of the rows that satisfy `keep`. */
  ghost predicate IsSelection(from: Rows, to: Rows, keep: Row -> bool) {
    exists at :: Picks(from, to, keep, at)
  }

  lemma PicksOneMore(from: Rows, to: Rows, keep: Row -> bool, at: seq<nat>, r: Row)
    requires Picks(from, to, keep, at)
    ensures Picks(from + [r], if keep(r) then to + [r] else to, keep, if keep(r) then at + [|from|] else at)
  {
    var from', at' := from + [r], if keep(r) then at + [|from|] else at;
    forall i: nat | i < |from'| && keep(from'[i]) ensures i in at' {
      if i < |from| {
        assert from[i] == from'[i];
        assert i in at;
      } else {
        assert at'[|at|] == i;
      }
    }
  }

  lemma {:induction false} FilterPicks(rows: Rows, keep: Row -> bool) returns (at: seq<nat>)
    ensures Picks(rows, Filter(rows, keep), keep, at)
  {
    if rows == [] {
      at := [];
    } else {
      var init, r := rows[..|rows| - 1], rows[|rows| - 1];
      var before := FilterPicks(init, keep);
      FilterLast(rows, keep);
      at := if keep(r) then before + [|init|] else before;
      PicksOneMore(init, Filter(init, keep), keep, before, r);
    }
  }

  lemma FilterLast(rows: Rows, keep: Row -> bool)
    requires rows != []
    ensures var init, r := rows[..|rows| - 1], rows[|rows| - 1];
            rows == init + [r] && Filter(rows, keep) == if keep(r) then Filter(init, keep) + [r] else Filter(init, keep)
  {
    assert Filter(rows[..|rows| - 1], keep) + [] == Filter(rows[..|rows| - 1], keep);
  }

  /** Filtering is selection: the rows that satisfy the condition, each as often as before, in order. */
  lemma FilterSelects(rows: Rows, keep: Row -> bool)
    ensures IsSelection(rows, Filter(rows, keep), keep)
  {
    var at := FilterPicks(rows, keep);
  }

  lemma {:induction false} FilterMembers(rows: Rows, keep: Row -> bool)
    ensures forall r :: r in Filter(rows, keep) <==> r in rows && keep(r)
  {
    if rows != [] {
      FilterMembers(rows[..|rows| - 1], keep);
      assert rows == rows[..|rows| - 1] + [rows[|rows| - 1]];
    }
  }

  lemma {:induction false} FilterMultiplicity(rows: Rows, keep: Row -> bool, r: Row)
    ensures multiset(Filter(rows, keep))[r] == if keep(r) then multiset(rows)[r] else 0
  {
    if rows != [] {
      FilterMultiplicity(rows[..|rows| - 1], keep, r);
      assert rows == rows[..|rows| - 1] + [rows[|rows| - 1]];
    }
  }

  /** The places of the rows that satisfy a condition. */
  ghost function Places(rows: Rows, keep: Row -> bool): set<nat> {
    set i: nat | i < |rows| && keep(rows[i])
  }

  /** SELECT COUNT(*) */
  lemma {:induction false} FilterSize(rows: Rows, keep: Row -> bool)
    ensures |Filter(rows, keep)| == |Places(rows, keep)|
  {
    if rows == [] {
      assert Places(rows, keep) == {};
    } else {
      var n := |rows| - 1;
      FilterSize(rows[..n], keep);
      PlacesGrow(rows, keep);
    }
  }

  lemma PlacesGrow(rows: Rows, keep: Row -> bool)
    requires rows != []
    ensures var n := |rows| - 1; Places(rows, keep) == Places(rows[..n], keep) + (if keep(rows[n]) then {n} else {})
  {
  }

  /** Filtering again by a stronger condition is filtering once by it. */
  lemma {:induction false} FilterTwice(rows: Rows, weak: Row -> bool, strong: Row -> bool)
    requires forall r :: strong(r) ==> weak(r)
    ensures Filter(Filter(rows, weak), strong) == Filter(rows, strong)
  {
    if rows != [] {
      var init, r := rows[..|rows| - 1], rows[|rows| - 1];
      FilterTwice(init, weak, strong);
      var f := Filter(init, weak);
      assert (f + [r])[..|f|] == f && f + [] == f;
      assert Filter(init, strong) + [] == Filter(init, strong);
    }
  }

  /** What is left of a table holds no more rows of any kind. */
  lemma {:induction false} FilterFewer(rows: Rows, first: Row -> bool, keep: Row -> bool)
    ensures |Filter(Filter(rows, first), keep)| <= |Filter(rows, keep)|
  {
    if rows != [] {
      var init, r := rows[..|rows| - 1], rows[|rows| - 1];
      FilterFewer(init, first, keep);
      var f := Filter(init, first);
      assert (f + [r])[..|f|] == f && f + [] == f;
    }
  }

  lemma FilterStronger(rows: Rows, weak: Row -> bool, strong: Row -> bool)
    requires forall r :: strong(r) ==> weak(r)
    ensures |Filter(rows, strong)| <= |Filter(rows, weak)|
  {
    FilterTwice(rows, weak, strong);
  }

  // ---------------------------------------------------------------- ORDER BY

  /** queued_at ASC, id ASC */
  predicate Before(a: Row, b: Row) {
    a.queuedAt < b.queuedAt || (a.queuedAt == b.queuedAt && a.id <= b.id)
  }

  function Insert(rows: Rows, r: Row): Rows {
    if rows == [] || Before(rows[|rows| - 1], r) then rows + [r]
    else Insert(rows[..|rows| - 1], r) + [rows[|rows| - 1]]
  }

  function Sorted(rows: Rows): Rows {
    if rows == [] then [] else Insert(Sorted(rows[..|rows| - 1]), rows[|rows| - 1])
  }

  ghost predicate InOrder(rows: Rows) {
    forall i, j :: 0 <= i < j < |rows| ==> Before(rows[i], rows[j])
  }

  lemma {:induction false} InsertKeeps(rows: Rows, r: Row)
    ensures multiset(Insert(rows, r)) == multiset(rows) + multiset{r}
  {
    if rows != [] && !Before(rows[|rows| - 1], r) {
      InsertKeeps(rows[..|rows| - 1], r);
      assert rows == rows[..|rows| - 1] + [rows[|rows| - 1]];
    }
  }

  /** Everything in a table comes before a row. */
  ghost predicate AllBefore(rows: Rows, r: Row) {
    forall x :: x in rows ==> Before(x, r)
  }

  lemma InOrderOneMore(rows: Rows, r: Row)
    requires InOrder(rows) && AllBefore(rows, r)
    ensures InOrder(rows + [r])
  {
    assert forall i :: 0 <= i < |rows| ==> rows[i] in rows;
  }

  lemma InOrderParts(rows: Rows)
    requires InOrder(rows) && rows != []
    ensures InOrder(rows[..|rows| - 1]) && AllBefore(rows[..|rows| - 1], rows[|rows| - 1])
  {
  }

  lemma {:induction false} InsertMembers(rows: Rows, r: Row)
    ensures forall x :: x in Insert(rows, r) <==> x in rows || x == r
  {
    if rows != [] && !Before(rows[|rows| - 1], r) {
      InsertMembers(rows[..|rows| - 1], r);
      assert rows == rows[..|rows| - 1] + [rows[|rows| - 1]];
    }
  }

  lemma {:induction false} InsertSorts(rows: Rows, r: Row)
    requires InOrder(rows)
    ensures InOrder(Insert(rows, r))
  {
    if rows == [] {
    } else {
      var init, last := rows[..|rows| - 1], rows[|rows| - 1];
      InOrderParts(rows);
      if Before(last, r) {
        InOrderOneMore(rows, r);
      } else {
        InsertSorts(init, r);
        InsertMembers(init, r);
        InOrderOneMore(Insert(init, r), last);
      }
    }
  }

  /** Sorting yields the same rows, each as often as before, ordered by time and id. */
  lemma {:induction false} SortedSorts(rows: Rows)
    ensures multiset(Sorted(rows)) == multiset(rows) && InOrder(Sorted(rows))
  {
    if rows != [] {
      var init, r := rows[..|rows| - 1], rows[|rows| - 1];
      SortedSorts(init);
      InsertKeeps(Sorted(init), r);
      InsertSorts(Sorted(init), r);
      assert rows == init + [r];
    }
  }

  function Pending(rows: Rows, peer: PeerId, now: real): Rows {
    Sorted(LiveRows(rows, peer, now))
  }

  /** The peer's live rows, each as often as in the table, ordered by time and id. */
  lemma PendingSorts(rows: Rows, peer: PeerId, now: real)
    ensures InOrder(Pending(rows, peer, now))
    ensures forall r :: multiset(Pending(rows, peer, now))[r] ==
                        if r.peerId == peer && Live(r, now) then multiset(rows)[r] else 0
  {
    SortedSorts(LiveRows(rows, peer, now));
    forall r ensures multiset(LiveRows(rows, peer, now))[r] ==
                     if r.peerId == peer && Live(r, now) then multiset(rows)[r] else 0
    {
      FilterMultiplicity(rows, LiveFor(peer, now), r);
    }
  }

  // ---------------------------------------------------------------- UPDATE

  /** attempt = attempt + 1 WHERE id = id */
  function Attempted(rows: Rows, id: nat): Rows {
    if rows == [] then []
    else
      var r := rows[|rows| - 1];
      Attempted(rows[..|rows| - 1], id) + [if r.id == id then r.(attempt := r.attempt + 1) else r]
  }

  lemma {:induction false} AttemptedAt(rows: Rows, id: nat)
    ensures |Attempted(rows, id)| == |rows|
    ensures forall i :: 0 <= i < |rows| ==>
              Attempted(rows, id)[i] == if rows[i].id == id then rows[i].(attempt := rows[i].attempt + 1) else rows[i]
  {
    if rows != [] {
      AttemptedAt(rows[..|rows| - 1], id);
    }
  }
}
