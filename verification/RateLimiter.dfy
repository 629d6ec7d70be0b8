/** The sliding-window limiter of the device API (api/server.py, _rate_limit). */
module RateLimiter {
  import opened Finite

  const WINDOW: real := 60.0

  type Bucket = seq<real>
  type Buckets = map<string, Bucket>

  /** The bucket once timestamps older than the cutoff are popped from its left end. */
  function Evicted(b: Bucket, cutoff: real): (r: Bucket)
    ensures |r| <= |b|
  {
    if b != [] && b[0] < cutoff then Evicted(b[1..], cutoff) else b
  }

  function BucketOf(bs: Buckets, client: string): Bucket {
    if client in bs then bs[client] else []
  }

  predicate Admits(bs: Buckets, limit: nat, client: string, now: real) {
    |Evicted(BucketOf(bs, client), now - WINDOW)| < limit
  }

  function AfterRequest(bs: Buckets, limit: nat, client: string, now: real): Buckets {
    var b := Evicted(BucketOf(bs, client), now - WINDOW);
    bs[client := if |b| < limit then b + [now] else b]
  }

  class Limiter {
    const requestsPerMinute: nat
    var buckets: Buckets

    /** The middleware is installed only for a positive limit. */
    constructor (requestsPerMinute: nat)
      requires requestsPerMinute > 0
      ensures this.requestsPerMinute == requestsPerMinute && buckets == map[]
    {
      this.requestsPerMinute := requestsPerMinute;
      buckets := map[];
    }

    method Request(client: string, now: real) returns (admitted: bool)
      modifies this
      ensures admitted == Admits(old(buckets), requestsPerMinute, client, now)
      ensures buckets == AfterRequest(old(buckets), requestsPerMinute, client, now)
    {
      var bucket := if client in buckets then buckets[client] else [];
      ghost var start := bucket;
      while bucket != [] && bucket[0] < now - WINDOW
        invariant Evicted(bucket, now - WINDOW) == Evicted(start, now - WINDOW)
        decreases |bucket|
      {
        bucket := bucket[1..];
      }
      admitted := |bucket| < requestsPerMinute;
      if admitted {
        bucket := bucket + [now];
      }
      buckets := buckets[client := bucket];
    }
  }

  // ---------------------------------------------------------------- whole runs

  datatype Req = Req(client: string, now: real)

  function Run(limit: nat, reqs: seq<Req>): Buckets {
    if reqs == [] then map[]
    else
      var r := reqs[|reqs| - 1];
      AfterRequest(Run(limit, reqs[..|reqs| - 1]), limit, r.client, r.now)
  }

  /** The times at which requests of one client were accepted, oldest first. */
  function Accepted(limit: nat, reqs: seq<Req>, client: string): seq<real> {
    if reqs == [] then []
    else
      var init, r := reqs[..|reqs| - 1], reqs[|reqs| - 1];
      Accepted(limit, init, client)
      + (if r.client == client && Admits(Run(limit, init), limit, client, r.now) then [r.now] else [])
  }

  ghost predicate ClockRuns(reqs: seq<Req>) {
    forall i, j :: 0 <= i < j < |reqs| ==> reqs[i].now <= reqs[j].now
  }

  ghost predicate Sorted(h: seq<real>) {
    forall i, j :: 0 <= i < j < |h| ==> h[i] <= h[j]
  }

  lemma {:induction false} EvictTwice(h: seq<real>, c: real, d: real)
    requires c <= d
    ensures Evicted(Evicted(h, c), d) == Evicted(h, d)
  {
    if h != [] && h[0] < c {
      EvictTwice(h[1..], c, d);
    }
  }

  lemma {:induction false} EvictAppend(h: seq<real>, c: real, x: real)
    requires c <= x
    ensures Evicted(h + [x], c) == Evicted(h, c) + [x]
  {
    if h != [] && h[0] < c {
      EvictAppend(h[1..], c, x);
      assert (h + [x])[1..] == h[1..] + [x];
    }
  }

  lemma {:induction false} HistorySorted(limit: nat, reqs: seq<Req>, client: string)
    requires ClockRuns(reqs)
    ensures Sorted(Accepted(limit, reqs, client))
    ensures reqs != [] ==> forall t :: t in Accepted(limit, reqs, client) ==> t <= reqs[|reqs| - 1].now
  {
    if reqs != [] {
      var init, r := reqs[..|reqs| - 1], reqs[|reqs| - 1];
      HistorySorted(limit, init, client);
      var h := Accepted(limit, init, client);
      forall i | 0 <= i < |h| ensures h[i] <= r.now {
        assert h[i] in h && init[|init| - 1].now <= r.now;
      }
    }
  }

  /** The cutoff of the client's latest request. */
  ghost function LastCut(reqs: seq<Req>, client: string): real {
    if reqs == [] then 0.0
    else if reqs[|reqs| - 1].client == client then reqs[|reqs| - 1].now - WINDOW
    else LastCut(reqs[..|reqs| - 1], client)
  }

  /** Evicting a second time, later, is evicting once; an empty history evicts to itself. */
  lemma EvictAgain(h: seq<real>, cut: real, d: real)
    requires h == [] || cut <= d
    ensures Evicted(Evicted(h, cut), d) == Evicted(h, d)
  {
    if h != [] {
      EvictTwice(h, cut, d);
    }
  }

  lemma {:induction false} CutIsPast(limit: nat, reqs: seq<Req>, client: string, now: real)
    requires ClockRuns(reqs) && forall r :: r in reqs ==> r.now <= now
    ensures Accepted(limit, reqs, client) == [] || LastCut(reqs, client) <= now - WINDOW
  {
    if reqs != [] {
      var init := reqs[..|reqs| - 1];
      assert reqs[|reqs| - 1] in reqs;
      assert forall r :: r in init ==> r in reqs;
      CutIsPast(limit, init, client, now);
    }
  }

  lemma LatestIsLast(reqs: seq<Req>)
    requires ClockRuns(reqs) && reqs != []
    ensures forall r :: r in reqs[..|reqs| - 1] ==> r.now <= reqs[|reqs| - 1].now
  {
  }

  lemma OwnBucketIsHistory(limit: nat, init: seq<Req>, r: Req)
    requires ClockRuns(init) && forall q :: q in init ==> q.now <= r.now
    requires BucketOf(Run(limit, init), r.client) == Evicted(Accepted(limit, init, r.client), LastCut(init, r.client))
    ensures BucketOf(Run(limit, init + [r]), r.client) ==
            Evicted(Accepted(limit, init + [r], r.client), r.now - WINDOW)
  {
    var h := Accepted(limit, init, r.client);
    assert (init + [r])[..|init|] == init && h + [] == h;
    CutIsPast(limit, init, r.client, r.now);
    EvictAgain(h, LastCut(init, r.client), r.now - WINDOW);
    EvictAppend(h, r.now - WINDOW, r.now);
  }

  lemma OtherBucketStays(limit: nat, init: seq<Req>, r: Req, client: string)
    requires r.client != client
    ensures BucketOf(Run(limit, init + [r]), client) == BucketOf(Run(limit, init), client)
    ensures Accepted(limit, init + [r], client) == Accepted(limit, init, client)
    ensures LastCut(init + [r], client) == LastCut(init, client)
  {
    assert (init + [r])[..|init|] == init;
  }

  /** A bucket is the acceptance history with an old enough part evicted. */
  lemma {:induction false} BucketIsHistory(limit: nat, reqs: seq<Req>, client: string)
    requires ClockRuns(reqs)
    ensures BucketOf(Run(limit, reqs), client) == Evicted(Accepted(limit, reqs, client), LastCut(reqs, client))
  {
    if reqs != [] {
      var init, r := reqs[..|reqs| - 1], reqs[|reqs| - 1];
      assert reqs == init + [r];
      BucketIsHistory(limit, init, client);
      if r.client == client {
        LatestIsLast(reqs);
        OwnBucketIsHistory(limit, init, r);
      } else {
        OtherBucketStays(limit, init, r, client);
      }
    }
  }

  ghost function Since(h: seq<real>, t: real): set<nat> {
    set i: nat | i < |h| && h[i] >= t
  }

  lemma {:induction false} EvictedShape(h: seq<real>, c: real)
    ensures var k := |h| - |Evicted(h, c)|;
            && (forall i :: 0 <= i < k ==> h[i] < c)
            && (k < |h| ==> h[k] >= c)
  {
    if h != [] && h[0] < c {
      EvictedShape(h[1..], c);
      assert forall i :: 1 <= i < |h| ==> h[i] == h[1..][i - 1];
    }
  }

  lemma EvictedCounts(h: seq<real>, c: real)
    requires Sorted(h)
    ensures |Evicted(h, c)| == |Since(h, c)|
  {
    var k := |h| - |Evicted(h, c)|;
    EvictedShape(h, c);
    assert Since(h, c) == Interval(k, |h|);
    IntervalSize(k, |h|);
  }

  ghost function Interval(lo: nat, hi: nat): (s: set<nat>)
    ensures forall i :: i in s <==> lo <= i < hi
  {
    if lo < hi then Interval(lo, hi - 1) + {hi - 1} else {}
  }

  lemma {:induction false} IntervalSize(lo: nat, hi: nat)
    requires lo <= hi
    ensures |Interval(lo, hi)| == hi - lo
    decreases hi
  {
    if lo < hi {
      IntervalSize(lo, hi - 1);
    }
  }

  lemma DecidesByEviction(limit: nat, reqs: seq<Req>, client: string, now: real)
    requires ClockRuns(reqs) && forall r :: r in reqs ==> r.now <= now
    ensures Admits(Run(limit, reqs), limit, client, now)
            <==> |Evicted(Accepted(limit, reqs, client), now - WINDOW)| < limit
  {
    BucketIsHistory(limit, reqs, client);
    CutIsPast(limit, reqs, client, now);
    EvictAgain(Accepted(limit, reqs, client), LastCut(reqs, client), now - WINDOW);
  }

  /** The evicting deque decides as the plain count over the whole acceptance history would. */
  lemma DecidesByHistory(limit: nat, reqs: seq<Req>, client: string, now: real)
    requires ClockRuns(reqs) && forall r :: r in reqs ==> r.now <= now
    ensures Admits(Run(limit, reqs), limit, client, now)
            <==> |Since(Accepted(limit, reqs, client), now - 60.0)| < limit
  {
    DecidesByEviction(limit, reqs, client, now);
    HistorySorted(limit, reqs, client);
    EvictedCounts(Accepted(limit, reqs, client), now - WINDOW);
  }

  /** The last of more than `limit` entries is over a window later than the entry `limit` before it. */
  ghost predicate Spaced(limit: nat, h: seq<real>) {
    forall j :: limit <= j < |h| ==> h[j - limit] < h[j] - 60.0
  }

  lemma {:induction false} HistorySpaced(limit: nat, reqs: seq<Req>, client: string)
    requires limit > 0 && ClockRuns(reqs)
    ensures Spaced(limit, Accepted(limit, reqs, client))
  {
    if reqs != [] {
      var init, r := reqs[..|reqs| - 1], reqs[|reqs| - 1];
      HistorySpaced(limit, init, client);
      var h := Accepted(limit, init, client);
      LatestIsLast(reqs);
      DecidesByEviction(limit, init, client, r.now);
      EvictedShape(h, r.now - WINDOW);
    }
  }

  ghost function InWindow(h: seq<real>, t: real): set<nat> {
    set i: nat | i < |h| && t <= h[i] <= t + 60.0
  }

  lemma SpacedWindow(limit: nat, h: seq<real>, t: real)
    requires limit > 0 && Sorted(h) && Spaced(limit, h)
    ensures |InWindow(h, t)| <= limit
  {
    var w := InWindow(h, t);
    if w != {} {
      var k := Last(w);
      var lo := if k < limit then 0 else k - limit + 1;
      WindowInInterval(limit, h, t, k);
      IntervalSize(lo, k + 1);
      SubsetFits(w, Interval(lo, k + 1));
    }
  }

  /** Nothing `limit` places before the last one lies in the window. */
  lemma WindowInInterval(limit: nat, h: seq<real>, t: real, k: nat)
    requires limit > 0 && Sorted(h) && Spaced(limit, h)
    requires k in InWindow(h, t) && forall i :: i in InWindow(h, t) ==> i <= k
    ensures InWindow(h, t) <= Interval(if k < limit then 0 else k - limit + 1, k + 1)
  {
    assert k >= limit ==> h[k - limit] < t;
  }

  lemma {:induction false} Last(s: set<nat>) returns (k: nat)
    requires s != {}
    ensures k in s && forall i :: i in s ==> i <= k
  {
    k :| k in s;
    var rest := s - {k};
    if rest != {} {
      var m := Last(rest);
      forall i | i in s ensures i <= m || i == k {
        assert i == k || i in rest;
      }
      if m > k {
        k := m;
      }
    } else {
      assert s == {k};
    }
  }

  /** Every closed 60-second interval holds at most `limit` accepted requests of one client. */
  lemma WindowHoldsAtMostLimit(limit: nat, reqs: seq<Req>, client: string, t: real)
    requires limit > 0 && ClockRuns(reqs)
    ensures |InWindow(Accepted(limit, reqs, client), t)| <= limit
  {
    HistorySorted(limit, reqs, client);
    HistorySpaced(limit, reqs, client);
    SpacedWindow(limit, Accepted(limit, reqs, client), t);
  }

  /** The requests of a run that were accepted. */
  function Kept(limit: nat, reqs: seq<Req>): (k: seq<Req>)
    ensures forall r :: r in k ==> r in reqs
  {
    if reqs == [] then []
    else
      var init, r := reqs[..|reqs| - 1], reqs[|reqs| - 1];
      Kept(limit, init) + (if Admits(Run(limit, init), limit, r.client, r.now) then [r] else [])
  }

  /** The requests of one client. */
  function Only(reqs: seq<Req>, client: string): (k: seq<Req>)
    ensures forall r :: r in k ==> r in reqs
  {
    if reqs == [] then []
    else
      var r := reqs[|reqs| - 1];
      Only(reqs[..|reqs| - 1], client) + (if r.client == client then [r] else [])
  }

  lemma {:induction false} ClockOfPart(part: seq<Req>, last: Req)
    requires ClockRuns(part) && forall r :: r in part ==> r.now <= last.now
    ensures ClockRuns(part + [last])
  {
    assert forall i :: 0 <= i < |part| ==> part[i] in part;
  }

  lemma AcceptedStep(limit: nat, part: seq<Req>, r: Req, client: string)
    ensures Accepted(limit, part + [r], client) ==
            Accepted(limit, part, client)
            + (if r.client == client && Admits(Run(limit, part), limit, client, r.now) then [r.now] else [])
  {
    assert (part + [r])[..|part|] == part;
  }

  /** Two runs in which a client was accepted at the same times decide its next request alike. */
  lemma SameHistorySameDecision(limit: nat, a: seq<Req>, b: seq<Req>, r: Req)
    requires ClockRuns(a) && ClockRuns(b)
    requires (forall q :: q in a ==> q.now <= r.now) && (forall q :: q in b ==> q.now <= r.now)
    requires Accepted(limit, a, r.client) == Accepted(limit, b, r.client)
    ensures Admits(Run(limit, a), limit, r.client, r.now) <==> Admits(Run(limit, b), limit, r.client, r.now)
  {
    DecidesByEviction(limit, a, r.client, r.now);
    DecidesByEviction(limit, b, r.client, r.now);
  }

  /** `part` is a subsequence of a run in which a client was accepted at the same times. */
  ghost predicate SameFor(limit: nat, part: seq<Req>, run: seq<Req>, client: string) {
    && ClockRuns(part) && (forall r :: r in part ==> r in run)
    && Accepted(limit, part, client) == Accepted(limit, run, client)
  }

  /** Leaving out a request that adds nothing to the client's history. */
  lemma SameWithout(limit: nat, part: seq<Req>, run: seq<Req>, r: Req, client: string)
    requires SameFor(limit, part, run, client)
    requires r.client != client || !Admits(Run(limit, run), limit, r.client, r.now)
    ensures SameFor(limit, part, run + [r], client)
  {
    AcceptedStep(limit, run, r, client);
    assert Accepted(limit, run, client) + [] == Accepted(limit, run, client);
  }

  /** Keeping a request on both sides. */
  lemma SameWith(limit: nat, part: seq<Req>, run: seq<Req>, r: Req, client: string)
    requires SameFor(limit, part, run, client) && ClockRuns(run + [r])
    requires r.client == client || Admits(Run(limit, run), limit, r.client, r.now)
    ensures SameFor(limit, part + [r], run + [r], client)
  {
    assert (run + [r])[..|run|] == run;
    LatestIsLast(run + [r]);
    ClockOfPart(part, r);
    AcceptedStep(limit, run, r, client);
    AcceptedStep(limit, part, r, client);
    if r.client == client {
      SameHistorySameDecision(limit, run, part, r);
    }
  }

  /** Rejections consume nothing: without them, every decision on the rest comes out the same. */
  lemma {:induction false} RejectionsCostNothing(limit: nat, reqs: seq<Req>, client: string)
    requires ClockRuns(reqs)
    ensures ClockRuns(Kept(limit, reqs))
    ensures Accepted(limit, Kept(limit, reqs), client) == Accepted(limit, reqs, client)
  {
    if reqs != [] {
      var init, r := reqs[..|reqs| - 1], reqs[|reqs| - 1];
      RejectionsCostNothing(limit, init, client);
      assert reqs == init + [r];
      if Admits(Run(limit, init), limit, r.client, r.now) {
        SameWith(limit, Kept(limit, init), init, r, client);
      } else {
        SameWithout(limit, Kept(limit, init), init, r, client);
        assert Kept(limit, reqs) == Kept(limit, init);
      }
    }
  }

  /** Clients do not affect each other: a client's requests alone are decided as in the whole run. */
  lemma {:induction false} ClientsAreIndependent(limit: nat, reqs: seq<Req>, client: string)
    requires ClockRuns(reqs)
    ensures ClockRuns(Only(reqs, client))
    ensures Accepted(limit, Only(reqs, client), client) == Accepted(limit, reqs, client)
  {
    if reqs != [] {
      var init, r := reqs[..|reqs| - 1], reqs[|reqs| - 1];
      ClientsAreIndependent(limit, init, client);
      assert reqs == init + [r];
      if r.client == client {
        SameWith(limit, Only(init, client), init, r, client);
      } else {
        SameWithout(limit, Only(init, client), init, r, client);
        assert Only(reqs, client) == Only(init, client);
      }
    }
  }
}
