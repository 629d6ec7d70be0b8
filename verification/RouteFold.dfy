/** What any sequence of route updates leaves in the table (mesh/router.py, update_route). */
module RouteFold {
  import opened Router
  import opened Wrappers

  function UpdateAll(routes: Routes, us: seq<RouteEntry>): Routes {
    if us == [] then routes
    else UpdatedRoutes(UpdateAll(routes, us[..|us| - 1]), us[|us| - 1])
  }

  /** `a` is strictly preferred: newer sequence number, or the same one over fewer hops. */
  predicate Preferred(a: RouteEntry, b: RouteEntry) {
    a.seqNum > b.seqNum || (a.seqNum == b.seqNum && a.hopCount < b.hopCount)
  }

  /** us[k] is about o, preferred to everything about o before it and no worse than what comes after. */
  predicate IsFirstBest(us: seq<RouteEntry>, o: Id, k: nat)
    requires k < |us|
  {
    && us[k].originatorId == o
    && (forall j :: 0 <= j < k && us[j].originatorId == o ==> Preferred(us[k], us[j]))
    && (forall j :: k <= j < |us| && us[j].originatorId == o ==> !Preferred(us[j], us[k]))
  }

  ghost predicate About(us: seq<RouteEntry>, o: Id) {
    exists u :: u in us && u.originatorId == o
  }

  lemma AboutInit(us: seq<RouteEntry>, o: Id)
    requires us != []
    ensures About(us, o) <==> About(us[..|us| - 1], o) || us[|us| - 1].originatorId == o
  {
    var init := us[..|us| - 1];
    assert forall u :: u in us <==> u in init || u == us[|us| - 1];
  }

  /** An update about another originator, or one that is not preferred, leaves the first best as it is. */
  lemma FirstBestStays(us: seq<RouteEntry>, o: Id, k: nat)
    requires us != [] && k < |us| - 1 && IsFirstBest(us[..|us| - 1], o, k)
    requires us[|us| - 1].originatorId == o ==> !Preferred(us[|us| - 1], us[k])
    ensures IsFirstBest(us, o, k)
  {
    assert forall i {:trigger us[i]} :: 0 <= i < |us| - 1 ==> us[i] == us[..|us| - 1][i];
  }

  lemma FirstBestMoves(us: seq<RouteEntry>, o: Id, k: nat)
    requires us != [] && k < |us| - 1 && IsFirstBest(us[..|us| - 1], o, k)
    requires us[|us| - 1].originatorId == o && Preferred(us[|us| - 1], us[k])
    ensures IsFirstBest(us, o, |us| - 1)
  {
    var n := |us| - 1;
    forall j | 0 <= j < n && us[j].originatorId == o ensures Preferred(us[n], us[j]) {
      assert us[j] == us[..n][j] && (Preferred(us[k], us[j]) || !Preferred(us[j], us[k]));
    }
  }

  /** Whatever the order of the updates, and whatever else is updated among them, the table holds the
      earliest lexicographic best of each originator. */
  lemma {:induction false} FoldKeepsFirstBest(routes: Routes, us: seq<RouteEntry>, o: Id) returns (k: nat)
    requires o !in routes && About(us, o)
    ensures k < |us| && IsFirstBest(us, o, k)
    ensures o in UpdateAll(routes, us) && UpdateAll(routes, us)[o] == us[k]
  {
    var n := |us| - 1;
    var init := us[..n];
    AboutInit(us, o);
    if !About(init, o) {
      k := n;
      NothingAbout(routes, init, o);
      assert forall j :: 0 <= j < n ==> us[j] == init[j] && init[j] in init;
    } else {
      k := FoldKeepsFirstBest(routes, init, o);
      if us[n].originatorId == o && Preferred(us[n], us[k]) {
        FirstBestMoves(us, o, k);
        k := n;
      } else {
        FirstBestStays(us, o, k);
      }
    }
  }

  lemma {:induction false} NothingAbout(routes: Routes, us: seq<RouteEntry>, o: Id)
    requires o !in routes && !About(us, o)
    ensures o !in UpdateAll(routes, us)
  {
    if us != [] {
      AboutInit(us, o);
      NothingAbout(routes, us[..|us| - 1], o);
    }
  }

  /** The sequence number and hop count kept do not depend on the order of arrival. */
  lemma FoldIgnoresOrder(routes: Routes, us: seq<RouteEntry>, vs: seq<RouteEntry>, o: Id)
    requires o !in routes && About(us, o) && multiset(us) == multiset(vs)
    ensures var a, b := UpdateAll(routes, us), UpdateAll(routes, vs);
            o in a && o in b && a[o].seqNum == b[o].seqNum && a[o].hopCount == b[o].hopCount
  {
    assert forall v :: v in vs <==> v in multiset(vs);
    assert forall u :: u in us <==> u in multiset(us);
    var u :| u in us && u.originatorId == o;
    assert u in vs;
    var i := FoldKeepsFirstBest(routes, us, o);
    var j := FoldKeepsFirstBest(routes, vs, o);
    assert us[i] in vs && vs[j] in us;
  }

  /** What a router that started empty answers after any updates: the earliest best entry for 60 s
      after its last sight, nothing after that, and nothing about originators it never heard of. */
  lemma LookupFindsFirstBest(us: seq<RouteEntry>, o: Id, now: real)
    ensures !About(us, o) ==> RouteTo(UpdateAll(map[], us), o, now) == None
    ensures About(us, o) ==>
              exists k: nat :: k < |us| && IsFirstBest(us, o, k)
                && RouteTo(UpdateAll(map[], us), o, now) == if now <= us[k].lastSeen + 60.0 then Some(us[k]) else None
  {
    if About(us, o) {
      var k := FoldKeepsFirstBest(map[], us, o);
    } else {
      NothingAbout(map[], us, o);
    }
  }

  /** A purge deletes exactly what a lookup at the same moment would not return. */
  lemma PurgeDropsUnanswered(routes: Routes, now: real)
    ensures forall o :: o in PurgedRoutes(routes, now) <==> RouteTo(routes, o, now).Some?
    ensures forall o :: o in PurgedRoutes(routes, now) ==> PurgedRoutes(routes, now)[o] == routes[o]
  {
  }
}
