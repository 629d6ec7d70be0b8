/** Floods die out (mesh/router.py:313-360): with fixed sessions and no new broadcasts, only a
    bounded number of deliveries is possible, whatever is lost and in whatever order copies arrive. */
module Flood {
  import opened Addresses
  import opened Wrappers
  import opened Finite
  import opened Router
  import opened OriginatorNet

  type Pairs = set<(Id, nat)>

  ghost function Sum(m: map<Addr, nat>): nat {
    if m == map[] then 0 else var a :| a in m; m[a] + Sum(m - {a})
  }

  lemma {:induction false} SumSplits(m: map<Addr, nat>, a: Addr)
    requires a in m
    ensures Sum(m) == m[a] + Sum(m - {a})
  {
    var b :| b in m && Sum(m) == m[b] + Sum(m - {b});
    if b != a {
      SumSplits(m - {b}, a);
      SumSplits(m - {a}, b);
      assert m - {a} - {b} == m - {b} - {a};
    }
  }

  lemma SumChanges(m: map<Addr, nat>, m': map<Addr, nat>, a: Addr)
    requires a in m && a in m' && m' == m[a := m'[a]]
    ensures Sum(m') + m[a] == Sum(m) + m'[a]
  {
    SumSplits(m, a);
    SumSplits(m', a);
    assert m' - {a} == m - {a};
  }

  predicate Unseen(r: RouterState, o: Id, s: nat) {
    o !in r.seenSeq || r.seenSeq[o] < s
  }

  ghost function UnseenBy(r: RouterState, all: Pairs): Pairs {
    set p | p in all && Unseen(r, p.0, p.1)
  }

  ghost function Cost(node: Node, all: Pairs): nat {
    |node.sessions| * |UnseenBy(node.router, all)|
  }

  ghost function Costs(net: Net, all: Pairs): map<Addr, nat> {
    map a | a in net.nodes :: Cost(net.nodes[a], all)
  }

  /** Copies in flight, plus one per session for each pair a node has not seen yet. */
  ghost function Potential(net: Net, all: Pairs): nat {
    |net.flights| + Sum(Costs(net, all))
  }

  ghost function PairsInFlight(net: Net): Pairs {
    set f | f in net.flights :: (f.msg.claim.oid, f.msg.claim.seqNum)
  }

  lemma {:induction false} FanOutLength(sessions: seq<Session>, except: Option<Addr>, m: Originator)
    ensures |FanOut(sessions, except, m)| <= |sessions|
  {
    if sessions != [] {
      FanOutLength(sessions[..|sessions| - 1], except, m);
    }
  }

  lemma CostDrops(node: Node, r': RouterState, all: Pairs, o: Id, s: nat)
    requires (o, s) in all && Unseen(node.router, o, s)
    requires r'.seenSeq == node.router.seenSeq[o := s]
    ensures Cost(node.(router := r'), all) + |node.sessions| <= Cost(node, all)
  {
    var before, after := UnseenBy(node.router, all), UnseenBy(r', all);
    assert after <= before - {(o, s)} by {
      forall p | p in after ensures p in before - {(o, s)} {
        assert p in all && Unseen(r', p.0, p.1);
      }
    }
    SubsetFits(after, before - {(o, s)});
    assert |after| + 1 <= |before|;
    assert |node.sessions| * (|after| + 1) <= |node.sessions| * |before|;
  }

  /** Every delivery strictly lowers the potential, and no delivery brings in a new pair. */
  lemma DeliveryDrops(net: Net, i: nat, all: Pairs)
    requires i < |net.flights| && PairsInFlight(net) <= all
    ensures Potential(AfterDelivery(net, i), all) < Potential(net, all)
    ensures PairsInFlight(AfterDelivery(net, i)) <= all
  {
    var f := net.flights[i];
    var net' := AfterDelivery(net, i);
    var o, s := f.msg.claim.oid, f.msg.claim.seqNum;
    assert f in net.flights;
    assert (o, s) in PairsInFlight(net);
    assert forall g :: g in net'.flights ==> g in net.flights || g.msg.claim == f.msg.claim by {
      if f.dst in net.nodes {
        FanOutDestinations(net.nodes[f.dst].sessions, Some(f.src), Relayed(net.nodes[f.dst].router, f.msg));
      }
    }
    if f.dst in net.nodes && Accepts(net.nodes[f.dst].router, f.msg) {
      var node := net.nodes[f.dst];
      FanOutLength(node.sessions, Some(f.src), Relayed(node.router, f.msg));
      CostDrops(node, net'.nodes[f.dst].router, all, o, s);
      assert Costs(net', all) == Costs(net, all)[f.dst := Cost(net'.nodes[f.dst], all)];
      SumChanges(Costs(net, all), Costs(net', all), f.dst);
    } else {
      assert net'.nodes == net.nodes;
    }
  }

  lemma LossDrops(net: Net, i: nat, all: Pairs)
    requires i < |net.flights| && PairsInFlight(net) <= all
    ensures Potential(Next(net, Lose(i)), all) < Potential(net, all)
    ensures PairsInFlight(Next(net, Lose(i))) <= all
  {
    assert Costs(Next(net, Lose(i)), all) == Costs(net, all);
    assert forall f :: f in Next(net, Lose(i)).flights ==> f in net.flights;
  }

  /** The step takes one of the copies in flight, to its destination or nowhere. */
  predicate Takes(net: Net, step: Step) {
    (step.Deliver? || step.Lose?) && step.i < |net.flights|
  }

  predicate Doubles(net: Net, step: Step) {
    step.Duplicate? && step.i < |net.flights|
  }

  /** How many copies a run takes. */
  function Taken(net: Net, steps: seq<Step>): nat
    decreases |steps|
  {
    if steps == [] then 0
    else (if Takes(net, steps[0]) then 1 else 0) + Taken(Next(net, steps[0]), steps[1..])
  }

  /** How many copies the network itself adds. */
  function Doubled(net: Net, steps: seq<Step>): nat
    decreases |steps|
  {
    if steps == [] then 0
    else (if Doubles(net, steps[0]) then 1 else 0) + Doubled(Next(net, steps[0]), steps[1..])
  }

  /** A step that starts no flood and opens no session. */
  predicate AddsNothing(step: Step) {
    !step.Broadcast? && !step.AddSession?
  }

  lemma SameSeenSameCosts(net: Net, net': Net, all: Pairs)
    requires net'.nodes.Keys == net.nodes.Keys && net'.flights == net.flights
    requires forall a :: a in net.nodes ==>
               && net'.nodes[a].sessions == net.nodes[a].sessions
               && net'.nodes[a].router.seenSeq == net.nodes[a].router.seenSeq
    ensures Potential(net', all) == Potential(net, all) && PairsInFlight(net') == PairsInFlight(net)
  {
    forall a | a in net.nodes ensures Cost(net'.nodes[a], all) == Cost(net.nodes[a], all) {
      assert UnseenBy(net'.nodes[a].router, all) == UnseenBy(net.nodes[a].router, all);
    }
    assert Costs(net', all) == Costs(net, all);
  }

  /** Purging routes and registering bundles costs nothing. */
  lemma SameCosts(net: Net, step: Step, all: Pairs)
    requires step.Purge? || step.Register?
    ensures Potential(Next(net, step), all) == Potential(net, all)
    ensures PairsInFlight(Next(net, step)) == PairsInFlight(net)
  {
    SameSeenSameCosts(net, Next(net, step), all);
  }

  lemma DuplicateAdds(net: Net, i: nat, all: Pairs)
    requires i < |net.flights|
    ensures Potential(Next(net, Duplicate(i)), all) == Potential(net, all) + 1
    ensures PairsInFlight(Next(net, Duplicate(i))) == PairsInFlight(net)
  {
    var net' := Next(net, Duplicate(i));
    assert Costs(net', all) == Costs(net, all);
    assert forall f :: f in net'.flights <==> f in net.flights;
  }

  /** Each step pays for the copy it takes, and only a duplication adds to what is left. */
  lemma StepPays(net: Net, step: Step, all: Pairs)
    requires AddsNothing(step) && PairsInFlight(net) <= all
    ensures PairsInFlight(Next(net, step)) <= all
    ensures Potential(Next(net, step), all) + (if Takes(net, step) then 1 else 0)
            <= Potential(net, all) + (if Doubles(net, step) then 1 else 0)
  {
    match step
    case Deliver(i) => if i < |net.flights| { DeliveryDrops(net, i, all); }
    case Lose(i) => if i < |net.flights| { LossDrops(net, i, all); }
    case Duplicate(i) => if i < |net.flights| { DuplicateAdds(net, i, all); }
    case _ => SameCosts(net, step, all);
  }

  lemma {:induction false} FloodIsBounded(net: Net, steps: seq<Step>, all: Pairs)
    requires (forall step :: step in steps ==> AddsNothing(step)) && PairsInFlight(net) <= all
    ensures Taken(net, steps) <= Potential(net, all) + Doubled(net, steps)
    decreases |steps|
  {
    if steps != [] {
      StepPays(net, steps[0], all);
      assert forall step :: step in steps[1..] ==> step in steps;
      FloodIsBounded(Next(net, steps[0]), steps[1..], all);
    }
  }

  /** Every flood dies out, from any state at all: with fixed sessions and no new broadcast, and with
      purges, registrations, losses and duplications at any moment, the number of copies that can
      still be delivered or lost is bounded by the potential of the copies now in flight and the
      number of duplications. */
  lemma EveryFloodDiesOut(net: Net, steps: seq<Step>)
    requires forall step :: step in steps ==> AddsNothing(step)
    ensures Taken(net, steps) <= Potential(net, PairsInFlight(net)) + Doubled(net, steps)
  {
    FloodIsBounded(net, steps, PairsInFlight(net));
  }

  lemma AcceptanceStays(net: Net, step: Step, k: (Addr, Id, nat))
    requires k in net.accepted
    ensures k in Next(net, step).accepted
  {
  }

  lemma {:induction false} AcceptancesStay(net: Net, steps: seq<Step>, k: (Addr, Id, nat))
    requires k in net.accepted
    ensures k in Run(net, steps).accepted
  {
    if steps != [] {
      AcceptancesStay(net, steps[..|steps| - 1], k);
      AcceptanceStays(Run(net, steps[..|steps| - 1]), steps[|steps| - 1], k);
    }
  }

  /** A node that has accepted, and so forwarded, (o, s) drops every later copy of it for good. */
  lemma ForwardsAtMostOnce(net: Net, steps: seq<Step>, v: Addr, o: Id, s: nat, m: Originator)
    requires Reachable(net) && (v, o, s) in net.accepted
    requires m.claim.oid == o && m.claim.seqNum <= s
    ensures v in Run(net, steps).nodes && !Accepts(Run(net, steps).nodes[v].router, m)
  {
    ReachableInv(net);
    RunKeepsInv(net, steps);
    AcceptancesStay(net, steps, (v, o, s));
    assert AcceptanceHonest(Run(net, steps), v, o, s);
  }
}
