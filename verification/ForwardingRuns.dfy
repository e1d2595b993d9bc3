/**
 Every run of a deployment of nodes and forwarders: operations are made, messages are
 delivered in any order, and any of them may be lost in the network or in a full queue.
 */
module ForwardingRuns {

  import opened Forwarding

  datatype Event = Event(id: nat, node: Node)

  datatype Origin = Origin(node: Node, op: Op)

  /** Messages queued or in the network, what has happened, and whether anything was lost. */
  datatype State = State(flight: seq<Msg>, arrived: multiset<Event>, applied: multiset<Event>,
                         origin: map<nat, Origin>, lost: bool)

  datatype Action =
    | Originate(node: Node, op: Op)
    | Deliver(index: nat)
    | Lose(index: nat)

  const START: State := State([], multiset{}, multiset{}, map[], false)

  predicate Enabled(net: Net, s: State, a: Action)
  {
    match a
    case Originate(n, op) => n in net && !net[n].isForwarder && op.id !in s.origin
    case Deliver(i) => i < |s.flight|
    case Lose(i) => i < |s.flight|
  }

  function Without(ms: seq<Msg>, i: nat): (r: seq<Msg>)
    requires i < |ms|
  {
    ms[..i] + ms[i + 1..]
  }

  function Note(events: multiset<Event>, m: Msg, happened: bool): (r: multiset<Event>)
  {
    if happened && m.wire.Sealed? then events + multiset{Event(m.wire.op.id, m.dst)} else events
  }

  function Step(net: Net, s: State, a: Action): (r: State)
    requires Enabled(net, s, a)
  {
    match a
    case Originate(n, op) =>
      s.(flight := s.flight + Replicate(net, n, op), origin := s.origin[op.id := Origin(n, op)])
    case Deliver(i) =>
      var m := s.flight[i];
      s.(flight := Without(s.flight, i) + Respond(net, m),
         arrived := Note(s.arrived, m, true),
         applied := Note(s.applied, m, Applies(net, m)))
    case Lose(i) => s.(flight := Without(s.flight, i), lost := true)
  }

  predicate RunOk(net: Net, s: State, run: seq<Action>)
    decreases |run|
  {
    run != [] ==> Enabled(net, s, run[0]) && RunOk(net, Step(net, s, run[0]), run[1..])
  }

  function Run(net: Net, s: State, run: seq<Action>): (r: State)
    requires RunOk(net, s, run)
    decreases |run|
  {
    if run == [] then s else Run(net, Step(net, s, run[0]), run[1..])
  }

  // ---------------------------------------------------------------- conservation

  function Seen(s: State, c: Count, id: nat, n: Node): (k: nat)
  {
    if c.Arrivals? then s.arrived[Event(id, n)] else s.applied[Event(id, n)]
  }

  /** The copies an operation was worth when it was made. */
  ghost function Budget(net: Net, site: map<Node, nat>, s: State, c: Count, id: nat, n: Node): (k: nat)
    requires Deployed(net, site)
  {
    if id in s.origin && s.origin[id].node in net
    then Total(net, site, c, Replicate(net, s.origin[id].node, s.origin[id].op), id, n)
    else 0
  }

  /** Copies seen plus copies still to come: no more than were made, and exactly those unless some were lost. */
  ghost predicate Balanced(net: Net, site: map<Node, nat>, s: State, c: Count, id: nat, n: Node)
    requires Deployed(net, site)
  {
    && Seen(s, c, id, n) + Total(net, site, c, s.flight, id, n) <= Budget(net, site, s, c, id, n)
    && (!s.lost ==> Seen(s, c, id, n) + Total(net, site, c, s.flight, id, n) == Budget(net, site, s, c, id, n))
  }

  predicate OriginsOk(net: Net, s: State)
  {
    forall id | id in s.origin ::
      s.origin[id].node in net && !net[s.origin[id].node].isForwarder && s.origin[id].op.id == id
  }

  ghost predicate Conserved(net: Net, site: map<Node, nat>, s: State)
    requires Deployed(net, site)
  {
    && OriginsOk(net, s)
    && forall c, id, n :: Balanced(net, site, s, c, id, n)
  }

  /** Taking a message out of flight takes out what it leads to. */
  lemma WithoutTotal(net: Net, site: map<Node, nat>, c: Count, ms: seq<Msg>, i: nat, id: nat, n: Node)
    requires Deployed(net, site) && i < |ms|
    ensures Total(net, site, c, ms, id, n) == Total(net, site, c, Without(ms, i), id, n) + Hits(net, site, c, ms[i], id, n)
  {
    hide Deployed, Total, Hits;
    assert ms == ms[..i] + ([ms[i]] + ms[i + 1..]);
    TotalConcat(net, site, c, ms[..i], [ms[i]] + ms[i + 1..], id, n);
    TotalConcat(net, site, c, [ms[i]], ms[i + 1..], id, n);
    TotalConcat(net, site, c, ms[..i], ms[i + 1..], id, n);
    OneMessage(net, site, c, ms[i], id, n);
  }

  lemma OneMessage(net: Net, site: map<Node, nat>, c: Count, m: Msg, id: nat, n: Node)
    requires Deployed(net, site)
    ensures Total(net, site, c, [m], id, n) == Hits(net, site, c, m, id, n)
  {
    hide Deployed, Hits, Rank;
    assert [m][1..] == [];
    assert HitsAll(net, site, c, [], id, n, 3) == 0;
  }

  /** Messages of other operations do not count. */
  lemma {:induction false} OtherOperation(net: Net, site: map<Node, nat>, c: Count, m: Msg, id: nat, n: Node)
    requires Deployed(net, site) && (m.wire.Sealed? ==> m.wire.op.id != id)
    ensures Hits(net, site, c, m, id, n) == 0
    decreases Rank(net, m)
  {
    hide Deployed, Total, Hits, Respond;
    RanksDecrease(net, site, m);
    HitsStep(net, site, c, m, id, n);
    forall r | r in Respond(net, m)
      ensures Hits(net, site, c, r, id, n) == 0
    {
      OtherOperation(net, site, c, r, id, n);
    }
    TotalPositive(net, site, c, Respond(net, m), id, n);
  }

  lemma OtherReplicate(net: Net, site: map<Node, nat>, c: Count, a: Node, op: Op, id: nat, n: Node)
    requires Deployed(net, site) && a in net && id != op.id
    ensures Total(net, site, c, Replicate(net, a, op), id, n) == 0
  {
    hide Deployed, Total, Hits, ToSiblings;
    var ms := Replicate(net, a, op);
    forall m | m in ms
      ensures Hits(net, site, c, m, id, n) == 0
    {
      OtherOperation(net, site, c, m, id, n);
    }
    TotalPositive(net, site, c, ms, id, n);
  }

  lemma OriginateBalanced(net: Net, site: map<Node, nat>, s: State, a: Node, op: Op, c: Count, id: nat, n: Node)
    requires Deployed(net, site) && Enabled(net, s, Originate(a, op)) && Balanced(net, site, s, c, id, n)
    ensures Balanced(net, site, Step(net, s, Originate(a, op)), c, id, n)
  {
    hide Deployed, Total, Replicate;
    TotalConcat(net, site, c, s.flight, Replicate(net, a, op), id, n);
    if id != op.id {
      OtherReplicate(net, site, c, a, op, id, n);
    }
  }

  lemma DeliverBalanced(net: Net, site: map<Node, nat>, s: State, i: nat, c: Count, id: nat, n: Node)
    requires Deployed(net, site) && Enabled(net, s, Deliver(i)) && Balanced(net, site, s, c, id, n)
    ensures Balanced(net, site, Step(net, s, Deliver(i)), c, id, n)
  {
    hide Deployed, Total, Hits, Respond, Replicate, Without;
    WithoutTotal(net, site, c, s.flight, i, id, n);
    HitsStep(net, site, c, s.flight[i], id, n);
    TotalConcat(net, site, c, Without(s.flight, i), Respond(net, s.flight[i]), id, n);
  }

  lemma LoseBalanced(net: Net, site: map<Node, nat>, s: State, i: nat, c: Count, id: nat, n: Node)
    requires Deployed(net, site) && Enabled(net, s, Lose(i)) && Balanced(net, site, s, c, id, n)
    ensures Balanced(net, site, Step(net, s, Lose(i)), c, id, n)
  {
    hide Deployed, Total, Hits, Replicate, Without;
    WithoutTotal(net, site, c, s.flight, i, id, n);
  }

  /** Every step conserves the copies of every operation at every node. */
  lemma StepConserves(net: Net, site: map<Node, nat>, s: State, a: Action)
    requires Deployed(net, site) && Enabled(net, s, a) && Conserved(net, site, s)
    ensures Conserved(net, site, Step(net, s, a))
  {
    hide Deployed, Balanced;
    forall c, id, n
      ensures Balanced(net, site, Step(net, s, a), c, id, n)
    {
      match a
      case Originate(b, op) => OriginateBalanced(net, site, s, b, op, c, id, n);
      case Deliver(i) => DeliverBalanced(net, site, s, i, c, id, n);
      case Lose(i) => LoseBalanced(net, site, s, i, c, id, n);
    }
  }

  lemma StartConserved(net: Net, site: map<Node, nat>)
    requires Deployed(net, site)
    ensures Conserved(net, site, START)
  {
    hide Deployed, Hits, Rank;
  }

  lemma {:induction false} RunConserves(net: Net, site: map<Node, nat>, s: State, run: seq<Action>)
    requires Deployed(net, site) && Conserved(net, site, s) && RunOk(net, s, run)
    ensures Conserved(net, site, Run(net, s, run))
    decreases |run|
  {
    hide Deployed, Conserved, Step, Enabled;
    if run == [] {
    } else {
      StepConserves(net, site, s, run[0]);
      RunConserves(net, site, Step(net, s, run[0]), run[1..]);
    }
  }

  // ---------------------------------------------------------------- main results

  /**
   In every run, whatever is lost or reordered: no operation arrives twice at any node,
   forwarders included, or is applied twice, and none comes back to its originator.
   */
  lemma NoDuplicates(net: Net, site: map<Node, nat>, run: seq<Action>, id: nat, n: Node)
    requires Deployed(net, site) && RunOk(net, START, run)
    ensures var s := Run(net, START, run);
            && s.arrived[Event(id, n)] <= 1 && s.applied[Event(id, n)] <= 1
            && (id !in s.origin ==> s.arrived[Event(id, n)] == 0 && s.applied[Event(id, n)] == 0)
            && (id in s.origin && s.origin[id].node == n ==> s.arrived[Event(id, n)] == 0 && s.applied[Event(id, n)] == 0)
  {
    hide Deployed, Total, Replicate, Run, RunOk;
    StartConserved(net, site);
    RunConserves(net, site, START, run);
    var s := Run(net, START, run);
    assert Balanced(net, site, s, Arrivals, id, n) && Balanced(net, site, s, Applications, id, n);
    if id in s.origin {
      OriginAtMostOnce(net, site, Arrivals, s.origin[id].node, s.origin[id].op, id, n);
      OriginAtMostOnce(net, site, Applications, s.origin[id].node, s.origin[id].op, id, n);
    }
  }

  /** Once nothing is in flight and nothing was lost, an operation has been applied exactly by the nodes it is to be delivered to. */
  lemma DeliveryIsExact(net: Net, site: map<Node, nat>, run: seq<Action>, id: nat, n: Node)
    requires Deployed(net, site) && RunOk(net, START, run)
    requires Run(net, START, run).flight == [] && !Run(net, START, run).lost && id in Run(net, START, run).origin
    ensures var s := Run(net, START, run);
            && s.origin[id].node in net
            && s.applied[Event(id, n)] == if Delivered(net, s.origin[id].node, s.origin[id].op.kind, n) then 1 else 0
  {
    hide Deployed, Hits, Rank, Replicate, Run, RunOk, Delivered;
    StartConserved(net, site);
    RunConserves(net, site, START, run);
    var s := Run(net, START, run);
    assert Balanced(net, site, s, Applications, id, n);
    var o := s.origin[id];
    OriginAtMostOnce(net, site, Applications, o.node, o.op, id, n);
    OriginDelivers(net, site, o.node, o.op, n);
  }

  // ---------------------------------------------------------------- termination

  /** The deliveries a message can still cause, itself included. */
  ghost function Work(net: Net, site: map<Node, nat>, m: Msg): (k: nat)
    requires Deployed(net, site)
    ensures k >= 1
    decreases Rank(net, m), 1, 0
  {
    RanksDecrease(net, site, m);
    1 + WorkAll(net, site, Respond(net, m), Rank(net, m))
  }

  ghost function WorkAll(net: Net, site: map<Node, nat>, ms: seq<Msg>, bound: nat): (k: nat)
    requires Deployed(net, site) && forall m | m in ms :: Rank(net, m) < bound
    decreases bound, 0, |ms|
  {
    if ms == [] then 0 else Work(net, site, ms[0]) + WorkAll(net, site, ms[1..], bound)
  }

  lemma {:induction false} WorkBound(net: Net, site: map<Node, nat>, ms: seq<Msg>, bound: nat)
    requires Deployed(net, site) && forall m | m in ms :: Rank(net, m) < bound
    ensures WorkAll(net, site, ms, bound) == WorkAll(net, site, ms, 3)
    decreases |ms|
  {
    hide Deployed, Work, Rank;
    if ms == [] {
    } else {
      WorkBound(net, site, ms[1..], bound);
    }
  }

  lemma {:induction false} WorkConcat(net: Net, site: map<Node, nat>, a: seq<Msg>, b: seq<Msg>)
    requires Deployed(net, site)
    ensures WorkAll(net, site, a + b, 3) == WorkAll(net, site, a, 3) + WorkAll(net, site, b, 3)
    decreases |a|
  {
    hide Deployed, Work, Rank;
    if a == [] {
      assert a + b == b;
    } else {
      WorkConcat(net, site, a[1..], b);
      assert (a + b)[0] == a[0] && (a + b)[1..] == a[1..] + b;
    }
  }

  lemma WithoutWork(net: Net, site: map<Node, nat>, ms: seq<Msg>, i: nat)
    requires Deployed(net, site) && i < |ms|
    ensures WorkAll(net, site, ms, 3) == WorkAll(net, site, Without(ms, i), 3) + Work(net, site, ms[i])
  {
    hide Deployed, Work, Rank;
    assert ms == ms[..i] + ([ms[i]] + ms[i + 1..]);
    WorkConcat(net, site, ms[..i], [ms[i]] + ms[i + 1..]);
    WorkConcat(net, site, [ms[i]], ms[i + 1..]);
    WorkConcat(net, site, ms[..i], ms[i + 1..]);
    assert [ms[i]][1..] == [];
  }

  /** Delivering or losing a message leaves strictly less to do. */
  lemma StepWorks(net: Net, site: map<Node, nat>, s: State, a: Action)
    requires Deployed(net, site) && Enabled(net, s, a) && !a.Originate?
    ensures WorkAll(net, site, Step(net, s, a).flight, 3) < WorkAll(net, site, s.flight, 3)
  {
    hide Deployed, Rank, Respond, WorkAll, Without;
    var m := s.flight[a.index];
    WithoutWork(net, site, s.flight, a.index);
    RanksDecrease(net, site, m);
    WorkBound(net, site, Respond(net, m), Rank(net, m));
    WorkConcat(net, site, Without(s.flight, a.index), Respond(net, m));
  }

  /** No new operations. */
  predicate Quiet(run: seq<Action>)
  {
    forall a | a in run :: !a.Originate?
  }

  /** Delivery terminates: without new operations, no run is longer than the work in flight. */
  lemma {:induction false} DeliveryTerminates(net: Net, site: map<Node, nat>, s: State, run: seq<Action>)
    requires Deployed(net, site) && RunOk(net, s, run) && Quiet(run)
    ensures |run| + WorkAll(net, site, Run(net, s, run).flight, 3) <= WorkAll(net, site, s.flight, 3)
    decreases |run|
  {
    hide Deployed, Rank, WorkAll, Step, Enabled;
    if run == [] {
    } else {
      StepWorks(net, site, s, run[0]);
      DeliveryTerminates(net, site, Step(net, s, run[0]), run[1..]);
    }
  }
}
