/**
 The processes of a deployment with their bounded queues, and the network between them.
 Every move of this system is a few steps of ForwardingRuns: messages in flight are those
 on the wire and those in the queues, and what a full queue refuses is lost.
 */
module ForwardingSystem {

  import opened Basics
  import opened Forwarding
  import opened ForwardingRuns
  import opened ForwardingWorkers

  datatype System = System(procs: map<Node, Process>, wire: multiset<Msg>, applied: multiset<Event>,
                           origin: map<nat, Origin>, lost: bool)

  datatype Move =
    | Make(node: Node, op: Op)                               // a wforce node replicates an operation of its own
    | Send(node: Node, index: nat, toForwarders: bool)       // a link's thread sends the first packet of its queue
    | Drop(msg: Msg)                                         // the network loses a message
    | Arrive(msg: Msg)                                       // a message reaches its destination
    | Turn(node: Node)                                       // a worker handles the first message of its queue

  function LinksOf(h: Host, toForwarders: bool): (ls: seq<Link>)
  {
    if toForwarders then h.forwarders else h.siblings
  }

  function QueuesOf(p: Process, toForwarders: bool): (qs: seq<seq<Wire>>)
  {
    if toForwarders then p.forwarders else p.siblings
  }

  function WithQueues(p: Process, toForwarders: bool, qs: seq<seq<Wire>>): (r: Process)
  {
    if toForwarders then p.(forwarders := qs) else p.(siblings := qs)
  }

  /** The message an item of a receive queue was. */
  function ItemMsg(n: Node, h: Host, item: Item): (m: Msg)
  {
    Msg(item.src, n, Sealed(h.key, item.op, item.forwarded))
  }

  ghost predicate SystemOk(net: Net, lim: Limits, sys: System)
  {
    && sys.procs.Keys == net.Keys
    && forall n | n in net :: ProcessOk(net[n], lim, sys.procs[n]) && QueueOk(net, n, sys.procs[n])
  }

  predicate CanMove(net: Net, sys: System, mv: Move)
  {
    match mv
    case Make(n, op) => n in net && !net[n].isForwarder && op.id !in sys.origin
    case Send(n, i, f) => n in sys.procs && i < |QueuesOf(sys.procs[n], f)| && QueuesOf(sys.procs[n], f)[i] != []
    case Drop(m) => m in sys.wire
    case Arrive(m) => m in sys.wire
    case Turn(n) => n in sys.procs && sys.procs[n].queue != []
  }

  // ---------------------------------------------------------------- moves

  function MakeOn(net: Net, lim: Limits, sys: System, n: Node, op: Op): (r: System)
    requires n in net && n in sys.procs && ProcessOk(net[n], lim, sys.procs[n])
  {
    var h, p := net[n], sys.procs[n];
    sys.(procs := sys.procs[n := p.(siblings := OfferAll(h.key, h.siblings, p.siblings, lim.send, op, false))],
         origin := sys.origin[op.id := Origin(n, op)],
         lost := sys.lost || !Room(h.siblings, p.siblings, lim.send))
  }

  function SendOn(net: Net, lim: Limits, sys: System, n: Node, i: nat, f: bool): (r: System)
    requires n in net && n in sys.procs && ProcessOk(net[n], lim, sys.procs[n])
    requires i < |QueuesOf(sys.procs[n], f)| && QueuesOf(sys.procs[n], f)[i] != []
  {
    var qs, l := QueuesOf(sys.procs[n], f), LinksOf(net[n], f)[i];
    sys.(procs := sys.procs[n := WithQueues(sys.procs[n], f, qs[i := qs[i][1..]])],
         wire := sys.wire + if l.sends then multiset{Msg(n, l.dst, qs[i][0])} else multiset{})
  }

  function ArriveOn(net: Net, lim: Limits, sys: System, m: Msg): (r: System)
    requires m.dst in sys.procs ==> m.dst in net
  {
    var left := sys.(wire := sys.wire - multiset{m});
    if m.dst !in sys.procs then left else
      var p := sys.procs[m.dst];
      left.(procs := sys.procs[m.dst := Received(m.dst, net[m.dst], lim, p, m)],
            lost := sys.lost || (Accepts(net, m) && |p.queue| >= lim.receive))
  }

  function TurnOn(net: Net, lim: Limits, sys: System, n: Node): (r: System)
    requires n in net && n in sys.procs && ProcessOk(net[n], lim, sys.procs[n]) && sys.procs[n].queue != []
  {
    var h, p := net[n], sys.procs[n];
    var item := p.queue[0];
    sys.(procs := sys.procs[n := Worked(h, lim, p)],
         applied := if h.isForwarder then sys.applied else sys.applied + multiset{Event(item.op.id, n)},
         lost := sys.lost || (h.isForwarder && !Room(LinksOf(h, !item.forwarded), QueuesOf(p, !item.forwarded), lim.send)))
  }

  ghost function MoveOn(net: Net, lim: Limits, sys: System, mv: Move): (r: System)
    requires SystemOk(net, lim, sys) && CanMove(net, sys, mv)
  {
    match mv
    case Make(n, op) => MakeOn(net, lim, sys, n, op)
    case Send(n, i, f) => SendOn(net, lim, sys, n, i, f)
    case Drop(m) => sys.(wire := sys.wire - multiset{m}, lost := true)
    case Arrive(m) => ArriveOn(net, lim, sys, m)
    case Turn(n) => TurnOn(net, lim, sys, n)
  }

  lemma MoveKeepsOk(net: Net, lim: Limits, sys: System, mv: Move)
    requires SystemOk(net, lim, sys) && CanMove(net, sys, mv)
    ensures SystemOk(net, lim, MoveOn(net, lim, sys, mv))
  {
    hide OfferAll, Room, Knows, Worked, Received;
    match mv
    case Make(n, op) => ProcessChanged(net, lim, sys, n, MakeOn(net, lim, sys, n, op));
    case Send(n, i, f) => ProcessChanged(net, lim, sys, n, SendOn(net, lim, sys, n, i, f));
    case Drop(m) =>
    case Arrive(m) =>
      if m.dst in sys.procs {
        ReceivedQueue(m.dst, net, lim, sys.procs[m.dst], m);
        ProcessChanged(net, lim, sys, m.dst, ArriveOn(net, lim, sys, m));
      }
    case Turn(n) =>
      WorkedQueue(net[n], lim, sys.procs[n]);
      ProcessChanged(net, lim, sys, n, TurnOn(net, lim, sys, n));
  }

  ghost predicate QueueOk(net: Net, n: Node, p: Process)
    requires n in net
  {
    forall i | 0 <= i < |p.queue| :: Accepts(net, ItemMsg(n, net[n], p.queue[i]))
  }

  lemma ReceivedQueue(n: Node, net: Net, lim: Limits, p: Process, m: Msg)
    requires n in net && QueueOk(net, n, p) && m.dst == n
    ensures QueueOk(net, n, Received(n, net[n], lim, p, m))
  {
    hide Knows;
  }

  lemma WorkedQueue(h: Host, lim: Limits, p: Process)
    requires ProcessOk(h, lim, p) && p.queue != []
    ensures Worked(h, lim, p).queue == p.queue[1..]
  {
    hide OfferAll;
  }

  lemma ProcessChanged(net: Net, lim: Limits, sys: System, n: Node, r: System)
    requires SystemOk(net, lim, sys) && n in net && n in r.procs && r.procs == sys.procs[n := r.procs[n]]
    requires ProcessOk(net[n], lim, r.procs[n]) && QueueOk(net, n, r.procs[n])
    ensures SystemOk(net, lim, r)
  {
    hide ProcessOk, QueueOk;
  }

  // ---------------------------------------------------------------- what is in flight

  function Queued(n: Node, h: Host, q: seq<Item>): (ms: multiset<Msg>)
  {
    if q == [] then multiset{} else Queued(n, h, q[..|q| - 1]) + multiset{ItemMsg(n, h, q[|q| - 1])}
  }

  /** The messages a process holds. */
  function Held(n: Node, h: Host, p: Process): (ms: multiset<Msg>)
    requires |p.siblings| == |h.siblings| && |p.forwarders| == |h.forwarders|
  {
    Waiting(n, h.siblings, p.siblings) + Waiting(n, h.forwarders, p.forwarders) + Queued(n, h, p.queue)
  }

  predicate Distinct(names: seq<Node>)
  {
    names != [] ==> names[0] !in names[1..] && Distinct(names[1..])
  }

  ghost predicate Named(net: Net, names: seq<Node>)
  {
    Distinct(names) && forall n :: n in names <==> n in net
  }

  predicate Shaped(net: Net, procs: map<Node, Process>, names: seq<Node>)
  {
    forall n | n in names ::
      n in net && n in procs && |procs[n].siblings| == |net[n].siblings| && |procs[n].forwarders| == |net[n].forwarders|
  }

  function HeldAll(net: Net, procs: map<Node, Process>, names: seq<Node>): (ms: multiset<Msg>)
    requires Shaped(net, procs, names)
  {
    if names == [] then multiset{} else
      Held(names[0], net[names[0]], procs[names[0]]) + HeldAll(net, procs, names[1..])
  }

  lemma {:induction false} HeldElsewhere(net: Net, procs: map<Node, Process>, names: seq<Node>, n: Node, p: Process)
    requires Shaped(net, procs, names) && n !in names
    ensures Shaped(net, procs[n := p], names) && HeldAll(net, procs[n := p], names) == HeldAll(net, procs, names)
  {
    hide Held;
    if names != [] {
      HeldElsewhere(net, procs, names[1..], n, p);
    }
  }

  /** Changing one process changes what is held by what that process holds. */
  lemma {:induction false} HeldUpdated(net: Net, procs: map<Node, Process>, names: seq<Node>, n: Node, p: Process)
    requires Shaped(net, procs, names) && Distinct(names) && n in names
    requires |p.siblings| == |net[n].siblings| && |p.forwarders| == |net[n].forwarders|
    ensures Shaped(net, procs[n := p], names)
    ensures HeldAll(net, procs[n := p], names) + Held(n, net[n], procs[n]) == HeldAll(net, procs, names) + Held(n, net[n], p)
  {
    hide Held;
    if names[0] == n {
      HeldElsewhere(net, procs, names[1..], n, p);
    } else {
      HeldUpdated(net, procs, names[1..], n, p);
      Carried(Held(names[0], net[names[0]], procs[names[0]]), HeldAll(net, procs[n := p], names[1..]), Held(n, net[n], procs[n]),
              HeldAll(net, procs, names[1..]), Held(n, net[n], p));
    }
  }

  lemma Carried(x: multiset<Msg>, a: multiset<Msg>, b: multiset<Msg>, c: multiset<Msg>, d: multiset<Msg>)
    requires a + b == c + d
    ensures (x + a) + b == (x + c) + d
  {
    assert (x + a) + b == x + (a + b);
    assert (x + c) + d == x + (c + d);
  }

  lemma Regrouped(a: multiset<Msg>, b: multiset<Msg>, c: multiset<Msg>)
    ensures (a + b) + c == a + (b + c)
  {
  }

  lemma {:induction false} QueuedFront(n: Node, h: Host, q: seq<Item>)
    requires q != []
    ensures Queued(n, h, q) == multiset{ItemMsg(n, h, q[0])} + Queued(n, h, q[1..])
  {
    hide ItemMsg, Queued;
    var x := multiset{ItemMsg(n, h, q[0])};
    var rest, item := q[..|q| - 1], q[|q| - 1];
    assert q == rest + [item];
    QueuedBack(n, h, rest, item);
    if |q| == 1 {
      assert rest == q[1..] == [];
      QueuedNone(n, h);
    } else {
      QueuedFront(n, h, rest);
      assert rest[1..] + [item] == q[1..] && rest[0] == q[0];
      QueuedBack(n, h, rest[1..], item);
      Regrouped(x, Queued(n, h, rest[1..]), multiset{ItemMsg(n, h, item)});
    }
  }

  lemma QueuedNone(n: Node, h: Host)
    ensures Queued(n, h, []) == multiset{}
  {
  }

  lemma QueuedBack(n: Node, h: Host, q: seq<Item>, item: Item)
    ensures Queued(n, h, q + [item]) == Queued(n, h, q) + multiset{ItemMsg(n, h, item)}
  {
    assert (q + [item])[..|q|] == q;
  }

  lemma PackedBack(n: Node, dst: Node, wires: seq<Wire>)
    requires wires != []
    ensures Packed(n, dst, wires) == Packed(n, dst, wires[..|wires| - 1]) + multiset{Msg(n, dst, wires[|wires| - 1])}
  {
  }

  lemma {:induction false} PackedFront(n: Node, dst: Node, wires: seq<Wire>)
    requires wires != []
    ensures Packed(n, dst, wires) == multiset{Msg(n, dst, wires[0])} + Packed(n, dst, wires[1..])
  {
    hide Packed;
    var x := multiset{Msg(n, dst, wires[0])};
    PackedBack(n, dst, wires);
    var rest, last := wires[..|wires| - 1], multiset{Msg(n, dst, wires[|wires| - 1])};
    if |wires| == 1 {
      assert rest == wires[1..] == [];
      PackedNone(n, dst);
    } else {
      PackedFront(n, dst, rest);
      PackedBack(n, dst, wires[1..]);
      assert rest[1..] == wires[1..][..|wires| - 2] && rest[0] == wires[0];
      Regrouped(x, Packed(n, dst, rest[1..]), last);
    }
  }

  lemma PackedNone(n: Node, dst: Node)
    ensures Packed(n, dst, []) == multiset{}
  {
  }

  /** A thread that takes a packet from its queue takes one message, if it sends at all. */
  lemma {:induction false} WaitingPop(n: Node, links: seq<Link>, queues: seq<seq<Wire>>, i: nat)
    requires |queues| == |links| && i < |queues| && queues[i] != []
    ensures Waiting(n, links, queues)
         == Waiting(n, links, queues[i := queues[i][1..]])
            + if links[i].sends then multiset{Msg(n, links[i].dst, queues[i][0])} else multiset{}
  {
    hide Packed;
    var after := queues[i := queues[i][1..]];
    if i == 0 {
      assert after[1..] == queues[1..];
      PackedFront(n, links[0].dst, queues[0]);
    } else {
      WaitingPop(n, links[1..], queues[1..], i - 1);
      assert after[1..] == queues[1..][i - 1 := queues[1..][i - 1][1..]];
    }
  }

  // ---------------------------------------------------------------- how moves change what is in flight

  ghost function FlightOf(net: Net, lim: Limits, sys: System, names: seq<Node>): (ms: multiset<Msg>)
    requires SystemOk(net, lim, sys) && Named(net, names)
  {
    SystemShaped(net, lim, sys, names);
    sys.wire + HeldAll(net, sys.procs, names)
  }

  lemma SystemShaped(net: Net, lim: Limits, sys: System, names: seq<Node>)
    requires SystemOk(net, lim, sys) && Named(net, names)
    ensures Shaped(net, sys.procs, names)
  {
  }

  lemma CancelHeld(a: multiset<Msg>, b: multiset<Msg>, old0: multiset<Msg>, new0: multiset<Msg>, x: multiset<Msg>, y: multiset<Msg>)
    requires a + old0 == b + new0
    ensures new0 + x <= old0 + y ==> a + x <= b + y
    ensures new0 + x == old0 + y ==> a + x == b + y
  {
    forall m
      ensures (new0 + x)[m] <= (old0 + y)[m] ==> (a + x)[m] <= (b + y)[m]
      ensures (new0 + x)[m] == (old0 + y)[m] ==> (a + x)[m] == (b + y)[m]
    {
      assert (a + old0)[m] == (b + new0)[m];
    }
  }

  /** One process changes what it holds from losing x to gaining y, and so does the whole. */
  lemma OneProcess(net: Net, procs: map<Node, Process>, names: seq<Node>, n: Node, p: Process, x: multiset<Msg>, y: multiset<Msg>)
    requires Shaped(net, procs, names) && Distinct(names) && n in names
    requires |p.siblings| == |net[n].siblings| && |p.forwarders| == |net[n].forwarders|
    ensures Shaped(net, procs[n := p], names)
    ensures Held(n, net[n], p) + x <= Held(n, net[n], procs[n]) + y ==>
              HeldAll(net, procs[n := p], names) + x <= HeldAll(net, procs, names) + y
    ensures Held(n, net[n], p) + x == Held(n, net[n], procs[n]) + y ==>
              HeldAll(net, procs[n := p], names) + x == HeldAll(net, procs, names) + y
  {
    hide Held, HeldAll;
    HeldUpdated(net, procs, names, n, p);
    CancelHeld(HeldAll(net, procs[n := p], names), HeldAll(net, procs, names),
               Held(n, net[n], procs[n]), Held(n, net[n], p), x, y);
  }

  /** Offering an operation to the links of a process adds what it fans out, or less if a queue is full. */
  lemma HeldOffered(n: Node, h: Host, p: Process, max: nat, op: Op, f: bool)
    requires |p.siblings| == |h.siblings| && |p.forwarders| == |h.forwarders|
    ensures var sent := multiset(Fanned(n, h.key, LinksOf(h, f), op, f));
            var r := WithQueues(p, f, OfferAll(h.key, LinksOf(h, f), QueuesOf(p, f), max, op, f));
            && Held(n, h, r) <= Held(n, h, p) + sent
            && (Room(LinksOf(h, f), QueuesOf(p, f), max) ==> Held(n, h, r) == Held(n, h, p) + sent)
  {
    hide Waiting, Queued, Fanned, OfferAll, Room;
    OfferAllSends(n, h.key, LinksOf(h, f), QueuesOf(p, f), max, op, f);
  }

  /** A change of one process that leaves the wire alone. */
  lemma ProcessFlight(net: Net, lim: Limits, sys: System, r: System, names: seq<Node>, n: Node, x: multiset<Msg>, y: multiset<Msg>)
    requires SystemOk(net, lim, sys) && SystemOk(net, lim, r) && Named(net, names) && n in net
    requires r.wire == sys.wire && r.procs == sys.procs[n := r.procs[n]]
    ensures Held(n, net[n], r.procs[n]) + x <= Held(n, net[n], sys.procs[n]) + y ==>
              FlightOf(net, lim, r, names) + x <= FlightOf(net, lim, sys, names) + y
    ensures Held(n, net[n], r.procs[n]) + x == Held(n, net[n], sys.procs[n]) + y ==>
              FlightOf(net, lim, r, names) + x == FlightOf(net, lim, sys, names) + y
  {
    hide Held, HeldAll, QueueOk;
    SystemShaped(net, lim, sys, names);
    OneProcess(net, sys.procs, names, n, r.procs[n], x, y);
    Regrouped(sys.wire, HeldAll(net, sys.procs, names), y);
    Regrouped(sys.wire, HeldAll(net, r.procs, names), x);
  }

  lemma MakeFlight(net: Net, lim: Limits, sys: System, names: seq<Node>, n: Node, op: Op)
    requires SystemOk(net, lim, sys) && Named(net, names) && CanMove(net, sys, Make(n, op))
    ensures var r := MakeOn(net, lim, sys, n, op);
            && SystemOk(net, lim, r)
            && FlightOf(net, lim, r, names) <= FlightOf(net, lim, sys, names) + multiset(Replicate(net, n, op))
            && (!r.lost ==> FlightOf(net, lim, r, names) == FlightOf(net, lim, sys, names) + multiset(Replicate(net, n, op)))
  {
    hide Held, FlightOf, OfferAll, Replicate, Room, Named, QueueOk;
    var r, sent := MakeOn(net, lim, sys, n, op), multiset(Replicate(net, n, op));
    MoveKeepsOk(net, lim, sys, Make(n, op));
    HeldOffered(n, net[n], sys.procs[n], lim.send, op, false);
    ReplicateFans(net, n, op);
    ProcessFlight(net, lim, sys, r, names, n, multiset{}, sent);
    NoLess(Held(n, net[n], r.procs[n]), FlightOf(net, lim, r, names));
  }

  lemma NoLess(a: multiset<Msg>, b: multiset<Msg>)
    ensures a + multiset{} == a && b + multiset{} == b
  {
  }

  lemma ReplicateFans(net: Net, n: Node, op: Op)
    requires n in net
    ensures Replicate(net, n, op) == Fanned(n, net[n].key, net[n].siblings, op, false)
  {
  }

  lemma HeldSent(n: Node, h: Host, p: Process, i: nat, f: bool)
    requires |p.siblings| == |h.siblings| && |p.forwarders| == |h.forwarders|
    requires i < |QueuesOf(p, f)| && QueuesOf(p, f)[i] != []
    ensures var qs, l := QueuesOf(p, f), LinksOf(h, f)[i];
            var x := if l.sends then multiset{Msg(n, l.dst, qs[i][0])} else multiset{};
            Held(n, h, WithQueues(p, f, qs[i := qs[i][1..]])) + x == Held(n, h, p)
  {
    hide Waiting, Queued;
    WaitingPop(n, LinksOf(h, f), QueuesOf(p, f), i);
  }

  /** From a process to the whole: what it puts on the wire it no longer holds. */
  lemma WireGains(wire: multiset<Msg>, x: multiset<Msg>, before: multiset<Msg>, after: multiset<Msg>)
    requires after + x == before + multiset{}
    ensures (wire + x) + after == wire + before
  {
    assert (wire + x) + after == wire + (after + x);
    assert before + multiset{} == before;
  }

  lemma WireGives(wire: multiset<Msg>, x: multiset<Msg>, before: multiset<Msg>, after: multiset<Msg>)
    requires x <= wire && after + multiset{} == before + x
    ensures (wire - x) + after == wire + before
  {
    assert after + multiset{} == after;
    assert (wire - x) + (before + x) == ((wire - x) + x) + before;
    assert (wire - x) + x == wire;
  }

  lemma SendFlight(net: Net, lim: Limits, sys: System, names: seq<Node>, n: Node, i: nat, f: bool)
    requires SystemOk(net, lim, sys) && Named(net, names) && CanMove(net, sys, Send(n, i, f))
    ensures var r := SendOn(net, lim, sys, n, i, f);
            SystemOk(net, lim, r) && FlightOf(net, lim, r, names) == FlightOf(net, lim, sys, names)
  {
    hide Held, HeldAll;
    var h, p := net[n], sys.procs[n];
    var qs, l := QueuesOf(p, f), LinksOf(h, f)[i];
    var p' := WithQueues(p, f, qs[i := qs[i][1..]]);
    var x := if l.sends then multiset{Msg(n, l.dst, qs[i][0])} else multiset{};
    HeldSent(n, h, p, i, f);
    SystemShaped(net, lim, sys, names);
    OneProcess(net, sys.procs, names, n, p', x, multiset{});
    WireGains(sys.wire, x, HeldAll(net, sys.procs, names), HeldAll(net, sys.procs[n := p'], names));
  }

  lemma HeldQueued(n: Node, h: Host, p: Process, item: Item)
    requires |p.siblings| == |h.siblings| && |p.forwarders| == |h.forwarders|
    ensures Held(n, h, p.(queue := p.queue + [item])) + multiset{} == Held(n, h, p) + multiset{ItemMsg(n, h, item)}
  {
    hide Waiting, Queued;
    QueuedBack(n, h, p.queue, item);
  }

  /** The message is queued. */
  predicate Admitted(net: Net, lim: Limits, sys: System, m: Msg)
  {
    Accepts(net, m) && m.dst in sys.procs && |sys.procs[m.dst].queue| < lim.receive
  }

  lemma AdmittedFlight(net: Net, lim: Limits, sys: System, names: seq<Node>, m: Msg)
    requires SystemOk(net, lim, sys) && Named(net, names) && m in sys.wire && Admitted(net, lim, sys, m)
    ensures var r := ArriveOn(net, lim, sys, m);
            SystemOk(net, lim, r) && FlightOf(net, lim, r, names) == FlightOf(net, lim, sys, names)
  {
    hide Held, HeldAll, Knows;
    var h, p, item := net[m.dst], sys.procs[m.dst], Item(m.src, m.wire.op, m.wire.forwarded);
    var p' := p.(queue := p.queue + [item]);
    assert ItemMsg(m.dst, h, item) == m;
    assert Received(m.dst, h, lim, p, m) == p';
    HeldQueued(m.dst, h, p, item);
    SystemShaped(net, lim, sys, names);
    OneProcess(net, sys.procs, names, m.dst, p', multiset{}, multiset{m});
    WireGives(sys.wire, multiset{m}, HeldAll(net, sys.procs, names), HeldAll(net, sys.procs[m.dst := p'], names));
  }

  lemma RefusedFlight(net: Net, lim: Limits, sys: System, names: seq<Node>, m: Msg)
    requires SystemOk(net, lim, sys) && Named(net, names) && m in sys.wire && !Admitted(net, lim, sys, m)
    ensures var r := ArriveOn(net, lim, sys, m);
            && SystemOk(net, lim, r) && m in FlightOf(net, lim, sys, names)
            && FlightOf(net, lim, r, names) == FlightOf(net, lim, sys, names) - multiset{m}
  {
    hide HeldAll, Knows;
    SystemShaped(net, lim, sys, names);
    if m.dst in sys.procs {
      assert Received(m.dst, net[m.dst], lim, sys.procs[m.dst], m) == sys.procs[m.dst];
      assert sys.procs[m.dst := sys.procs[m.dst]] == sys.procs;
    }
    WireLoses(sys.wire, multiset{m}, HeldAll(net, sys.procs, names));
  }

  lemma WireLoses(wire: multiset<Msg>, x: multiset<Msg>, held: multiset<Msg>)
    requires x <= wire
    ensures (wire - x) + held == (wire + held) - x && x <= wire + held
  {
  }

  /** A worker's turn takes its message out of flight and puts in what it sends on, or less if a queue is full. */
  lemma TurnFlight(net: Net, lim: Limits, sys: System, names: seq<Node>, n: Node)
    requires SystemOk(net, lim, sys) && Named(net, names) && CanMove(net, sys, Turn(n))
    ensures var r := TurnOn(net, lim, sys, n);
            var m := ItemMsg(n, net[n], sys.procs[n].queue[0]);
            var all := FlightOf(net, lim, sys, names) + multiset(Respond(net, m));
            && SystemOk(net, lim, r) && Accepts(net, m)
            && FlightOf(net, lim, r, names) + multiset{m} <= all
            && (!r.lost ==> FlightOf(net, lim, r, names) + multiset{m} == all)
  {
    hide Held, FlightOf, Respond, Room, Worked, Accepts, Named, ItemMsg;
    var r, m := TurnOn(net, lim, sys, n), ItemMsg(n, net[n], sys.procs[n].queue[0]);
    MoveKeepsOk(net, lim, sys, Turn(n));
    HeldTurn(net, lim, n, sys.procs[n]);
    ProcessFlight(net, lim, sys, r, names, n, multiset{m}, multiset(Respond(net, m)));
  }

  lemma HeldTurn(net: Net, lim: Limits, n: Node, p: Process)
    requires n in net && ProcessOk(net[n], lim, p) && p.queue != [] && Accepts(net, ItemMsg(n, net[n], p.queue[0]))
    ensures var h, item := net[n], p.queue[0];
            var m := ItemMsg(n, h, item);
            var x, y, r := multiset{m}, multiset(Respond(net, m)), Worked(h, lim, p);
            && Held(n, h, r) + x <= Held(n, h, p) + y
            && (!h.isForwarder || Room(LinksOf(h, !item.forwarded), QueuesOf(p, !item.forwarded), lim.send) ==>
                  Held(n, h, r) + x == Held(n, h, p) + y)
  {
    hide Waiting, Queued, Knows, Room, OfferAll, Fanned;
    var h, item := net[n], p.queue[0];
    var m, rest := ItemMsg(n, h, item), p.(queue := p.queue[1..]);
    QueuedFront(n, h, p.queue);
    assert Held(n, h, rest) + multiset{m} == Held(n, h, p);
    if h.isForwarder {
      WorkIsRespond(net, m);
      HeldOffered(n, h, rest, lim.send, item.op, !item.forwarded);
    } else {
      assert Respond(net, m) == [];
    }
  }

  // ---------------------------------------------------------------- steps of ForwardingRuns

  lemma WithoutOne(ms: seq<Msg>, i: nat)
    requires i < |ms|
    ensures multiset(Without(ms, i)) == multiset(ms) - multiset{ms[i]}
  {
    assert ms == ms[..i] + [ms[i]] + ms[i + 1..];
  }

  lemma {:induction false} RunAppend(net: Net, s: State, a: seq<Action>, b: seq<Action>)
    requires RunOk(net, s, a) && RunOk(net, Run(net, s, a), b)
    ensures RunOk(net, s, a + b) && Run(net, s, a + b) == Run(net, Run(net, s, a), b)
    decreases |a|
  {
    hide Step, Enabled;
    if a == [] {
      assert a + b == b;
    } else {
      assert (a + b)[0] == a[0] && (a + b)[1..] == a[1..] + b;
      RunAppend(net, Step(net, s, a[0]), a[1..], b);
    }
  }

  lemma OneAction(net: Net, s: State, a: Action)
    requires Enabled(net, s, a)
    ensures RunOk(net, s, [a]) && Run(net, s, [a]) == Step(net, s, a)
  {
    hide Step, Enabled;
    assert [a][1..] == [];
  }

  lemma FindMessage(ms: seq<Msg>, m: Msg) returns (i: nat)
    requires m in multiset(ms)
    ensures i < |ms| && ms[i] == m
  {
    i :| 0 <= i < |ms| && ms[i] == m;
  }

  /** Any part of the flight can be lost, and nothing else changes. */
  lemma {:induction false} LoseTo(net: Net, s: State, keep: multiset<Msg>) returns (run: seq<Action>)
    requires keep <= multiset(s.flight)
    ensures RunOk(net, s, run) && Quiet(run)
    ensures var r := Run(net, s, run);
            && multiset(r.flight) == keep && r.applied == s.applied && r.origin == s.origin
            && (keep == multiset(s.flight) ==> r.lost == s.lost)
    decreases |s.flight|
  {
    if keep == multiset(s.flight) {
      run := [];
    } else {
      var x :| keep[x] < multiset(s.flight)[x];
      var i := FindMessage(s.flight, x);
      WithoutOne(s.flight, i);
      var u := Step(net, s, Lose(i));
      OneAction(net, s, Lose(i));
      var rest := LoseTo(net, u, keep);
      RunAppend(net, s, [Lose(i)], rest);
      run := [Lose(i)] + rest;
    }
  }

  /** A delivery followed by losses. */
  lemma DeliverTo(net: Net, s: State, m: Msg, keep: multiset<Msg>) returns (run: seq<Action>)
    requires m in multiset(s.flight) && keep + multiset{m} <= multiset(s.flight) + multiset(Respond(net, m))
    ensures RunOk(net, s, run) && Quiet(run) && run != []
    ensures var r := Run(net, s, run);
            && multiset(r.flight) == keep && r.applied == Note(s.applied, m, Applies(net, m)) && r.origin == s.origin
            && (keep + multiset{m} == multiset(s.flight) + multiset(Respond(net, m)) ==> r.lost == s.lost)
  {
    hide Respond, Applies, Run, RunOk;
    var i := FindMessage(s.flight, m);
    WithoutOne(s.flight, i);
    OneAction(net, s, Deliver(i));
    var u := Step(net, s, Deliver(i));
    Remaining(multiset(s.flight), m, multiset(Respond(net, m)), keep);
    assert multiset(u.flight) == (multiset(s.flight) - multiset{m}) + multiset(Respond(net, m));
    var rest := LoseTo(net, u, keep);
    RunAppend(net, s, [Deliver(i)], rest);
    run := [Deliver(i)] + rest;
  }

  lemma Remaining(all: multiset<Msg>, m: Msg, y: multiset<Msg>, keep: multiset<Msg>)
    requires m in all && keep + multiset{m} <= all + y
    ensures keep <= (all - multiset{m}) + y
    ensures keep + multiset{m} == all + y ==> keep == (all - multiset{m}) + y
  {
    var left := (all - multiset{m}) + y;
    assert left + multiset{m} == all + y;
    forall x
      ensures keep[x] <= left[x] && ((keep + multiset{m})[x] == (all + y)[x] ==> keep[x] == left[x])
    {
      assert (left + multiset{m})[x] == (all + y)[x];
    }
  }

  // ---------------------------------------------------------------- refinement

  /** The system as ForwardingRuns sees it. */
  ghost predicate Refines(net: Net, lim: Limits, sys: System, names: seq<Node>, s: State)
  {
    && SystemOk(net, lim, sys) && Named(net, names)
    && multiset(s.flight) == FlightOf(net, lim, sys, names)
    && s.applied == sys.applied && s.origin == sys.origin && (s.lost ==> sys.lost)
  }

  lemma MakeRefines(net: Net, lim: Limits, sys: System, names: seq<Node>, s: State, n: Node, op: Op) returns (run: seq<Action>)
    requires Refines(net, lim, sys, names, s) && CanMove(net, sys, Make(n, op))
    ensures RunOk(net, s, run) && Refines(net, lim, MoveOn(net, lim, sys, Make(n, op)), names, Run(net, s, run))
  {
    hide FlightOf, SystemOk, Named, Replicate, Run, RunOk, MakeOn;
    MakeFlight(net, lim, sys, names, n, op);
    MakeParts(net, lim, sys, n, op);
    var r := MakeOn(net, lim, sys, n, op);
    OneAction(net, s, Originate(n, op));
    var u := Step(net, s, Originate(n, op));
    assert multiset(u.flight) == multiset(s.flight) + multiset(Replicate(net, n, op));
    var rest := LoseTo(net, u, FlightOf(net, lim, r, names));
    RunAppend(net, s, [Originate(n, op)], rest);
    run := [Originate(n, op)] + rest;
  }

  lemma MakeParts(net: Net, lim: Limits, sys: System, n: Node, op: Op)
    requires SystemOk(net, lim, sys) && n in net
    ensures n in sys.procs && ProcessOk(net[n], lim, sys.procs[n])
    ensures var r := MakeOn(net, lim, sys, n, op);
            && r.applied == sys.applied && r.origin == sys.origin[op.id := Origin(n, op)] && (sys.lost ==> r.lost)
  {
  }

  lemma SendRefines(net: Net, lim: Limits, sys: System, names: seq<Node>, s: State, n: Node, i: nat, f: bool)
    requires Refines(net, lim, sys, names, s) && CanMove(net, sys, Send(n, i, f))
    ensures Refines(net, lim, MoveOn(net, lim, sys, Send(n, i, f)), names, s)
  {
    hide FlightOf, Named;
    SendFlight(net, lim, sys, names, n, i, f);
  }

  lemma DropRefines(net: Net, lim: Limits, sys: System, names: seq<Node>, s: State, m: Msg) returns (run: seq<Action>)
    requires Refines(net, lim, sys, names, s) && CanMove(net, sys, Drop(m))
    ensures RunOk(net, s, run) && Refines(net, lim, MoveOn(net, lim, sys, Drop(m)), names, Run(net, s, run)) && Quiet(run)
  {
    hide Run, RunOk, HeldAll;
    var r := MoveOn(net, lim, sys, Drop(m));
    SystemShaped(net, lim, sys, names);
    WireLoses(sys.wire, multiset{m}, HeldAll(net, sys.procs, names));
    run := LoseTo(net, s, FlightOf(net, lim, r, names));
  }

  lemma ArriveParts(net: Net, lim: Limits, sys: System, m: Msg)
    requires SystemOk(net, lim, sys)
    ensures m.dst in sys.procs ==> m.dst in net
    ensures var r := ArriveOn(net, lim, sys, m);
            && r.applied == sys.applied && r.origin == sys.origin && (sys.lost ==> r.lost)
            && (Accepts(net, m) && !Admitted(net, lim, sys, m) ==> r.lost)
  {
  }

  lemma ArriveRefines(net: Net, lim: Limits, sys: System, names: seq<Node>, s: State, m: Msg) returns (run: seq<Action>)
    requires Refines(net, lim, sys, names, s) && CanMove(net, sys, Arrive(m))
    ensures RunOk(net, s, run) && Refines(net, lim, MoveOn(net, lim, sys, Arrive(m)), names, Run(net, s, run)) && Quiet(run)
  {
    hide FlightOf, SystemOk, Named, Run, RunOk, ArriveOn, Accepts, Admitted, Respond;
    ArriveParts(net, lim, sys, m);
    if Admitted(net, lim, sys, m) {
      AdmittedFlight(net, lim, sys, names, m);
      run := [];
      NoActions(net, s);
    } else {
      RefusedFlight(net, lim, sys, names, m);
      var keep := FlightOf(net, lim, ArriveOn(net, lim, sys, m), names);
      if Accepts(net, m) {
        run := LoseTo(net, s, keep);
      } else {
        NotAccepted(net, m);
        assert keep + multiset{m} == multiset(s.flight) + multiset([]);
        run := DeliverTo(net, s, m, keep);
      }
    }
  }

  lemma NoActions(net: Net, s: State)
    ensures RunOk(net, s, []) && Run(net, s, []) == s
  {
  }

  lemma NotAccepted(net: Net, m: Msg)
    requires !Accepts(net, m)
    ensures Respond(net, m) == [] && !Applies(net, m)
  {
  }

  lemma TurnParts(net: Net, lim: Limits, sys: System, n: Node)
    requires SystemOk(net, lim, sys) && CanMove(net, sys, Turn(n))
    ensures n in net && ProcessOk(net[n], lim, sys.procs[n])
    ensures var r, m := TurnOn(net, lim, sys, n), ItemMsg(n, net[n], sys.procs[n].queue[0]);
            && r.applied == Note(sys.applied, m, Applies(net, m)) && r.origin == sys.origin && (sys.lost ==> r.lost)
  {
  }

  lemma TurnRefines(net: Net, lim: Limits, sys: System, names: seq<Node>, s: State, n: Node) returns (run: seq<Action>)
    requires Refines(net, lim, sys, names, s) && CanMove(net, sys, Turn(n))
    ensures RunOk(net, s, run) && Refines(net, lim, MoveOn(net, lim, sys, Turn(n)), names, Run(net, s, run)) && Quiet(run)
    ensures run != []
  {
    hide FlightOf, SystemOk, Named, Run, RunOk, TurnOn, Respond, Applies, Note, ItemMsg;
    TurnParts(net, lim, sys, n);
    TurnFlight(net, lim, sys, names, n);
    var r, m := TurnOn(net, lim, sys, n), ItemMsg(n, net[n], sys.procs[n].queue[0]);
    TurnInFlight(net, lim, sys, names, n);
    run := DeliverTo(net, s, m, FlightOf(net, lim, r, names));
  }

  /** The first message of a receive queue is in flight. */
  lemma TurnInFlight(net: Net, lim: Limits, sys: System, names: seq<Node>, n: Node)
    requires SystemOk(net, lim, sys) && Named(net, names) && CanMove(net, sys, Turn(n))
    ensures ItemMsg(n, net[n], sys.procs[n].queue[0]) in FlightOf(net, lim, sys, names)
  {
    hide HeldAll, Held, ItemMsg;
    SystemShaped(net, lim, sys, names);
    HeldFirst(net[n], n, sys.procs[n]);
    HeldIn(net, sys.procs, names, n);
  }

  lemma HeldFirst(h: Host, n: Node, p: Process)
    requires |p.siblings| == |h.siblings| && |p.forwarders| == |h.forwarders| && p.queue != []
    ensures ItemMsg(n, h, p.queue[0]) in Held(n, h, p)
  {
    hide Waiting, Queued, ItemMsg;
    QueuedFront(n, h, p.queue);
  }

  lemma {:induction false} HeldIn(net: Net, procs: map<Node, Process>, names: seq<Node>, n: Node)
    requires Shaped(net, procs, names) && n in names
    ensures Held(n, net[n], procs[n]) <= HeldAll(net, procs, names)
  {
    hide Held;
    if names[0] != n {
      HeldIn(net, procs, names[1..], n);
    }
  }

  /** Every move is a delivery, an origination or nothing, followed by losses. */
  lemma MoveRefines(net: Net, lim: Limits, sys: System, names: seq<Node>, s: State, mv: Move) returns (run: seq<Action>)
    requires Refines(net, lim, sys, names, s) && CanMove(net, sys, mv)
    ensures RunOk(net, s, run) && Refines(net, lim, MoveOn(net, lim, sys, mv), names, Run(net, s, run))
    ensures (!mv.Make? ==> Quiet(run)) && (mv.Turn? ==> run != [])
  {
    hide FlightOf, SystemOk, Named, Run, RunOk, CanMove, MoveOn;
    match mv
    case Make(n, op) => run := MakeRefines(net, lim, sys, names, s, n, op);
    case Send(n, i, f) =>
      run := [];
      NoActions(net, s);
      SendRefines(net, lim, sys, names, s, n, i, f);
    case Drop(m) => run := DropRefines(net, lim, sys, names, s, m);
    case Arrive(m) => run := ArriveRefines(net, lim, sys, names, s, m);
    case Turn(n) => run := TurnRefines(net, lim, sys, names, s, n);
  }

  // ---------------------------------------------------------------- runs of the system

  ghost predicate MovesOk(net: Net, lim: Limits, sys: System, moves: seq<Move>)
    requires SystemOk(net, lim, sys)
    decreases |moves|
  {
    moves != [] ==>
      && CanMove(net, sys, moves[0])
      && (MoveKeepsOk(net, lim, sys, moves[0]);
          MovesOk(net, lim, MoveOn(net, lim, sys, moves[0]), moves[1..]))
  }

  ghost function Moves(net: Net, lim: Limits, sys: System, moves: seq<Move>): (r: System)
    requires SystemOk(net, lim, sys) && MovesOk(net, lim, sys, moves)
    ensures SystemOk(net, lim, r)
    decreases |moves|
  {
    if moves == [] then sys else
      MoveKeepsOk(net, lim, sys, moves[0]);
      Moves(net, lim, MoveOn(net, lim, sys, moves[0]), moves[1..])
  }

  function Empty(net: Net): (sys: System)
    ensures forall lim :: SystemOk(net, lim, sys)
  {
    System(map n | n in net :: NewProcess(net[n]), multiset{}, multiset{}, map[], false)
  }

  lemma EmptyRefines(net: Net, lim: Limits, names: seq<Node>)
    requires Named(net, names)
    ensures Refines(net, lim, Empty(net), names, START)
  {
    hide HeldAll;
    SystemShaped(net, lim, Empty(net), names);
    NothingHeld(net, names);
  }

  lemma {:induction false} NothingHeld(net: Net, names: seq<Node>)
    requires Shaped(net, Empty(net).procs, names)
    ensures HeldAll(net, Empty(net).procs, names) == multiset{}
  {
    if names != [] {
      var h := net[names[0]];
      NothingWaits(names[0], h.siblings, NewProcess(h).siblings);
      NothingWaits(names[0], h.forwarders, NewProcess(h).forwarders);
      NothingHeld(net, names[1..]);
    }
  }

  /** Every run of the system is a run of ForwardingRuns. */
  lemma {:induction false} SystemRefines(net: Net, lim: Limits, sys: System, names: seq<Node>, s: State, moves: seq<Move>)
    returns (run: seq<Action>)
    requires Refines(net, lim, sys, names, s) && MovesOk(net, lim, sys, moves)
    ensures RunOk(net, s, run) && Refines(net, lim, Moves(net, lim, sys, moves), names, Run(net, s, run))
    decreases |moves|
  {
    hide FlightOf, Named, Run, RunOk, CanMove, MoveOn;
    if moves == [] {
      run := [];
      NoActions(net, s);
    } else {
      var first := MoveRefines(net, lim, sys, names, s, moves[0]);
      var rest := SystemRefines(net, lim, MoveOn(net, lim, sys, moves[0]), names, Run(net, s, first), moves[1..]);
      RunAppend(net, s, first, rest);
      run := first + rest;
    }
  }

  /**
   In every run of the processes with their bounded queues, whatever is lost or overtaken:
   no operation is applied twice by a node, or by its originator.
   */
  lemma SystemAppliesOnce(net: Net, site: map<Node, nat>, lim: Limits, names: seq<Node>, moves: seq<Move>, id: nat, n: Node)
    requires Deployed(net, site) && Named(net, names) && MovesOk(net, lim, Empty(net), moves)
    ensures var sys := Moves(net, lim, Empty(net), moves);
            && sys.applied[Event(id, n)] <= 1
            && (id in sys.origin && sys.origin[id].node == n ==> sys.applied[Event(id, n)] == 0)
  {
    hide Deployed, FlightOf, SystemOk, Named, Run, RunOk, MovesOk, Moves, Empty;
    EmptyRefines(net, lim, names);
    var run := SystemRefines(net, lim, Empty(net), names, START, moves);
    NoDuplicates(net, site, run, id, n);
  }

  /**
   And once no queue holds a message and none is on the wire, with no queue ever full and
   nothing dropped, every operation has been applied exactly once by exactly the nodes it is
   to be delivered to.
   */
  lemma SystemDelivers(net: Net, site: map<Node, nat>, lim: Limits, names: seq<Node>, moves: seq<Move>, id: nat, n: Node)
    requires Deployed(net, site) && Named(net, names) && MovesOk(net, lim, Empty(net), moves)
    requires var sys := Moves(net, lim, Empty(net), moves);
             !sys.lost && FlightOf(net, lim, sys, names) == multiset{} && id in sys.origin
    ensures var sys := Moves(net, lim, Empty(net), moves);
            && sys.origin[id].node in net
            && sys.applied[Event(id, n)] == if Delivered(net, sys.origin[id].node, sys.origin[id].op.kind, n) then 1 else 0
  {
    hide Deployed, FlightOf, SystemOk, Named, Run, RunOk, MovesOk, Moves, Empty, Delivered;
    EmptyRefines(net, lim, names);
    var run := SystemRefines(net, lim, Empty(net), names, START, moves);
    var s := Run(net, START, run);
    assert |s.flight| == |multiset(s.flight)| == 0;
    DeliveryIsExact(net, site, run, id, n);
  }
}
