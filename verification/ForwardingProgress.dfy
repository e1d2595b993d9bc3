/**
 Progress of the processes with their bounded queues: without new operations every run of
 the system ends, and it ends exactly when nothing is on the wire or in any queue.
 */
module ForwardingProgress {

  import opened Basics
  import opened Forwarding
  import opened ForwardingRuns
  import opened ForwardingWorkers
  import opened ForwardingSystem
  import S = ForwardingSystem

  // ---------------------------------------------------------------- packets in the send queues

  function Lengths(queues: seq<seq<Wire>>): (k: nat)
  {
    if queues == [] then 0 else |queues[0]| + Lengths(queues[1..])
  }

  function PacketsOf(p: Process): (k: nat)
  {
    Lengths(p.siblings) + Lengths(p.forwarders)
  }

  function Packets(procs: map<Node, Process>, names: seq<Node>): (k: nat)
    requires forall n | n in names :: n in procs
  {
    if names == [] then 0 else PacketsOf(procs[names[0]]) + Packets(procs, names[1..])
  }

  lemma {:induction false} PopShortens(queues: seq<seq<Wire>>, i: nat)
    requires i < |queues| && queues[i] != []
    ensures Lengths(queues) == Lengths(queues[i := queues[i][1..]]) + 1
  {
    var after := queues[i := queues[i][1..]];
    if i == 0 {
      assert after[1..] == queues[1..];
    } else {
      PopShortens(queues[1..], i - 1);
      assert after[1..] == queues[1..][i - 1 := queues[1..][i - 1][1..]];
    }
  }

  lemma {:induction false} OfferLengthens(key: string, links: seq<Link>, queues: seq<seq<Wire>>, max: nat, op: Op, f: bool)
    requires |queues| == |links|
    ensures Lengths(OfferAll(key, links, queues, max, op, f)) <= Lengths(queues) + |links|
  {
    hide PacketFor;
    if links == [] {
    } else {
      OfferLengthens(key, links[1..], queues[1..], max, op, f);
      var r := OfferAll(key, links, queues, max, op, f);
      assert r[1..] == OfferAll(key, links[1..], queues[1..], max, op, f);
    }
  }

  lemma {:induction false} PacketsElsewhere(procs: map<Node, Process>, names: seq<Node>, n: Node, p: Process)
    requires (forall x | x in names :: x in procs) && n !in names
    ensures Packets(procs[n := p], names) == Packets(procs, names)
  {
    if names != [] {
      PacketsElsewhere(procs, names[1..], n, p);
    }
  }

  lemma {:induction false} PacketsUpdated(procs: map<Node, Process>, names: seq<Node>, n: Node, p: Process)
    requires (forall x | x in names :: x in procs) && Distinct(names) && n in names
    ensures Packets(procs[n := p], names) + PacketsOf(procs[n]) == Packets(procs, names) + PacketsOf(p)
  {
    hide PacketsOf;
    if names[0] == n {
      PacketsElsewhere(procs, names[1..], n, p);
    } else {
      PacketsUpdated(procs, names[1..], n, p);
    }
  }

  // ---------------------------------------------------------------- what is left to do

  /** The number of links in the deployment. */
  function LinkCount(net: Net, names: seq<Node>): (k: nat)
    requires forall n | n in names :: n in net
  {
    if names == [] then 0 else
      |net[names[0]].siblings| + |net[names[0]].forwarders| + LinkCount(net, names[1..])
  }

  lemma {:induction false} LinksOfOne(net: Net, names: seq<Node>, n: Node)
    requires (forall x | x in names :: x in net) && n in names
    ensures |net[n].siblings| + |net[n].forwarders| <= LinkCount(net, names)
  {
    if names[0] != n {
      LinksOfOne(net, names[1..], n);
    }
  }

  /**
   A bound on the moves to come.  Every packet is still to be sent and, if it is, to arrive;
   every delivery that the messages in flight can cause is a turn that queues at most one packet
   for every link.
   */
  ghost function Potential(net: Net, site: map<Node, nat>, sys: System, names: seq<Node>, s: State): (p: nat)
    requires Deployed(net, site) && forall n | n in names :: n in sys.procs && n in net
  {
    Scale(2 * LinkCount(net, names) + 1, WorkAll(net, site, s.flight, 3)) + 2 * Packets(sys.procs, names) + |sys.wire|
  }

  function Scale(c: nat, a: nat): (p: nat)
  {
    if a == 0 then 0 else Scale(c, a - 1) + c
  }

  /** How a move changes the packets and the wire. */
  lemma SendPackets(net: Net, lim: Limits, sys: System, names: seq<Node>, n: Node, i: nat, f: bool)
    requires SystemOk(net, lim, sys) && Named(net, names) && CanMove(net, sys, Send(n, i, f))
    ensures var r := SendOn(net, lim, sys, n, i, f);
            && (forall x | x in names :: x in sys.procs && x in r.procs)
            && Packets(r.procs, names) + 1 == Packets(sys.procs, names) && |r.wire| <= |sys.wire| + 1
  {
    hide Packets, Lengths, QueueOk;
    var qs, r := QueuesOf(sys.procs[n], f), SendOn(net, lim, sys, n, i, f);
    PopShortens(qs, i);
    PacketsUpdated(sys.procs, names, n, r.procs[n]);
  }

  lemma ArrivePackets(net: Net, lim: Limits, sys: System, names: seq<Node>, m: Msg)
    requires SystemOk(net, lim, sys) && Named(net, names) && CanMove(net, sys, Arrive(m))
    ensures var r := ArriveOn(net, lim, sys, m);
            && (forall x | x in names :: x in sys.procs && x in r.procs)
            && Packets(r.procs, names) == Packets(sys.procs, names) && |r.wire| + 1 == |sys.wire|
  {
    hide Packets, QueueOk, Accepts;
    var r := ArriveOn(net, lim, sys, m);
    if m.dst in sys.procs {
      PacketsUpdated(sys.procs, names, m.dst, r.procs[m.dst]);
    }
  }

  lemma TurnPackets(net: Net, lim: Limits, sys: System, names: seq<Node>, n: Node)
    requires SystemOk(net, lim, sys) && Named(net, names) && CanMove(net, sys, Turn(n))
    ensures var r := TurnOn(net, lim, sys, n);
            && (forall x | x in names :: x in net && x in sys.procs && x in r.procs)
            && Packets(r.procs, names) <= Packets(sys.procs, names) + LinkCount(net, names) && r.wire == sys.wire
  {
    hide Packets, Lengths, OfferAll, QueueOk, Room, LinkCount;
    var h, p, r := net[n], sys.procs[n], TurnOn(net, lim, sys, n);
    LinksOfOne(net, names, n);
    OfferLengthens(h.key, h.siblings, p.siblings, lim.send, p.queue[0].op, false);
    OfferLengthens(h.key, h.forwarders, p.forwarders, lim.send, p.queue[0].op, true);
    PacketsUpdated(sys.procs, names, n, r.procs[n]);
  }

  lemma {:induction false} Scaled(c: nat, a: nat, b: nat)
    requires a <= b
    ensures Scale(c, a) <= Scale(c, b) && (a < b ==> Scale(c, a) + c <= Scale(c, b))
  {
    if a < b {
      Scaled(c, a, b - 1);
    }
  }

  /** Every move but a new operation leaves less to do. */
  lemma {:induction false} MoveLeavesLess(net: Net, site: map<Node, nat>, lim: Limits, sys: System, names: seq<Node>, s: State, mv: Move)
    returns (u: State)
    requires Deployed(net, site) && Refines(net, lim, sys, names, s) && CanMove(net, sys, mv) && !mv.Make?
    ensures var r := MoveOn(net, lim, sys, mv);
            && Refines(net, lim, r, names, u) && (forall n | n in names :: n in net && n in sys.procs && n in r.procs)
            && Potential(net, site, r, names, u) < Potential(net, site, sys, names, s)
  {
    hide Deployed, FlightOf, WorkAll, Packets, LinkCount, Scale, Run, RunOk, SendOn, ArriveOn, TurnOn;
    var run := MoveRefines(net, lim, sys, names, s, mv);
    u := Run(net, s, run);
    DeliveryTerminates(net, site, s, run);
    Scaled(2 * LinkCount(net, names) + 1, WorkAll(net, site, u.flight, 3), WorkAll(net, site, s.flight, 3));
    match mv
    case Send(n, i, f) => SendPackets(net, lim, sys, names, n, i, f);
    case Drop(m) =>
    case Arrive(m) => ArrivePackets(net, lim, sys, names, m);
    case Turn(n) => TurnPackets(net, lim, sys, names, n);
  }

  predicate Working(moves: seq<Move>)
  {
    forall mv | mv in moves :: !mv.Make?
  }

  /** Without new operations no run of the system is longer than what is left to do at its start. */
  lemma {:induction false} SystemTerminates(net: Net, site: map<Node, nat>, lim: Limits, sys: System, names: seq<Node>,
                                            s: State, moves: seq<Move>)
    requires Deployed(net, site) && Refines(net, lim, sys, names, s)
    requires MovesOk(net, lim, sys, moves) && Working(moves)
    ensures (forall n | n in names :: n in net && n in sys.procs) && |moves| <= Potential(net, site, sys, names, s)
    decreases |moves|
  {
    hide Deployed, Potential, FlightOf, CanMove, MoveOn;
    if moves == [] {
    } else {
      var u := MoveLeavesLess(net, site, lim, sys, names, s, moves[0]);
      SystemTerminates(net, site, lim, MoveOn(net, lim, sys, moves[0]), names, u, moves[1..]);
    }
  }

  // ---------------------------------------------------------------- a move is possible

  /** No packet or message waits in a process, not even for a link that does not send. */
  predicate Quiescent(p: Process)
  {
    p.queue == [] && (forall q | q in p.siblings :: q == []) && (forall q | q in p.forwarders :: q == [])
  }

  /** Nothing is on the wire or in any queue. */
  predicate Drained(sys: System)
  {
    sys.wire == multiset{} && forall n | n in sys.procs :: Quiescent(sys.procs[n])
  }

  /** A process with something in a queue can send or work. */
  lemma BusyCanMove(net: Net, sys: System, n: Node) returns (mv: Move)
    requires n in sys.procs && !Quiescent(sys.procs[n])
    ensures CanMove(net, sys, mv) && !mv.Make? && !mv.Drop?
  {
    var p := sys.procs[n];
    if p.queue != [] {
      mv := Turn(n);
    } else if q :| q in p.siblings && q != [] {
      var i := Position(p.siblings, q);
      mv := Send(n, i, false);
    } else {
      var q :| q in p.forwarders && q != [];
      var i := Position(p.forwarders, q);
      mv := Send(n, i, true);
    }
  }

  lemma Position(queues: seq<seq<Wire>>, q: seq<Wire>) returns (i: nat)
    requires q in queues
    ensures i < |queues| && queues[i] == q
  {
    i :| 0 <= i < |queues| && queues[i] == q;
  }

  /** Until all is drained, a message can arrive, be sent or be worked on. */
  lemma UndrainedCanMove(net: Net, sys: System) returns (mv: Move)
    requires !Drained(sys)
    ensures CanMove(net, sys, mv) && !mv.Make? && !mv.Drop?
  {
    hide Quiescent;
    if sys.wire != multiset{} {
      var m :| m in sys.wire;
      mv := Arrive(m);
    } else {
      var n :| n in sys.procs && !Quiescent(sys.procs[n]);
      mv := BusyCanMove(net, sys, n);
    }
  }

  /** Then nothing is in flight. */
  lemma DrainedFlight(net: Net, lim: Limits, sys: System, names: seq<Node>)
    requires SystemOk(net, lim, sys) && Named(net, names) && Drained(sys)
    ensures FlightOf(net, lim, sys, names) == multiset{}
  {
    hide Held, HeldAll, QueueOk, Quiescent;
    SystemShaped(net, lim, sys, names);
    NoneHeld(net, sys.procs, names);
  }

  lemma {:induction false} NoneHeld(net: Net, procs: map<Node, Process>, names: seq<Node>)
    requires Shaped(net, procs, names) && forall n | n in names :: Quiescent(procs[n])
    ensures HeldAll(net, procs, names) == multiset{}
  {
    hide Held, Quiescent;
    if names != [] {
      QuiescentHolds(names[0], net[names[0]], procs[names[0]]);
      NoneHeld(net, procs, names[1..]);
    }
  }

  lemma QuiescentHolds(n: Node, h: Host, p: Process)
    requires |p.siblings| == |h.siblings| && |p.forwarders| == |h.forwarders| && Quiescent(p)
    ensures Held(n, h, p) == multiset{}
  {
    NothingWaits(n, h.siblings, p.siblings);
    NothingWaits(n, h.forwarders, p.forwarders);
  }

  /** A run is drained if and only if no move but a new operation can continue it. */
  lemma StuckIsDrained(net: Net, sys: System)
    ensures Drained(sys) <==> forall mv | CanMove(net, sys, mv) :: mv.Make?
  {
    hide Quiescent;
    if Drained(sys) {
      forall mv | CanMove(net, sys, mv)
        ensures mv.Make?
      {
        if mv.Send? || mv.Turn? {
          BusyProcess(net, sys, mv);
        }
      }
    } else {
      var mv := UndrainedCanMove(net, sys);
    }
  }

  lemma BusyProcess(net: Net, sys: System, mv: Move)
    requires CanMove(net, sys, mv) && (mv.Send? || mv.Turn?)
    ensures mv.node in sys.procs && !Quiescent(sys.procs[mv.node])
  {
    if mv.Send? {
      var qs := QueuesOf(sys.procs[mv.node], mv.toForwarders);
      assert qs[mv.index] in qs;
    }
  }

  // ---------------------------------------------------------------- draining

  /** Neither new operations nor losses on the wire. */
  predicate Draining(moves: seq<Move>)
  {
    forall mv | mv in moves :: !mv.Make? && !mv.Drop?
  }

  /** From every state, messages that arrive, are worked on and are sent drain the system. */
  lemma {:induction false} CanDrain(net: Net, site: map<Node, nat>, lim: Limits, sys: System, names: seq<Node>, s: State)
    returns (moves: seq<Move>)
    requires Deployed(net, site) && Refines(net, lim, sys, names, s)
    ensures MovesOk(net, lim, sys, moves) && Draining(moves)
    ensures Drained(Moves(net, lim, sys, moves))
    decreases Potential(net, site, sys, names, s)
  {
    hide Deployed, Potential, FlightOf, CanMove, MoveOn, Drained;
    if Drained(sys) {
      moves := [];
    } else {
      var mv := UndrainedCanMove(net, sys);
      var u := MoveLeavesLess(net, site, lim, sys, names, s, mv);
      var rest := CanDrain(net, site, lim, MoveOn(net, lim, sys, mv), names, u);
      moves := [mv] + rest;
      assert moves[0] == mv && moves[1..] == rest;
    }
  }

  lemma {:induction false} MovesAppend(net: Net, lim: Limits, sys: System, a: seq<Move>, b: seq<Move>)
    requires SystemOk(net, lim, sys) && MovesOk(net, lim, sys, a) && MovesOk(net, lim, Moves(net, lim, sys, a), b)
    ensures MovesOk(net, lim, sys, a + b) && Moves(net, lim, sys, a + b) == Moves(net, lim, Moves(net, lim, sys, a), b)
    decreases |a|
  {
    hide MoveOn, CanMove, SystemOk;
    if a == [] {
      assert a + b == b;
    } else {
      MoveKeepsOk(net, lim, sys, a[0]);
      MovesAppend(net, lim, MoveOn(net, lim, sys, a[0]), a[1..], b);
      assert (a + b)[0] == a[0] && (a + b)[1..] == a[1..] + b;
    }
  }

  /** An operation has been applied once by node n if it is to be delivered there, else not at all. */
  ghost predicate Exact(net: Net, sys: System, id: nat, n: Node)
  {
    && id in sys.origin && sys.origin[id].node in net
    && sys.applied[Event(id, n)] == if Delivered(net, sys.origin[id].node, sys.origin[id].op.kind, n) then 1 else 0
  }

  /**
   Whatever a deployment has done, it can be drained; and if no queue was full and nothing
   dropped until then, every operation has been applied exactly once by exactly the nodes it
   is to be delivered to.
   */
  lemma {:induction false} SystemDrainsAndDelivers(net: Net, site: map<Node, nat>, lim: Limits, names: seq<Node>, moves: seq<Move>)
    returns (more: seq<Move>)
    requires Deployed(net, site) && Named(net, names) && MovesOk(net, lim, S.Empty(net), moves)
    ensures Draining(more) && MovesOk(net, lim, S.Empty(net), moves + more)
    ensures var sys := Moves(net, lim, S.Empty(net), moves + more);
            && Drained(sys)
            && (!sys.lost ==> forall id, n | id in sys.origin :: Exact(net, sys, id, n))
  {
    hide Deployed, FlightOf, SystemOk, Named, Run, RunOk, MovesOk, Moves, S.Empty, Delivered, Drained;
    EmptyRefines(net, lim, names);
    var run := SystemRefines(net, lim, S.Empty(net), names, START, moves);
    more := CanDrain(net, site, lim, Moves(net, lim, S.Empty(net), moves), names, Run(net, START, run));
    MovesAppend(net, lim, S.Empty(net), moves, more);
    var sys := Moves(net, lim, S.Empty(net), moves + more);
    DrainedFlight(net, lim, sys, names);
    if !sys.lost {
      forall id, n | id in sys.origin
        ensures Exact(net, sys, id, n)
      {
        SystemDelivers(net, site, lim, names, moves + more, id, n);
      }
    }
  }
}
