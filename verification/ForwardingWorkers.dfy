/**
 The queues of one process: received messages wait in a bounded queue for a worker,
 and each sibling has a bounded queue of packets to send.  A full queue drops what is
 offered to it.
 */
module ForwardingWorkers {

  import opened Basics
  import opened Forwarding

  datatype Item = Item(src: Node, op: Op, forwarded: bool)

  function Offer<T>(queue: seq<T>, max: nat, x: T): (r: seq<T>)
    ensures r == queue || r == queue + [x]
    ensures |queue| <= max ==> |r| <= max
  {
    if |queue| >= max then queue else queue + [x]
  }

  /** The packet that replicateOperation or the forwarder's worker makes for a link, if any. */
  function PacketFor(key: string, l: Link, op: Op, toForwarders: bool): (w: Option<Wire>)
  {
    if !toForwarders then Some(SiblingWire(key, l, op, false))
    else if Wanted(l, op.kind) then Some(ForwardWire(key, l, op))
    else None
  }

  function OfferAll(key: string, links: seq<Link>, queues: seq<seq<Wire>>, max: nat, op: Op, toForwarders: bool): (r: seq<seq<Wire>>)
    requires |queues| == |links|
    ensures |r| == |links|
  {
    if links == [] then [] else
      var w := PacketFor(key, links[0], op, toForwarders);
      [if w.Some? then Offer(queues[0], max, w.value) else queues[0]]
      + OfferAll(key, links[1..], queues[1..], max, op, toForwarders)
  }

  /** The messages waiting in the queues whose thread sends. */
  function Waiting(n: Node, links: seq<Link>, queues: seq<seq<Wire>>): (ms: multiset<Msg>)
    requires |queues| == |links|
  {
    if links == [] then multiset{} else
      Mine(n, links[0], queues[0]) + Waiting(n, links[1..], queues[1..])
  }

  function Packed(n: Node, dst: Node, wires: seq<Wire>): (ms: multiset<Msg>)
  {
    if wires == [] then multiset{} else Packed(n, dst, wires[..|wires| - 1]) + multiset{Msg(n, dst, wires[|wires| - 1])}
  }

  function Fanned(n: Node, key: string, links: seq<Link>, op: Op, toForwarders: bool): (ms: seq<Msg>)
  {
    if toForwarders then ToForwarders(n, key, links, op) else ToSiblings(n, key, links, op, false)
  }

  predicate Room(links: seq<Link>, queues: seq<seq<Wire>>, max: nat)
    requires |queues| == |links|
  {
    links != [] ==> (links[0].sends ==> |queues[0]| < max) && Room(links[1..], queues[1..], max)
  }

  function Mine(n: Node, l: Link, queue: seq<Wire>): (ms: multiset<Msg>)
  {
    if l.sends then Packed(n, l.dst, queue) else multiset{}
  }

  function Packet(n: Node, l: Link, w: Option<Wire>): (ms: seq<Msg>)
  {
    if l.sends && w.Some? then [Msg(n, l.dst, w.value)] else []
  }

  lemma OfferOne(n: Node, l: Link, queue: seq<Wire>, max: nat, w: Option<Wire>)
    ensures var after := if w.Some? then Offer(queue, max, w.value) else queue;
            && Mine(n, l, queue) <= Mine(n, l, after) <= Mine(n, l, queue) + multiset(Packet(n, l, w))
            && ((l.sends ==> |queue| < max) ==> Mine(n, l, after) == Mine(n, l, queue) + multiset(Packet(n, l, w)))
  {
    if w.Some? {
      assert (queue + [w.value])[..|queue|] == queue;
    }
  }

  lemma FannedStep(n: Node, key: string, links: seq<Link>, op: Op, toForwarders: bool)
    ensures links == [] ==> Fanned(n, key, links, op, toForwarders) == []
    ensures links != [] ==>
              var w := PacketFor(key, links[0], op, toForwarders);
              Fanned(n, key, links, op, toForwarders) == Packet(n, links[0], w) + Fanned(n, key, links[1..], op, toForwarders)
  {
    hide SiblingWire, ForwardWire, Wanted;
  }

  /** What the queues gain is what the node sends on; only a full queue loses any of it. */
  lemma {:induction false} OfferAllSends(n: Node, key: string, links: seq<Link>, queues: seq<seq<Wire>>, max: nat, op: Op, toForwarders: bool)
    requires |queues| == |links|
    ensures var after := Waiting(n, links, OfferAll(key, links, queues, max, op, toForwarders));
            var sent := multiset(Fanned(n, key, links, op, toForwarders));
            && Waiting(n, links, queues) <= after <= Waiting(n, links, queues) + sent
            && (Room(links, queues, max) ==> after == Waiting(n, links, queues) + sent)
  {
    hide PacketFor, Fanned, Packet, Offer, Mine;
    FannedStep(n, key, links, op, toForwarders);
    if links == [] {
    } else {
      OfferAllSends(n, key, links[1..], queues[1..], max, op, toForwarders);
      var r := OfferAll(key, links, queues, max, op, toForwarders);
      assert r[1..] == OfferAll(key, links[1..], queues[1..], max, op, toForwarders);
      var w := PacketFor(key, links[0], op, toForwarders);
      OfferOne(n, links[0], queues[0], max, w);
      var first, rest := Packet(n, links[0], w), Fanned(n, key, links[1..], op, toForwarders);
      assert multiset(first + rest) == multiset(first) + multiset(rest);
    }
  }

  lemma OfferAllStep(key: string, links: seq<Link>, queues: seq<seq<Wire>>, max: nat, op: Op, toForwarders: bool, i: nat)
    requires |queues| == |links| && i < |links|
    ensures var w := PacketFor(key, links[i], op, toForwarders);
            OfferAll(key, links[i..], queues[i..], max, op, toForwarders)
            == [if w.Some? then Offer(queues[i], max, w.value) else queues[i]]
               + OfferAll(key, links[i + 1..], queues[i + 1..], max, op, toForwarders)
  {
    hide PacketFor, Offer;
    assert links[i..][1..] == links[i + 1..] && queues[i..][1..] == queues[i + 1..];
  }

  lemma OfferNone(key: string, max: nat, op: Op, toForwarders: bool)
    ensures OfferAll(key, [], [], max, op, toForwarders) == []
  {
  }

  // ---------------------------------------------------------------- one process

  /** The queues of a process: received messages, and packets for each sibling and forward destination. */
  datatype Process = Process(queue: seq<Item>, siblings: seq<seq<Wire>>, forwarders: seq<seq<Wire>>)

  datatype Limits = Limits(receive: nat, send: nat)

  predicate ProcessOk(h: Host, lim: Limits, p: Process)
  {
    |p.siblings| == |h.siblings| && |p.forwarders| == |h.forwarders| && |p.queue| <= lim.receive
  }

  function NewProcess(h: Host): (p: Process)
  {
    Process([], seq(|h.siblings|, i => []), seq(|h.forwarders|, i => []))
  }

  /** An accepted message is queued unless the queue is full. */
  function Received(self: Node, h: Host, lim: Limits, p: Process, m: Msg): (r: Process)
    ensures ProcessOk(h, lim, p) ==> ProcessOk(h, lim, r)
  {
    if Accepts(map[self := h], m) then p.(queue := Offer(p.queue, lim.receive, Item(m.src, m.wire.op, m.wire.forwarded))) else p
  }

  /** One turn of the worker: a forwarder queues what it is to send on, a node nothing. */
  function Worked(h: Host, lim: Limits, p: Process): (r: Process)
    requires ProcessOk(h, lim, p) && p.queue != []
    ensures ProcessOk(h, lim, r)
  {
    var item, rest := p.queue[0], p.(queue := p.queue[1..]);
    if !h.isForwarder then rest
    else if item.forwarded then rest.(siblings := OfferAll(h.key, h.siblings, p.siblings, lim.send, item.op, false))
    else rest.(forwarders := OfferAll(h.key, h.forwarders, p.forwarders, lim.send, item.op, true))
  }

  class Worker {
    const self: Node
    const host: Host
    const lim: Limits
    var queue: seq<Item>
    var siblingQueues: seq<seq<Wire>>
    var forwarderQueues: seq<seq<Wire>>

    function Value(): (p: Process)
      reads this
    {
      Process(queue, siblingQueues, forwarderQueues)
    }

    predicate Valid()
      reads this
    {
      ProcessOk(host, lim, Value())
    }

    constructor (self: Node, host: Host, lim: Limits)
      ensures Valid() && this.self == self && this.host == host && this.lim == lim && Value() == NewProcess(host)
    {
      this.self, this.host, this.lim := self, host, lim;
      queue := [];
      siblingQueues := seq(|host.siblings|, i => []);
      forwarderQueues := seq(|host.forwarders|, i => []);
    }

    /** checkConnFromSibling, decryptMsg and parseReceivedReplicationMsg. */
    method Receive(m: Msg)
      requires Valid() && m.dst == self
      modifies this`queue
      ensures Valid() && Value() == Received(self, host, lim, old(Value()), m)
    {
      var known := false;
      for i := 0 to |host.siblings|
        invariant known <==> exists l | l in host.siblings[..i] :: l.dst == m.src
      {
        if host.siblings[i].dst == m.src { known := true; }
        assert host.siblings[..i + 1] == host.siblings[..i] + [host.siblings[i]];
      }
      assert host.siblings[..|host.siblings|] == host.siblings;
      if !known && host.isForwarder && m.src in host.sources { known := true; }
      if !known { return; }
      if !m.wire.Sealed? || m.wire.key != host.key { return; }
      if |queue| >= lim.receive { return; }
      queue := queue + [Item(m.src, m.wire.op, m.wire.forwarded)];
    }

    /** replicateOperation, or the loop over the forward destinations. */
    method Fan(links: seq<Link>, queues: seq<seq<Wire>>, op: Op, toForwarders: bool) returns (r: seq<seq<Wire>>)
      requires |queues| == |links|
      ensures r == OfferAll(host.key, links, queues, lim.send, op, toForwarders)
    {
      hide PacketFor, Offer, OfferAll;
      r := [];
      assert links[0..] == links && queues[0..] == queues;
      for i := 0 to |links|
        invariant |r| == i
        invariant r + OfferAll(host.key, links[i..], queues[i..], lim.send, op, toForwarders)
               == OfferAll(host.key, links, queues, lim.send, op, toForwarders)
      {
        OfferAllStep(host.key, links, queues, lim.send, op, toForwarders, i);
        ghost var rest := OfferAll(host.key, links[i + 1..], queues[i + 1..], lim.send, op, toForwarders);
        var w := PacketFor(host.key, links[i], op, toForwarders);
        var q := queues[i];
        if w.Some? { q := Offer(q, lim.send, w.value); }
        assert r + ([q] + rest) == (r + [q]) + rest;
        r := r + [q];
      }
      assert links[|links|..] == [] && queues[|links|..] == [];
      OfferNone(host.key, lim.send, op, toForwarders);
    }

    /** One turn of the worker; a wforce node applies the operation. */
    method Work() returns (applied: Option<Op>)
      requires Valid() && queue != []
      modifies this`queue, this`siblingQueues, this`forwarderQueues
      ensures Valid() && Value() == Worked(host, lim, old(Value()))
      ensures applied == if host.isForwarder then None else Some(old(queue)[0].op)
    {
      hide OfferAll;
      var item := queue[0];
      queue := queue[1..];
      applied := None;
      if !host.isForwarder {
        applied := Some(item.op);
      } else if item.forwarded {
        siblingQueues := Fan(host.siblings, siblingQueues, item.op, false);
      } else {
        forwarderQueues := Fan(host.forwarders, forwarderQueues, item.op, true);
      }
    }

    /** replicateOperation of a wforce node's own operation. */
    method Replicate(op: Op)
      requires Valid()
      modifies this`siblingQueues
      ensures Valid() && Value() == old(Value()).(siblings := OfferAll(host.key, host.siblings, old(siblingQueues), lim.send, op, false))
    {
      hide OfferAll;
      siblingQueues := Fan(host.siblings, siblingQueues, op, false);
    }
  }

  lemma {:induction false} NothingWaits(n: Node, links: seq<Link>, queues: seq<seq<Wire>>)
    requires |queues| == |links| && forall q | q in queues :: q == []
    ensures Waiting(n, links, queues) == multiset{}
  {
    if links == [] {
    } else {
      assert queues[0] in queues;
      forall q | q in queues[1..] ensures q == [] { assert q in queues; }
      NothingWaits(n, links[1..], queues[1..]);
    }
  }

  /** The worker's turn and Respond agree on what a forwarder sends on. */
  lemma WorkIsRespond(net: Net, m: Msg)
    requires Accepts(net, m) && net[m.dst].isForwarder
    ensures var h := net[m.dst];
            Respond(net, m) == Fanned(m.dst, h.key, if m.wire.forwarded then h.siblings else h.forwarders, m.wire.op, !m.wire.forwarded)
  {
  }
}
