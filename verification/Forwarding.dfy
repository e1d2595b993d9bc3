/**
 Replication between nodes and, through forwarders, between sites.  A wforce node
 sends each of its own operations to its siblings and applies what it receives; a
 replication forwarder sends what its siblings produce to the forwarders of other
 sites, marked as forwarded, and what it receives marked to its siblings, unmarked.
 A node is named by its address; an operation carries an identity so that its copies
 can be told apart from another operation's.
 */
module Forwarding {

  type Node = nat

  datatype RepType = SDBType | BlacklistType | WhitelistType

  datatype Op = Op(id: nat, kind: RepType)

  /** A configured Sibling; `sends` is false for one that is ourselves or has no protocol. */
  datatype Link = Link(dst: Node, sends: bool, sdbSend: bool, wlblSend: bool, key: string)

  datatype Host = Host(isForwarder: bool, key: string, siblings: seq<Link>, forwarders: seq<Link>, sources: seq<Node>)

  type Net = map<Node, Host>

  /** What is on the wire: an empty packet, or an operation sealed with a key. */
  datatype Wire = Empty | Sealed(key: string, op: Op, forwarded: bool)

  datatype Msg = Msg(src: Node, dst: Node, wire: Wire)

  predicate HasKey(l: Link)
  {
    l.key != ""
  }

  // ---------------------------------------------------------------- what one node does

  /** replicateOperation seals with the sibling's key when it has another one. */
  function SiblingWire(key: string, l: Link, op: Op, forwarded: bool): (w: Wire)
  {
    if HasKey(l) && l.key != key then Sealed(l.key, op, forwarded) else Sealed(key, op, forwarded)
  }

  /** The worker of the forwarder leaves the packet empty when the keys are equal. */
  function ForwardWire(key: string, l: Link, op: Op): (w: Wire)
  {
    if HasKey(l) then
      if l.key != key then Sealed(l.key, op, true) else Empty
    else Sealed(key, op, true)
  }

  predicate Wanted(l: Link, kind: RepType)
  {
    (l.sdbSend && kind.SDBType?) || (l.wlblSend && (kind.BlacklistType? || kind.WhitelistType?))
  }

  function ToSiblings(n: Node, key: string, links: seq<Link>, op: Op, forwarded: bool): (ms: seq<Msg>)
    ensures forall m | m in ms :: exists l | l in links ::
              l.sends && m == Msg(n, l.dst, SiblingWire(key, l, op, forwarded))
    ensures forall l | l in links && l.sends :: Msg(n, l.dst, SiblingWire(key, l, op, forwarded)) in ms
  {
    if links == [] then [] else
      (if links[0].sends then [Msg(n, links[0].dst, SiblingWire(key, links[0], op, forwarded))] else [])
      + ToSiblings(n, key, links[1..], op, forwarded)
  }

  function ToForwarders(n: Node, key: string, links: seq<Link>, op: Op): (ms: seq<Msg>)
    ensures forall m | m in ms :: exists l | l in links ::
              l.sends && Wanted(l, op.kind) && m == Msg(n, l.dst, ForwardWire(key, l, op))
    ensures forall l | l in links && l.sends && Wanted(l, op.kind) :: Msg(n, l.dst, ForwardWire(key, l, op)) in ms
  {
    if links == [] then [] else
      (if links[0].sends && Wanted(links[0], op.kind) then [Msg(n, links[0].dst, ForwardWire(key, links[0], op))] else [])
      + ToForwarders(n, key, links[1..], op)
  }

  /** checkConnFromSibling, of either program. */
  predicate Knows(h: Host, src: Node)
  {
    (exists l | l in h.siblings :: l.dst == src) || (h.isForwarder && src in h.sources)
  }

  /** The message reaches the worker: the sender is known and the packet opens with our key. */
  predicate Accepts(net: Net, m: Msg)
  {
    m.dst in net && Knows(net[m.dst], m.src) && m.wire.Sealed? && m.wire.key == net[m.dst].key
  }

  /**
   A message is taken up if and only if its sender is one of the receiver's siblings, or of a
   forwarder's sources, and the packet is not empty and sealed with the receiver's key.
   */
  lemma AcceptsIff(net: Net, m: Msg)
    requires m.dst in net
    ensures var h := net[m.dst];
            Accepts(net, m)
            <==> && ((exists i :: 0 <= i < |h.siblings| && h.siblings[i].dst == m.src) || (h.isForwarder && m.src in h.sources))
                 && m.wire != Empty && m.wire.key == h.key
  {
    var h := net[m.dst];
    if i :| 0 <= i < |h.siblings| && h.siblings[i].dst == m.src {
      assert h.siblings[i] in h.siblings;
    }
  }

  predicate Applies(net: Net, m: Msg)
  {
    Accepts(net, m) && !net[m.dst].isForwarder
  }

  function Replicate(net: Net, n: Node, op: Op): (ms: seq<Msg>)
    requires n in net
  {
    ToSiblings(n, net[n].key, net[n].siblings, op, false)
  }

  /** What the receiver of a message sends on. */
  function Respond(net: Net, m: Msg): (ms: seq<Msg>)
  {
    if !Accepts(net, m) || !net[m.dst].isForwarder then []
    else if m.wire.forwarded then Replicate(net, m.dst, m.wire.op)
    else ToForwarders(m.dst, net[m.dst].key, net[m.dst].forwarders, m.wire.op)
  }

  /** A wforce node sends its own operations to each sibling, unmarked, under the sibling's key or its own. */
  lemma ReplicateIff(net: Net, n: Node, op: Op, r: Msg)
    requires n in net
    ensures r in Replicate(net, n, op)
       <==> exists l | l in net[n].siblings ::
              l.sends && r == Msg(n, l.dst, Sealed(if l.key != "" then l.key else net[n].key, op, false))
  {
    hide ToSiblings;
  }

  /**
   What a forwarder sends on, message by message.  An operation of its own site goes over the
   forward links whose switch for its type is on, marked, under the link's key or its own if
   the link has none, and empty if both are equal; one from another site goes to its siblings,
   unmarked.
   */
  lemma RespondIff(net: Net, m: Msg, r: Msg)
    requires Accepts(net, m) && net[m.dst].isForwarder
    ensures var h, op := net[m.dst], m.wire.op;
            r in Respond(net, m)
            <==> if m.wire.forwarded then
                   exists l | l in h.siblings ::
                     l.sends && r == Msg(m.dst, l.dst, Sealed(if l.key != "" then l.key else h.key, op, false))
                 else
                   exists l | l in h.forwarders ::
                     && l.sends && (if op.kind.SDBType? then l.sdbSend else l.wlblSend)
                     && r == Msg(m.dst, l.dst, if l.key == "" then Sealed(h.key, op, true)
                                               else if l.key == h.key then Empty else Sealed(l.key, op, true))
  {
    hide ToSiblings, ToForwarders, Knows;
  }

  // ---------------------------------------------------------------- the deployment

  /** No two links that send have the same destination. */
  predicate DistinctTargets(links: seq<Link>)
  {
    links != [] ==>
      DistinctTargets(links[1..])
      && (links[0].sends ==> forall l | l in links[1..] && l.sends :: l.dst != links[0].dst)
  }

  predicate SiblingsOk(net: Net, site: map<Node, nat>, n: Node)
    requires n in net && net.Keys <= site.Keys
  {
    DistinctTargets(net[n].siblings)
    && forall l | l in net[n].siblings && l.sends ::
         l.dst in net && l.dst != n && site[l.dst] == site[n] && (net[n].isForwarder ==> !net[l.dst].isForwarder)
  }

  predicate ForwardersOk(net: Net, site: map<Node, nat>, n: Node)
    requires n in net && net.Keys <= site.Keys
  {
    DistinctTargets(net[n].forwarders)
    && forall l | l in net[n].forwarders && l.sends :: l.dst in net && net[l.dst].isForwarder && site[l.dst] != site[n]
  }

  /** One forwarder per site, siblings within the site, forward destinations in other sites. */
  predicate Deployed(net: Net, site: map<Node, nat>)
  {
    && net.Keys <= site.Keys
    && (forall n | n in net :: SiblingsOk(net, site, n))
    && (forall n | n in net && net[n].isForwarder :: ForwardersOk(net, site, n))
    && (forall f, g | f in net && g in net && net[f].isForwarder && net[g].isForwarder && site[f] == site[g] :: f == g)
  }

  /** 0 to a wforce node, 1 between forwarders, 2 from a wforce node to its forwarder. */
  function Rank(net: Net, m: Msg): (r: nat)
    ensures r <= 2
  {
    if !Accepts(net, m) || !net[m.dst].isForwarder then 0
    else if m.wire.forwarded then 1 else 2
  }

  /** A message gives rise only to messages of smaller rank, with the same operation. */
  lemma RanksDecrease(net: Net, site: map<Node, nat>, m: Msg)
    requires Deployed(net, site)
    ensures forall r | r in Respond(net, m) :: Rank(net, r) < Rank(net, m)
    ensures forall r | r in Respond(net, m) && r.wire.Sealed? :: r.wire.op == m.wire.op
  {
    if Accepts(net, m) && net[m.dst].isForwarder {
      assert SiblingsOk(net, site, m.dst) && ForwardersOk(net, site, m.dst);
    }
  }

  // ---------------------------------------------------------------- what a message leads to

  /** Count every arrival of an operation at a node, or only those that are applied. */
  datatype Count = Arrivals | Applications

  function Own(net: Net, c: Count, m: Msg, id: nat, n: Node): (k: nat)
  {
    if m.dst == n && m.wire.Sealed? && m.wire.op.id == id && (c.Arrivals? || Applies(net, m)) then 1 else 0
  }

  /** How often operation `id` will arrive at `n` because of m, if nothing is lost. */
  ghost function Hits(net: Net, site: map<Node, nat>, c: Count, m: Msg, id: nat, n: Node): (k: nat)
    requires Deployed(net, site)
    decreases Rank(net, m), 1, 0
  {
    RanksDecrease(net, site, m);
    Own(net, c, m, id, n) + HitsAll(net, site, c, Respond(net, m), id, n, Rank(net, m))
  }

  ghost function HitsAll(net: Net, site: map<Node, nat>, c: Count, ms: seq<Msg>, id: nat, n: Node, bound: nat): (k: nat)
    requires Deployed(net, site) && forall m | m in ms :: Rank(net, m) < bound
    decreases bound, 0, |ms|
  {
    if ms == [] then 0
    else Hits(net, site, c, ms[0], id, n) + HitsAll(net, site, c, ms[1..], id, n, bound)
  }

  /** All messages in flight have rank at most 2. */
  ghost function Total(net: Net, site: map<Node, nat>, c: Count, ms: seq<Msg>, id: nat, n: Node): (k: nat)
    requires Deployed(net, site)
  {
    HitsAll(net, site, c, ms, id, n, 3)
  }

  lemma {:induction false} BoundIrrelevant(net: Net, site: map<Node, nat>, c: Count, ms: seq<Msg>, id: nat, n: Node, bound: nat)
    requires Deployed(net, site) && forall m | m in ms :: Rank(net, m) < bound
    ensures HitsAll(net, site, c, ms, id, n, bound) == Total(net, site, c, ms, id, n)
    decreases |ms|
  {
    hide Deployed, Hits, Rank;
    if ms == [] {
    } else {
      BoundIrrelevant(net, site, c, ms[1..], id, n, bound);
    }
  }

  /** A message counts for itself and for what its receiver sends on. */
  lemma HitsStep(net: Net, site: map<Node, nat>, c: Count, m: Msg, id: nat, n: Node)
    requires Deployed(net, site)
    ensures Hits(net, site, c, m, id, n) == Own(net, c, m, id, n) + Total(net, site, c, Respond(net, m), id, n)
  {
    hide Deployed, Own, Respond, Rank, HitsAll;
    RanksDecrease(net, site, m);
    BoundIrrelevant(net, site, c, Respond(net, m), id, n, Rank(net, m));
  }

  lemma {:induction false} TotalConcat(net: Net, site: map<Node, nat>, c: Count, a: seq<Msg>, b: seq<Msg>, id: nat, n: Node)
    requires Deployed(net, site)
    ensures Total(net, site, c, a + b, id, n) == Total(net, site, c, a, id, n) + Total(net, site, c, b, id, n)
    decreases |a|
  {
    hide Deployed, Hits, Rank;
    if a == [] {
      assert a + b == b;
    } else {
      TotalConcat(net, site, c, a[1..], b, id, n);
      assert (a + b)[0] == a[0] && (a + b)[1..] == a[1..] + b;
    }
  }

  // ---------------------------------------------------------------- at most one copy

  lemma {:induction false} TotalPositive(net: Net, site: map<Node, nat>, c: Count, ms: seq<Msg>, id: nat, n: Node)
    requires Deployed(net, site)
    ensures Total(net, site, c, ms, id, n) > 0 <==> exists m | m in ms :: Hits(net, site, c, m, id, n) > 0
    decreases |ms|
  {
    hide Deployed, Hits, Rank;
    if ms == [] {
    } else {
      TotalPositive(net, site, c, ms[1..], id, n);
      if m :| m in ms[1..] && Hits(net, site, c, m, id, n) > 0 {
        assert m in ms;
      }
      if m :| m in ms && Hits(net, site, c, m, id, n) > 0 {
        assert m == ms[0] || m in ms[1..];
      }
      if Hits(net, site, c, ms[0], id, n) > 0 {
        assert ms[0] in ms;
      }
    }
  }

  predicate DistinctDst(ms: seq<Msg>)
  {
    ms != [] ==> DistinctDst(ms[1..]) && forall m | m in ms[1..] :: m.dst != ms[0].dst
  }

  /** A fan-out with distinct destinations, of which only one can lead to `n`. */
  lemma {:induction false} FanOutAtMostOnce(net: Net, site: map<Node, nat>, c: Count, ms: seq<Msg>, id: nat, n: Node)
    requires Deployed(net, site) && DistinctDst(ms)
    requires forall m | m in ms :: Hits(net, site, c, m, id, n) <= 1
    requires forall m, m' | m in ms && m' in ms && Hits(net, site, c, m, id, n) > 0 && Hits(net, site, c, m', id, n) > 0 ::
               m.dst == m'.dst
    ensures Total(net, site, c, ms, id, n) <= 1
    decreases |ms|
  {
    hide Deployed, Hits, Rank;
    if ms == [] {
    } else {
      assert ms == [ms[0]] + ms[1..];
      FanOutAtMostOnce(net, site, c, ms[1..], id, n);
      if Hits(net, site, c, ms[0], id, n) > 0 {
        TotalPositive(net, site, c, ms[1..], id, n);
      }
    }
  }

  lemma {:induction false} SiblingsDistinct(n: Node, key: string, links: seq<Link>, op: Op, forwarded: bool)
    requires DistinctTargets(links)
    ensures DistinctDst(ToSiblings(n, key, links, op, forwarded))
  {
    if links == [] {
    } else {
      SiblingsDistinct(n, key, links[1..], op, forwarded);
      var rest := ToSiblings(n, key, links[1..], op, forwarded);
      if links[0].sends {
        var ms := ToSiblings(n, key, links, op, forwarded);
        assert ms[1..] == rest;
      } else {
        assert [] + rest == rest;
      }
    }
  }

  lemma {:induction false} ForwardersDistinct(n: Node, key: string, links: seq<Link>, op: Op)
    requires DistinctTargets(links)
    ensures DistinctDst(ToForwarders(n, key, links, op))
  {
    if links == [] {
    } else {
      ForwardersDistinct(n, key, links[1..], op);
      var rest := ToForwarders(n, key, links[1..], op);
      if links[0].sends && Wanted(links[0], op.kind) {
        var ms := ToForwarders(n, key, links, op);
        assert ms[1..] == rest;
      } else {
        assert [] + rest == rest;
      }
    }
  }

  /** A message that is not passed on counts for its receiver only. */
  lemma LastHop(net: Net, site: map<Node, nat>, c: Count, m: Msg, id: nat, n: Node)
    requires Deployed(net, site) && (m.dst in net ==> !net[m.dst].isForwarder)
    ensures Hits(net, site, c, m, id, n) == Own(net, c, m, id, n)
  {
    hide Deployed, Own, HitsAll;
    HitsStep(net, site, c, m, id, n);
    assert Respond(net, m) == [];
    assert Total(net, site, c, [], id, n) == 0 by { TotalPositive(net, site, c, [], id, n); }
  }

  /** A forwarder reaches each wforce node of its site at most once, and nothing else. */
  lemma FromForwarder(net: Net, site: map<Node, nat>, c: Count, g: Node, op: Op, id: nat, n: Node)
    requires Deployed(net, site) && g in net && net[g].isForwarder
    ensures Total(net, site, c, Replicate(net, g, op), id, n) <= 1
    ensures Total(net, site, c, Replicate(net, g, op), id, n) > 0 ==> n in net && site[n] == site[g] && !net[n].isForwarder
  {
    hide Total, Hits, ToSiblings;
    var ms := Replicate(net, g, op);
    assert SiblingsOk(net, site, g);
    SiblingsDistinct(g, net[g].key, net[g].siblings, op, false);
    forall m | m in ms
      ensures m.dst in net && site[m.dst] == site[g] && !net[m.dst].isForwarder
      ensures Hits(net, site, c, m, id, n) <= 1
      ensures Hits(net, site, c, m, id, n) > 0 ==> m.dst == n
    {
      var l :| l in net[g].siblings && l.sends && m == Msg(g, l.dst, SiblingWire(net[g].key, l, op, false));
      LastHop(net, site, c, m, id, n);
    }
    FanOutAtMostOnce(net, site, c, ms, id, n);
    TotalPositive(net, site, c, ms, id, n);
  }

  /** A message between forwarders reaches each node of the destination's site at most once. */
  lemma BetweenForwarders(net: Net, site: map<Node, nat>, c: Count, m: Msg, id: nat, n: Node)
    requires Deployed(net, site) && m.dst in net && net[m.dst].isForwarder && (m.wire.Sealed? ==> m.wire.forwarded)
    ensures Hits(net, site, c, m, id, n) <= 1
    ensures Hits(net, site, c, m, id, n) > 0 ==> n in net && site[n] == site[m.dst]
  {
    hide Deployed, Total, Hits, Replicate;
    HitsStep(net, site, c, m, id, n);
    if Accepts(net, m) {
      FromForwarder(net, site, c, m.dst, m.wire.op, id, n);
      InSite(net, site, m.dst);
    } else {
      TotalPositive(net, site, c, [], id, n);
      InSite(net, site, m.dst);
    }
  }

  lemma InSite(net: Net, site: map<Node, nat>, n: Node)
    requires Deployed(net, site) && n in net
    ensures n in site
  {
  }

  /** What a forwarder passes on reaches each node of the other sites at most once. */
  lemma ThroughForwarder(net: Net, site: map<Node, nat>, c: Count, f: Node, op: Op, id: nat, n: Node)
    requires Deployed(net, site) && f in net && net[f].isForwarder
    ensures var ms := ToForwarders(f, net[f].key, net[f].forwarders, op);
            && Total(net, site, c, ms, id, n) <= 1
            && (Total(net, site, c, ms, id, n) > 0 ==> n in net && site[n] != site[f])
  {
    hide Total, Hits, ToForwarders;
    var ms := ToForwarders(f, net[f].key, net[f].forwarders, op);
    assert ForwardersOk(net, site, f);
    ForwardersDistinct(f, net[f].key, net[f].forwarders, op);
    forall m | m in ms
      ensures m.dst in net && net[m.dst].isForwarder && site[m.dst] != site[f]
      ensures Hits(net, site, c, m, id, n) <= 1
      ensures Hits(net, site, c, m, id, n) > 0 ==> n in net && site[n] == site[m.dst]
    {
      var l :| l in net[f].forwarders && l.sends && Wanted(l, op.kind) && m == Msg(f, l.dst, ForwardWire(net[f].key, l, op));
      BetweenForwarders(net, site, c, m, id, n);
    }
    FanOutAtMostOnce(net, site, c, ms, id, n);
    TotalPositive(net, site, c, ms, id, n);
  }

  /** A message from a sibling to a forwarder reaches the forwarder itself or other sites. */
  lemma ToForwarder(net: Net, site: map<Node, nat>, c: Count, m: Msg, id: nat, n: Node)
    requires Deployed(net, site) && m.dst in net && net[m.dst].isForwarder && m.wire.Sealed? && !m.wire.forwarded
    ensures Hits(net, site, c, m, id, n) <= 1
    ensures Hits(net, site, c, m, id, n) > 0 ==> n in net && m.dst in site && n in site && (n == m.dst || site[n] != site[m.dst])
  {
    hide Deployed, Total, Hits, ToForwarders;
    HitsStep(net, site, c, m, id, n);
    InSite(net, site, m.dst);
    if Accepts(net, m) {
      ThroughForwarder(net, site, c, m.dst, m.wire.op, id, n);
      if n in net { InSite(net, site, n); }
    } else {
      TotalPositive(net, site, c, [], id, n);
    }
  }

  /** One message of an originator's own fan-out. */
  lemma OwnMessage(net: Net, site: map<Node, nat>, c: Count, a: Node, op: Op, m: Msg, id: nat, n: Node)
    requires Deployed(net, site) && a in net && m in Replicate(net, a, op)
    ensures m.dst in net && a in site && m.dst in site && site[m.dst] == site[a] && m.dst != a
    ensures Hits(net, site, c, m, id, n) <= 1
    ensures Hits(net, site, c, m, id, n) > 0 ==> n in net && n in site
    ensures Hits(net, site, c, m, id, n) > 0 ==> n == m.dst || (site[n] != site[a] && net[m.dst].isForwarder)
  {
    hide Total, Hits, ToSiblings;
    var l :| l in net[a].siblings && l.sends && m == Msg(a, l.dst, SiblingWire(net[a].key, l, op, false));
    assert SiblingsOk(net, site, a);
    if net[m.dst].isForwarder {
      ToForwarder(net, site, c, m, id, n);
    } else {
      LastHop(net, site, c, m, id, n);
    }
  }

  /** An operation reaches every node at most once, and never its originator. */
  lemma OriginAtMostOnce(net: Net, site: map<Node, nat>, c: Count, a: Node, op: Op, id: nat, n: Node)
    requires Deployed(net, site) && a in net
    ensures Total(net, site, c, Replicate(net, a, op), id, n) <= 1
    ensures n == a ==> Total(net, site, c, Replicate(net, a, op), id, n) == 0
  {
    hide Total, Hits, ToSiblings;
    var ms := Replicate(net, a, op);
    assert SiblingsOk(net, site, a);
    SiblingsDistinct(a, net[a].key, net[a].siblings, op, false);
    forall m | m in ms
      ensures Hits(net, site, c, m, id, n) <= 1
      ensures m.dst in net && a in site && m.dst in site && site[m.dst] == site[a] && m.dst != a
      ensures Hits(net, site, c, m, id, n) > 0 ==> n in site && (n == m.dst || (site[n] != site[a] && net[m.dst].isForwarder))
    {
      OwnMessage(net, site, c, a, op, m, id, n);
    }
    FanOutAtMostOnce(net, site, c, ms, id, n);
    TotalPositive(net, site, c, ms, id, n);
  }

  // ---------------------------------------------------------------- who receives an operation

  /** `n` has `a` among its peers and opens what `a` seals for it on a sibling link. */
  predicate SiblingLink(net: Net, a: Node, n: Node)
    requires a in net && n in net
  {
    Knows(net[n], a)
    && exists l | l in net[a].siblings ::
         l.sends && l.dst == n && (if l.key != "" then l.key else net[a].key) == net[n].key
  }

  /** The same for forward destinations: the operation's type is enabled, and a key of the link differs from our own. */
  predicate ForwardLink(net: Net, f: Node, g: Node, kind: RepType)
    requires f in net && g in net
  {
    Knows(net[g], f)
    && exists l | l in net[f].forwarders ::
         && l.sends && l.dst == g && (if kind.SDBType? then l.sdbSend else l.wlblSend)
         && (l.key != "" ==> l.key != net[f].key)
         && (if l.key != "" then l.key else net[f].key) == net[g].key
  }

  predicate ViaForwarders(net: Net, a: Node, kind: RepType, f: Node, g: Node, n: Node)
    requires a in net && f in net && g in net && n in net
  {
    && net[f].isForwarder && SiblingLink(net, a, f)
    && net[g].isForwarder && ForwardLink(net, f, g, kind)
    && SiblingLink(net, g, n)
  }

  /** The wforce nodes an operation of `a` is delivered to. */
  predicate Delivered(net: Net, a: Node, kind: RepType, n: Node)
    requires a in net
  {
    && n in net && !net[n].isForwarder
    && (SiblingLink(net, a, n) || exists f, g | f in net && g in net :: ViaForwarders(net, a, kind, f, g, n))
  }

  /** A sibling link exists exactly when some message of the fan-out is accepted. */
  lemma SiblingLinkIff(net: Net, a: Node, op: Op, n: Node)
    requires a in net && n in net
    ensures SiblingLink(net, a, n) <==> exists m | m in Replicate(net, a, op) :: m.dst == n && Accepts(net, m)
  {
    hide ToSiblings, Knows;
    var ms := Replicate(net, a, op);
    if SiblingLink(net, a, n) {
      var l :| l in net[a].siblings && l.sends && l.dst == n && (if l.key != "" then l.key else net[a].key) == net[n].key;
      var m := Msg(a, l.dst, SiblingWire(net[a].key, l, op, false));
      assert m in ms && m.dst == n && Accepts(net, m);
    }
    if m :| m in ms && m.dst == n && Accepts(net, m) {
      var l :| l in net[a].siblings && l.sends && m == Msg(a, l.dst, SiblingWire(net[a].key, l, op, false));
      assert l.dst == n;
    }
  }

  lemma ForwardLinkIff(net: Net, f: Node, op: Op, g: Node)
    requires f in net && g in net
    ensures ForwardLink(net, f, g, op.kind)
       <==> exists m | m in ToForwarders(f, net[f].key, net[f].forwarders, op) :: m.dst == g && Accepts(net, m)
  {
    hide ToForwarders, Knows;
    var ms := ToForwarders(f, net[f].key, net[f].forwarders, op);
    if ForwardLink(net, f, g, op.kind) {
      var l :| l in net[f].forwarders && l.sends && l.dst == g && (if op.kind.SDBType? then l.sdbSend else l.wlblSend)
            && (l.key != "" ==> l.key != net[f].key) && (if l.key != "" then l.key else net[f].key) == net[g].key;
      var m := Msg(f, l.dst, ForwardWire(net[f].key, l, op));
      assert m in ms && m.dst == g && Accepts(net, m);
    }
    if m :| m in ms && m.dst == g && Accepts(net, m) {
      var l :| l in net[f].forwarders && l.sends && Wanted(l, op.kind) && m == Msg(f, l.dst, ForwardWire(net[f].key, l, op));
      assert l.dst == g;
    }
  }

  /** A forwarder that replicates delivers exactly over its sibling links. */
  lemma ForwarderDelivers(net: Net, site: map<Node, nat>, g: Node, op: Op, n: Node)
    requires Deployed(net, site) && g in net && net[g].isForwarder
    ensures Total(net, site, Applications, Replicate(net, g, op), op.id, n) > 0
       <==> n in net && !net[n].isForwarder && SiblingLink(net, g, n)
  {
    hide Total, Hits, ToSiblings, SiblingLink, Knows;
    var ms := Replicate(net, g, op);
    assert SiblingsOk(net, site, g);
    forall m | m in ms
      ensures Hits(net, site, Applications, m, op.id, n) > 0 <==> n in net && !net[n].isForwarder && m.dst == n && Accepts(net, m)
    {
      var l :| l in net[g].siblings && l.sends && m == Msg(g, l.dst, SiblingWire(net[g].key, l, op, false));
      LastHop(net, site, Applications, m, op.id, n);
    }
    TotalPositive(net, site, Applications, ms, op.id, n);
    if n in net { SiblingLinkIff(net, g, op, n); }
  }

  /** What a forwarder passes on is delivered over a forward link and then a sibling link. */
  lemma ForwardingDelivers(net: Net, site: map<Node, nat>, f: Node, op: Op, n: Node)
    requires Deployed(net, site) && f in net && net[f].isForwarder
    ensures Total(net, site, Applications, ToForwarders(f, net[f].key, net[f].forwarders, op), op.id, n) > 0
       <==> n in net && !net[n].isForwarder
            && exists g | g in net :: net[g].isForwarder && ForwardLink(net, f, g, op.kind) && SiblingLink(net, g, n)
  {
    hide Total, Hits, ToForwarders, SiblingLink, ForwardLink, Knows, Replicate;
    var ms := ToForwarders(f, net[f].key, net[f].forwarders, op);
    assert ForwardersOk(net, site, f);
    forall m | m in ms
      ensures m.dst in net && net[m.dst].isForwarder
      ensures Hits(net, site, Applications, m, op.id, n) > 0
         <==> Accepts(net, m) && n in net && !net[n].isForwarder && SiblingLink(net, m.dst, n)
    {
      var l :| l in net[f].forwarders && l.sends && Wanted(l, op.kind) && m == Msg(f, l.dst, ForwardWire(net[f].key, l, op));
      HitsStep(net, site, Applications, m, op.id, n);
      ForwarderDelivers(net, site, m.dst, op, n);
      TotalPositive(net, site, Applications, [], op.id, n);
    }
    TotalPositive(net, site, Applications, ms, op.id, n);
    forall g | g in net
      ensures ForwardLink(net, f, g, op.kind) <==> exists m | m in ms :: m.dst == g && Accepts(net, m)
    {
      ForwardLinkIff(net, f, op, g);
    }
  }

  /** An operation of a wforce node is delivered to exactly the nodes of Delivered. */
  lemma OriginDelivers(net: Net, site: map<Node, nat>, a: Node, op: Op, n: Node)
    requires Deployed(net, site) && a in net
    ensures Total(net, site, Applications, Replicate(net, a, op), op.id, n) > 0 <==> Delivered(net, a, op.kind, n)
  {
    hide Total, Hits, ToSiblings, ToForwarders, SiblingLink, ForwardLink, Knows;
    var ms := Replicate(net, a, op);
    assert SiblingsOk(net, site, a);
    forall m | m in ms
      ensures m.dst in net
      ensures !net[m.dst].isForwarder ==>
                (Hits(net, site, Applications, m, op.id, n) > 0 <==> n in net && !net[n].isForwarder && m.dst == n && Accepts(net, m))
      ensures net[m.dst].isForwarder ==>
                (Hits(net, site, Applications, m, op.id, n) > 0
                 <==> Accepts(net, m) && n in net && !net[n].isForwarder && Forwarded(net, m.dst, op.kind, n))
    {
      var l :| l in net[a].siblings && l.sends && m == Msg(a, l.dst, SiblingWire(net[a].key, l, op, false));
      OwnDelivers(net, site, m, n);
    }
    TotalPositive(net, site, Applications, ms, op.id, n);
    forall d | d in net
      ensures SiblingLink(net, a, d) <==> exists m | m in ms :: m.dst == d && Accepts(net, m)
    {
      SiblingLinkIff(net, a, op, d);
    }
    DeliveredCases(net, a, op.kind, n);
  }

  predicate Forwarded(net: Net, f: Node, kind: RepType, n: Node)
    requires f in net && n in net
  {
    exists g | g in net :: net[g].isForwarder && ForwardLink(net, f, g, kind) && SiblingLink(net, g, n)
  }

  lemma DeliveredCases(net: Net, a: Node, kind: RepType, n: Node)
    requires a in net
    ensures Delivered(net, a, kind, n)
       <==> n in net && !net[n].isForwarder
            && (SiblingLink(net, a, n) || exists f | f in net :: net[f].isForwarder && SiblingLink(net, a, f) && Forwarded(net, f, kind, n))
  {
    hide SiblingLink, ForwardLink;
    if n in net && !net[n].isForwarder {
      if f :| f in net && net[f].isForwarder && SiblingLink(net, a, f) && Forwarded(net, f, kind, n) {
        var g :| g in net && net[g].isForwarder && ForwardLink(net, f, g, kind) && SiblingLink(net, g, n);
        assert ViaForwarders(net, a, kind, f, g, n);
      }
      if f, g :| f in net && g in net && ViaForwarders(net, a, kind, f, g, n) {
        assert Forwarded(net, f, kind, n);
      }
    }
  }

  lemma OwnDelivers(net: Net, site: map<Node, nat>, m: Msg, n: Node)
    requires Deployed(net, site) && m.dst in net && m.wire.Sealed? && !m.wire.forwarded
    ensures !net[m.dst].isForwarder ==>
              (Hits(net, site, Applications, m, m.wire.op.id, n) > 0
               <==> n in net && !net[n].isForwarder && m.dst == n && Accepts(net, m))
    ensures net[m.dst].isForwarder ==>
              (Hits(net, site, Applications, m, m.wire.op.id, n) > 0
               <==> Accepts(net, m) && n in net && !net[n].isForwarder && Forwarded(net, m.dst, m.wire.op.kind, n))
  {
    hide Deployed, Total, Hits, ToForwarders, SiblingLink, ForwardLink, Knows;
    if net[m.dst].isForwarder {
      HitsStep(net, site, Applications, m, m.wire.op.id, n);
      ForwardingDelivers(net, site, m.dst, m.wire.op, n);
      TotalPositive(net, site, Applications, [], m.wire.op.id, n);
    } else {
      LastHop(net, site, Applications, m, m.wire.op.id, n);
    }
  }

  /** Blacklist and whitelist operations go the same ways. */
  lemma ListsGoAlike(net: Net, a: Node, n: Node)
    requires a in net
    ensures Delivered(net, a, BlacklistType, n) <==> Delivered(net, a, WhitelistType, n)
  {
    hide SiblingLink, ForwardLink;
    forall f, g | f in net && g in net && n in net
      ensures ViaForwarders(net, a, BlacklistType, f, g, n) <==> ViaForwarders(net, a, WhitelistType, f, g, n)
    {
      ListLinks(net, f, g);
    }
  }

  lemma ListLinks(net: Net, f: Node, g: Node)
    requires f in net && g in net
    ensures ForwardLink(net, f, g, BlacklistType) <==> ForwardLink(net, f, g, WhitelistType)
  {
    hide Knows;
  }

  // ---------------------------------------------------------------- an example

  /** Nodes 0 and 3 at different sites, with forwarders 1 and 2 that share a key of their own. */
  function TwoSites(): (net: Net)
  {
    map[0 := Host(false, "a", [Link(0, false, true, true, ""), Link(1, true, true, true, "")], [], []),
        1 := Host(true, "a", [Link(0, true, true, true, "")], [Link(2, true, true, false, "b")], [2]),
        2 := Host(true, "b", [Link(3, true, true, true, "c")], [Link(1, true, true, true, "a")], [1]),
        3 := Host(false, "c", [Link(2, true, true, true, "b")], [], [])]
  }

  const TWO: map<Node, nat> := map[0 := 0, 1 := 0, 2 := 1, 3 := 1]

  lemma FewLinks(a: Link, b: Link)
    ensures DistinctTargets([]) && DistinctTargets([a])
    ensures DistinctTargets([a, b]) <==> !(a.sends && b.sends && a.dst == b.dst)
  {
    assert [a][1..] == [] && [a, b][1..] == [b] && [b][1..] == [];
  }

  lemma TwoSitesHost(n: Node, h: Host)
    requires n < 4 && h == TwoSites()[n]
    ensures SiblingsOk(TwoSites(), TWO, n) && (h.isForwarder ==> ForwardersOk(TwoSites(), TWO, n))
  {
    hide DistinctTargets;
    var net := TwoSites();
    assert net.Keys == {0, 1, 2, 3};
    if n == 0 {
      FewLinks(Link(0, false, true, true, ""), Link(1, true, true, true, ""));
    } else if n == 1 {
      FewLinks(Link(0, true, true, true, ""), Link(0, true, true, true, ""));
      FewLinks(Link(2, true, true, false, "b"), Link(0, true, true, true, ""));
    } else if n == 2 {
      FewLinks(Link(3, true, true, true, "c"), Link(0, true, true, true, ""));
      FewLinks(Link(1, true, true, true, "a"), Link(0, true, true, true, ""));
    } else {
      FewLinks(Link(2, true, true, true, "b"), Link(0, true, true, true, ""));
    }
  }

  /** The assumptions can be met. */
  lemma TwoSitesDeployed()
    ensures Deployed(TwoSites(), TWO)
  {
    hide SiblingsOk, ForwardersOk;
    var net := TwoSites();
    assert net.Keys == {0, 1, 2, 3};
    forall n | n in net
      ensures SiblingsOk(net, TWO, n) && (net[n].isForwarder ==> ForwardersOk(net, TWO, n))
    {
      TwoSitesHost(n, net[n]);
    }
  }

  lemma TwoSitesLinks()
    ensures SiblingLink(TwoSites(), 0, 1) && ForwardLink(TwoSites(), 1, 2, SDBType) && SiblingLink(TwoSites(), 2, 3)
  {
    var net := TwoSites();
    assert net[1].siblings[0] in net[1].siblings && net[0].siblings[1] in net[0].siblings;
    assert net[1].forwarders[0] in net[1].forwarders;
    assert net[2].siblings[0] in net[2].siblings && net[3].siblings[0] in net[3].siblings;
  }

  /** And then an operation crosses from site to site, where its type is enabled. */
  lemma TwoSitesDeliver()
    ensures Delivered(TwoSites(), 0, SDBType, 3)
  {
    hide SiblingLink, ForwardLink;
    TwoSitesLinks();
    assert ViaForwarders(TwoSites(), 0, SDBType, 1, 2, 3);
  }
}
