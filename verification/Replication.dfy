/**
 The statistics database as its callers see it, and the messages that replicate its
 changes.  How a change acts on an entry, the printed forms of addresses and integers,
 and the hash that selects a shard are arguments.
 */
module Replication {

  import opened Basics
  import opened StatsDBs
  import opened Sharding
  import Addresses

  predicate IsInt(i: int)
  {
    INT_MIN <= i <= INT_MAX
  }

  /** How values are printed, and the prefixes that keys are cut to. */
  datatype Texts = Texts(address: Addresses.Address -> string, network: (Addresses.Address, nat) -> string,
                         number: int -> string, v4Prefix: nat, v6Prefix: nat)

  /** boost::variant keys and parameters. */
  datatype KeyVal = KStr(s: string) | KInt(i: int) | KAddr(a: Addresses.Address)

  datatype Param = PStr(s: string) | PInt(i: int) | PAddr(a: Addresses.Address)

  datatype SubParam = SStr(s: string) | SInt(i: int)

  datatype Call =
    | Add(key: KeyVal, field: string, p1: Param, p2: Option<int>)
    | Sub(key: KeyVal, field: string, val: SubParam)
    | Reset(key: KeyVal)
    | ResetOne(key: KeyVal, field: string)

  /** The calls on a member. */
  datatype Change = AddInt(a: int) | AddStr(s: string) | AddStrInt(s: string, a: int) | SubInt(a: int) | SubStr(s: string)

  /** What a call comes down to. */
  datatype Plan =
    | DoChange(key: Key, field: string, change: Change)
    | DoReset(key: Key)
    | DoResetOne(key: Key, field: string)
    | DoNothing

  /** getStringKey */
  function StringKey(tx: Texts, k: KeyVal): (s: Key)
  {
    match k
    case KStr(s) => s
    case KInt(i) => tx.number(i)
    case KAddr(a) => tx.network(a, if a.family.V4? then tx.v4Prefix else tx.v6Prefix)
  }

  /** addInternal's choice among the overloads of add; an integer with a second parameter is refused. */
  function AddChange(tx: Texts, p1: Param, p2: Option<int>): (c: Option<Change>)
  {
    match p2
    case Some(a) =>
      (match p1
       case PInt(_) => None
       case PStr(s) => Some(AddStrInt(s, a))
       case PAddr(x) => Some(AddStrInt(tx.address(x), a)))
    case None =>
      match p1
      case PStr(s) => Some(AddStr(s))
      case PInt(i) => Some(AddInt(i))
      case PAddr(x) => Some(AddStr(tx.address(x)))
  }

  function PlanOf(tx: Texts, c: Call): (p: Plan)
  {
    match c
    case Add(k, f, p1, p2) =>
      (match AddChange(tx, p1, p2)
       case Some(ch) => DoChange(StringKey(tx, k), f, ch)
       case None => DoNothing)
    case Sub(k, f, SStr(s)) => DoChange(StringKey(tx, k), f, SubStr(s))
    case Sub(k, f, SInt(i)) => DoChange(StringKey(tx, k), f, SubInt(i))
    case Reset(k) => DoReset(StringKey(tx, k))
    case ResetOne(k, f) => DoResetOne(StringKey(tx, k), f)
  }

  // ---------------------------------------------------------------- messages

  datatype OpType = OpAdd | OpSub | OpReset | OpResetField | OpSyncKey | OpNone

  /** SDBOperation without its sync fields; the integer travels as an unsigned 32-bit number. */
  datatype Msg = Msg(db: string, op: OpType, key: Key, field: Option<string>, str: Option<string>, num: Option<nat>)

  function ToUnsigned(i: int): (u: nat)
    ensures u < TWO32
  {
    i % TWO32
  }

  function ToSigned(u: nat): (i: int)
  {
    if u > INT_MAX then u - TWO32 else u
  }

  lemma SignedRoundTrip(i: int)
    ensures ToSigned(ToUnsigned(i)) == i <==> IsInt(i)
  {
  }

  /** The constructors of SDBReplicationOperation. */
  function MessageOf(db: string, p: Plan): (m: Msg)
    requires !p.DoNothing?
  {
    match p
    case DoChange(k, f, AddStrInt(s, a)) => Msg(db, OpAdd, k, Some(f), Some(s), Some(ToUnsigned(a)))
    case DoChange(k, f, AddStr(s)) => Msg(db, OpAdd, k, Some(f), Some(s), None)
    case DoChange(k, f, AddInt(a)) => Msg(db, OpAdd, k, Some(f), None, Some(ToUnsigned(a)))
    case DoChange(k, f, SubStr(s)) => Msg(db, OpSub, k, Some(f), Some(s), None)
    case DoChange(k, f, SubInt(a)) => Msg(db, OpSub, k, Some(f), None, Some(ToUnsigned(a)))
    case DoReset(k) => Msg(db, OpReset, k, None, None, None)
    case DoResetOne(k, f) => Msg(db, OpResetField, k, Some(f), None, None)
  }

  /** An absent field reads as the empty string. */
  function FieldOf(m: Msg): (f: string)
  {
    if m.field.Some? then m.field.value else ""
  }

  /** The call applyOperation makes, with replicate off; None if it only logs an error. */
  function CallOf(m: Msg): (c: Option<Call>)
  {
    var k := KStr(m.key);
    match m.op
    case OpReset => Some(Reset(k))
    case OpResetField => Some(ResetOne(k, FieldOf(m)))
    case OpAdd =>
      if m.field.None? then None
      else if m.str.Some? && m.num.Some? then Some(Add(k, m.field.value, PStr(m.str.value), Some(ToSigned(m.num.value))))
      else if m.str.Some? then Some(Add(k, m.field.value, PStr(m.str.value), None))
      else if m.num.Some? then Some(Add(k, m.field.value, PInt(ToSigned(m.num.value)), None))
      else None
    case OpSub =>
      if m.field.None? then None
      else if m.str.Some? then Some(Sub(k, m.field.value, SStr(m.str.value)))
      else if m.num.Some? then Some(Sub(k, m.field.value, SInt(ToSigned(m.num.value))))
      else None
    case _ => None
  }

  predicate IntsOk(c: Call)
  {
    match c
    case Add(_, _, p1, p2) => (p1.PInt? ==> IsInt(p1.i)) && (p2.Some? ==> IsInt(p2.value))
    case Sub(_, _, v) => v.SInt? ==> IsInt(v.i)
    case _ => true
  }

  /**
   For every call and every shape of its parameters: what a peer does on receiving the
   message, whatever its own prefixes are, is what the caller's node did.
   */
  lemma ReplicaDoesTheSame(tx: Texts, peer: Texts, db: string, c: Call)
    requires IntsOk(c) && !PlanOf(tx, c).DoNothing?
    ensures var m := MessageOf(db, PlanOf(tx, c));
            m.db == db && CallOf(m).Some? && PlanOf(peer, CallOf(m).value) == PlanOf(tx, c)
  {
    hide ToSigned, ToUnsigned, StringKey;
    KeyTravels(tx, peer, c.key);
    match c
    case Add(_, _, p1, p2) =>
      if p1.PInt? { SignedRoundTrip(p1.i); }
      if p2.Some? { SignedRoundTrip(p2.value); }
    case Sub(_, _, v) =>
      if v.SInt? { SignedRoundTrip(v.i); }
    case Reset(_) =>
    case ResetOne(_, _) =>
  }

  lemma KeyTravels(tx: Texts, peer: Texts, k: KeyVal)
    ensures StringKey(peer, KStr(StringKey(tx, k))) == StringKey(tx, k)
  {
  }

  // ---------------------------------------------------------------- the wrapper

  /** The change of an entry at the time of the call, and whether it throws. */
  type Act<!E> = (Change, E) -> Outcome<E, bool>

  function OpOf<E>(p: Plan, act: Act<E>, clear: E -> E): (op: Op<E, bool>)
    requires !p.DoNothing?
    ensures KeyOf(op) == Some(p.key) && !op.ExpirePass?
  {
    match p
    case DoChange(k, f, ch) => Update(k, f, (e: E) => act(ch, e))
    case DoReset(k) => AllFields(k, (e: E) => Outcome(clear(e), false, false))
    case DoResetOne(k, f) => ClearField(k, f, clear)
  }

  /** A wrapper: its shards, whether it replicates, and what it has handed over for sending. */
  datatype Wrapper<E> = Wrapper(shards: seq<View<E>>, replicated: bool, sent: seq<Msg>)

  /** The fixed parts of a node. */
  datatype Setup<!E> = Setup(db: string, tx: Texts, clear: E -> E, make: Make<E>, hash: Key -> nat)

  function Perform<E>(su: Setup<E>, shards: seq<View<E>>, p: Plan, act: Act<E>): (r: seq<View<E>>)
    requires |shards| > 0
    ensures |r| == |shards|
  {
    if p.DoNothing? then shards else ShardStep(shards, OpOf(p, act, su.clear), su.make, su.hash)
  }

  function Throws<E>(su: Setup<E>, shards: seq<View<E>>, p: Plan, act: Act<E>): (b: bool)
    requires |shards| > 0
  {
    !p.DoNothing? && match ShardReply(shards, OpOf(p, act, su.clear), su.make, su.hash)
                     case One(Some(threw)) => threw
                     case _ => false
  }

  /** addInternal and the others: with `replicate`, a change that does not throw is also sent. */
  function Internal<E>(su: Setup<E>, w: Wrapper<E>, c: Call, act: Act<E>, replicate: bool): (r: Wrapper<E>)
    requires |w.shards| > 0
    ensures |r.shards| == |w.shards|
  {
    var p := PlanOf(su.tx, c);
    if p.DoNothing? then w else
      w.(shards := Perform(su, w.shards, p, act),
         sent := w.sent + if replicate && w.replicated && !Throws(su, w.shards, p, act) then [MessageOf(su.db, p)] else [])
  }

  /** A message from a peer. */
  function Received<E>(su: Setup<E>, w: Wrapper<E>, m: Msg, act: Act<E>): (r: Wrapper<E>)
    requires |w.shards| > 0
    ensures |r.shards| == |w.shards|
  {
    if m.db == su.db && CallOf(m).Some? then Internal(su, w, CallOf(m).value, act, false) else w
  }

  /** Messages that applyOperation only logs: for another database, or without what their kind needs. */
  predicate Malformed(m: Msg)
  {
    match m.op
    case OpAdd => m.field == None || (m.str == None && m.num == None)
    case OpSub => m.field == None || (m.str == None && m.num == None)
    case OpReset => false
    case OpResetField => false
    case _ => true
  }

  /** They change nothing and send nothing; all others lead to a call on the key they name. */
  lemma MalformedIgnored<E>(su: Setup<E>, w: Wrapper<E>, m: Msg, act: Act<E>)
    requires |w.shards| > 0
    ensures m.db != su.db || Malformed(m) ==> Received(su, w, m, act) == w
    ensures CallOf(m).None? <==> Malformed(m)
    ensures CallOf(m).Some? ==> CallOf(m).value.key == KStr(m.key)
    ensures m.op == OpReset ==> CallOf(m) == Some(Reset(KStr(m.key)))
    ensures m.op == OpResetField ==> CallOf(m) == Some(ResetOne(KStr(m.key), if m.field == None then "" else m.field.value))
  {
  }

  /** On equal states, receiving the message does what the call does, and sends nothing on. */
  lemma {:induction false} ReplicaEquivalence<E>(su: Setup<E>, tx: Texts, w: Wrapper<E>, c: Call, act: Act<E>)
    requires |w.shards| > 0 && IntsOk(c) && !PlanOf(tx, c).DoNothing?
    ensures var r := Received(su, w, MessageOf(su.db, PlanOf(tx, c)), act);
            r.shards == Perform(su, w.shards, PlanOf(tx, c), act) && r.sent == w.sent
  {
    hide PlanOf, CallOf, MessageOf, Perform, IntsOk;
    ReplicaDoesTheSame(tx, su.tx, su.db, c);
    assert w.sent + [] == w.sent;
  }

  // ---------------------------------------------------------------- a replica follows

  /** One step of a pair: a call on the first node and, if it was sent, the message on the second. */
  function Follow<E>(su: Setup<E>, peer: Setup<E>, a: Wrapper<E>, b: Wrapper<E>, c: Call, act: Act<E>): (r: (Wrapper<E>, Wrapper<E>))
    requires |a.shards| > 0 && |b.shards| > 0
    ensures |r.0.shards| == |a.shards| && |r.1.shards| == |b.shards|
  {
    var a' := Internal(su, a, c, act, true);
    (a', if |a'.sent| > |a.sent| then Received(peer, b, a'.sent[|a.sent|], act) else b)
  }

  datatype Timed<!E> = Timed(call: Call, act: Act<E>)

  function FollowAll<E>(su: Setup<E>, peer: Setup<E>, a: Wrapper<E>, b: Wrapper<E>, calls: seq<Timed<E>>): (r: (Wrapper<E>, Wrapper<E>))
    requires |a.shards| > 0 && |b.shards| > 0
    ensures |r.0.shards| == |a.shards| && |r.1.shards| == |b.shards|
    decreases |calls|
  {
    if calls == [] then (a, b) else
      var (a', b') := Follow(su, peer, a, b, calls[0].call, calls[0].act);
      FollowAll(su, peer, a', b', calls[1..])
  }

  /** A plan carried out on an unsharded database. */
  function Done<E>(su: Setup<E>, one: View<E>, p: Plan, act: Act<E>): (r: View<E>)
  {
    if p.DoNothing? then one else Step(one, OpOf(p, act, su.clear), su.make)
  }

  predicate ThrowsIn<E>(su: Setup<E>, one: View<E>, p: Plan, act: Act<E>)
  {
    !p.DoNothing? && match Reply(one, OpOf(p, act, su.clear), su.make)
                     case One(Some(threw)) => threw
                     case _ => false
  }

  datatype PlanAt<!E> = PlanAt(plan: Plan, act: Act<E>)

  function DoneAll<E>(su: Setup<E>, one: View<E>, plans: seq<PlanAt<E>>): (r: View<E>)
    decreases |plans|
  {
    if plans == [] then one else DoneAll(su, Done(su, one, plans[0].plan, plans[0].act), plans[1..])
  }

  function Plans<E>(tx: Texts, calls: seq<Timed<E>>): (ps: seq<PlanAt<E>>)
    decreases |calls|
  {
    if calls == [] then [] else [PlanAt(PlanOf(tx, calls[0].call), calls[0].act)] + Plans(tx, calls[1..])
  }

  /** The plans a node's calls send: those that do something and do not throw there. */
  function Sent<E>(su: Setup<E>, one: View<E>, calls: seq<Timed<E>>): (ps: seq<PlanAt<E>>)
    decreases |calls|
  {
    if calls == [] then [] else
      var p, act := PlanOf(su.tx, calls[0].call), calls[0].act;
      (if p.DoNothing? || ThrowsIn(su, one, p, act) then [] else [PlanAt(p, act)]) + Sent(su, Done(su, one, p, act), calls[1..])
  }

  lemma PerformHolds<E>(su: Setup<E>, shards: seq<View<E>>, p: Plan, act: Act<E>, one: View<E>)
    requires |shards| > 0 && Simulates(shards, one, su.hash)
    ensures Simulates(Perform(su, shards, p, act), Done(su, one, p, act), su.hash)
    ensures Throws(su, shards, p, act) == ThrowsIn(su, one, p, act)
  {
    hide Simulates, ShardStep, Step, Reply, ShardReply;
    if !p.DoNothing? {
      KeyStepSimulates(shards, one, OpOf(p, act, su.clear), su.make, su.hash, p.key);
    }
  }

  /** One call and its message, if it is sent: each node does its part to its own contents. */
  lemma FollowHolds<E>(su: Setup<E>, peer: Setup<E>, a: Wrapper<E>, b: Wrapper<E>, c: Call, act: Act<E>, oneA: View<E>, oneB: View<E>)
    requires |a.shards| > 0 && |b.shards| > 0 && a.replicated && IntsOk(c) && su.db == peer.db
    requires Simulates(a.shards, oneA, su.hash) && Simulates(b.shards, oneB, peer.hash)
    ensures var (a', b') := Follow(su, peer, a, b, c, act);
            var p := PlanOf(su.tx, c);
            && a'.replicated && Simulates(a'.shards, Done(su, oneA, p, act), su.hash)
            && b'.sent == b.sent && (ThrowsIn(su, oneA, p, act) ==> b' == b)
            && Simulates(b'.shards, if ThrowsIn(su, oneA, p, act) then oneB else Done(peer, oneB, p, act), peer.hash)
  {
    hide Simulates, Throws, ThrowsIn, Perform, Step, OpOf, PlanOf, IntsOk, MessageOf, CallOf, Received;
    var p := PlanOf(su.tx, c);
    PerformHolds(su, a.shards, p, act, oneA);
    PerformHolds(peer, b.shards, p, act, oneB);
    var a' := Internal(su, a, c, act, true);
    if p.DoNothing? {
      NothingNeverThrows(su, oneA, p, act);
    } else if Throws(su, a.shards, p, act) {
      assert a'.sent == a.sent + [];
    } else {
      ReplicaEquivalence(peer, su.tx, b, c, act);
      assert a'.sent == a.sent + [MessageOf(su.db, p)];
    }
  }

  lemma NothingNeverThrows<E>(su: Setup<E>, one: View<E>, p: Plan, act: Act<E>)
    requires p.DoNothing?
    ensures !ThrowsIn(su, one, p, act)
  {
  }

  predicate AllInts<E>(calls: seq<Timed<E>>)
  {
    forall i | 0 <= i < |calls| :: IntsOk(calls[i].call)
  }

  /**
   Whole runs, calls that throw included: after a node's calls, in order, it holds what all
   of them make of its contents, and a peer that receives its messages holds what the calls
   that were sent make of the peer's, whatever the shards and prefixes of either.  The peer
   sends nothing.
   */
  lemma {:induction false} ReplicaFollows<E>(su: Setup<E>, peer: Setup<E>, a: Wrapper<E>, b: Wrapper<E>, calls: seq<Timed<E>>,
                                             oneA: View<E>, oneB: View<E>)
    requires |a.shards| > 0 && |b.shards| > 0 && a.replicated && su.db == peer.db && AllInts(calls)
    requires Simulates(a.shards, oneA, su.hash) && Simulates(b.shards, oneB, peer.hash)
    ensures var (a', b') := FollowAll(su, peer, a, b, calls);
            && Simulates(a'.shards, DoneAll(su, oneA, Plans(su.tx, calls)), su.hash)
            && Simulates(b'.shards, DoneAll(peer, oneB, Sent(su, oneA, calls)), peer.hash)
            && b'.sent == b.sent
    decreases |calls|
  {
    hide Simulates, ThrowsIn, Done, PlanOf, IntsOk, Follow;
    if calls == [] {
    } else {
      var c, act := calls[0].call, calls[0].act;
      var p := PlanOf(su.tx, c);
      FollowHolds(su, peer, a, b, c, act, oneA, oneB);
      var (a', b') := Follow(su, peer, a, b, c, act);
      var nextA := Done(su, oneA, p, act);
      var nextB := if ThrowsIn(su, oneA, p, act) then oneB else Done(peer, oneB, p, act);
      ReplicaFollows(su, peer, a', b', calls[1..], nextA, nextB);
      PlansStep(su, peer, oneA, oneB, calls);
    }
  }

  /** The first call's part of what both nodes end with. */
  lemma PlansStep<E>(su: Setup<E>, peer: Setup<E>, oneA: View<E>, oneB: View<E>, calls: seq<Timed<E>>)
    requires calls != []
    ensures var p, act := PlanOf(su.tx, calls[0].call), calls[0].act;
            var nextA := Done(su, oneA, p, act);
            var nextB := if ThrowsIn(su, oneA, p, act) then oneB else Done(peer, oneB, p, act);
            && DoneAll(su, oneA, Plans(su.tx, calls)) == DoneAll(su, nextA, Plans(su.tx, calls[1..]))
            && DoneAll(peer, oneB, Sent(su, oneA, calls)) == DoneAll(peer, nextB, Sent(su, nextA, calls[1..]))
  {
    hide PlanOf, ThrowsIn, Step, OpOf;
    var p, act := PlanOf(su.tx, calls[0].call), calls[0].act;
    var rest := Sent(su, Done(su, oneA, p, act), calls[1..]);
    var all := Plans(su.tx, calls);
    assert all[1..] == Plans(su.tx, calls[1..]);
    if p.DoNothing? {
      NothingNeverThrows(su, oneA, p, act);
      assert [] + rest == rest;
    } else if ThrowsIn(su, oneA, p, act) {
      assert [] + rest == rest;
    } else {
      assert ([PlanAt(p, act)] + rest)[1..] == rest;
    }
  }

  /** Without throwing calls every plan is sent, so equal contents stay equal. */
  lemma {:induction false} SentIsAll<E>(su: Setup<E>, one: View<E>, calls: seq<Timed<E>>)
    requires NoThrows(su, one, calls)
    ensures DoneAll(su, one, Sent(su, one, calls)) == DoneAll(su, one, Plans(su.tx, calls))
    decreases |calls|
  {
    hide PlanOf, ThrowsIn, Done;
    if calls == [] {
    } else {
      PlansStep(su, su, one, one, calls);
      SentIsAll(su, Done(su, one, PlanOf(su.tx, calls[0].call), calls[0].act), calls[1..]);
    }
  }

  predicate NoThrows<E>(su: Setup<E>, one: View<E>, calls: seq<Timed<E>>)
    decreases |calls|
  {
    calls != [] ==>
      var p, act := PlanOf(su.tx, calls[0].call), calls[0].act;
      !ThrowsIn(su, one, p, act) && NoThrows(su, Done(su, one, p, act), calls[1..])
  }

  // ---------------------------------------------------------------- a call that throws

  /**
   A call that throws is not sent, although it may have made its key and its entry: the peer
   keeps the caller's contents if and only if the call left the key as it was.
   */
  lemma {:induction false} ThrowingCallAgreesIff<E>(su: Setup<E>, peer: Setup<E>, a: Wrapper<E>, b: Wrapper<E>, c: Call, act: Act<E>, one: View<E>)
    requires |a.shards| > 0 && |b.shards| > 0 && a.replicated && IntsOk(c) && su.db == peer.db
    requires Simulates(a.shards, one, su.hash) && Simulates(b.shards, one, peer.hash)
    requires ThrowsIn(su, one, PlanOf(su.tx, c), act)
    ensures var (a', b') := Follow(su, peer, a, b, c, act);
            var p := PlanOf(su.tx, c);
            var one' := Done(su, one, p, act);
            && b' == b && Simulates(a'.shards, one', su.hash)
            && (Simulates(b'.shards, one', peer.hash) <==> Lookup(one', p.key) == Lookup(one, p.key))
  {
    hide Simulates, ThrowsIn, Done, PlanOf, IntsOk, Follow;
    FollowHolds(su, peer, a, b, c, act, one, one);
    SameKeySimulates(su, b.shards, peer.hash, PlanOf(su.tx, c), act, one);
  }

  lemma SameKeySimulates<E>(su: Setup<E>, shards: seq<View<E>>, hash: Key -> nat, p: Plan, act: Act<E>, one: View<E>)
    requires |shards| > 0 && Simulates(shards, one, hash) && ThrowsIn(su, one, p, act)
    ensures var one' := Done(su, one, p, act);
            Simulates(shards, one', hash) <==> Lookup(one', p.key) == Lookup(one, p.key)
  {
    hide Step, Reply, Place, Lookup;
    StepElsewhere(one, OpOf(p, act, su.clear), su.make, p.key);
    var one' := Done(su, one, p, act);
    assert Lookup(shards[Place(hash, |shards|, p.key)], p.key) == Lookup(one, p.key);
    if Lookup(one', p.key) == Lookup(one, p.key) {
      forall k
        ensures Lookup(shards[Place(hash, |shards|, k)], k) == Lookup(one', k)
      {
        assert Lookup(shards[Place(hash, |shards|, k)], k) == Lookup(one, k);
      }
    }
  }

  // ---------------------------------------------------------------- the code

  class TWStringStatsDBWrapper<E> {
    const su: Setup<E>
    var w: Wrapper<E>

    predicate Valid()
      reads this
    {
      |w.shards| > 0
    }

    constructor (su: Setup<E>, shards: nat)
      requires shards > 0
      ensures Valid() && this.su == su && w == Wrapper(NewShards(shards), false, [])
    {
      this.su := su;
      w := Wrapper(NewShards(shards), false, []);
    }

    /** Runs one operation on the shard of its key; says whether it threw. */
    method OnShard(op: Op<E, bool>, key: Key) returns (threw: bool)
      requires Valid() && KeyOf(op) == Some(key)
      modifies this
      ensures Valid() && w == old(w).(shards := ShardStep(old(w).shards, op, su.make, su.hash))
      ensures threw == match ShardReply(old(w).shards, op, su.make, su.hash) case One(Some(t)) => t case _ => false
    {
      hide Step, Reply;
      var i := Place(su.hash, |w.shards|, key);
      var reply := Reply(w.shards[i], op, su.make);
      threw := match reply case One(Some(t)) => t case _ => false;
      w := w.(shards := w.shards[i := Step(w.shards[i], op, su.make)]);
    }

    method Change(key: Key, field: string, change: Change, act: Act<E>, replicate: bool) returns (threw: bool)
      requires Valid()
      modifies this
      ensures Valid()
      ensures var p := DoChange(key, field, change);
              && threw == Throws(su, old(w).shards, p, act)
              && w.shards == Perform(su, old(w).shards, p, act) && w.replicated == old(w.replicated)
              && w.sent == old(w.sent) + if replicate && w.replicated && !threw then [MessageOf(su.db, p)] else []
    {
      hide ShardStep, ShardReply;
      threw := OnShard(OpOf(DoChange(key, field, change), act, su.clear), key);
      if !threw && replicate && w.replicated {
        w := w.(sent := w.sent + [MessageOf(su.db, DoChange(key, field, change))]);
      }
    }

    method AddInternal(vkey: KeyVal, field: string, param1: Param, param2: Option<int>, act: Act<E>, replicate: bool) returns (threw: bool)
      requires Valid()
      modifies this
      ensures Valid() && w == Internal(su, old(w), Add(vkey, field, param1, param2), act, replicate)
      ensures threw == Throws(su, old(w).shards, PlanOf(su.tx, Add(vkey, field, param1, param2)), act)
    {
      hide Perform, MessageOf;
      threw := false;
      var key := StringKey(su.tx, vkey);
      if param2.Some? {
        match param1
        case PInt(_) => return;
        case PStr(s) => threw := Change(key, field, AddStrInt(s, param2.value), act, replicate);
        case PAddr(ca) => threw := Change(key, field, AddStrInt(su.tx.address(ca), param2.value), act, replicate);
      } else {
        match param1
        case PStr(s) => threw := Change(key, field, AddStr(s), act, replicate);
        case PInt(i) => threw := Change(key, field, AddInt(i), act, replicate);
        case PAddr(ca) => threw := Change(key, field, AddStr(su.tx.address(ca)), act, replicate);
      }
    }

    method SubInternal(vkey: KeyVal, field: string, val: SubParam, act: Act<E>, replicate: bool) returns (threw: bool)
      requires Valid()
      modifies this
      ensures Valid() && w == Internal(su, old(w), Sub(vkey, field, val), act, replicate)
      ensures threw == Throws(su, old(w).shards, PlanOf(su.tx, Sub(vkey, field, val)), act)
    {
      hide Perform, Throws, MessageOf;
      var key := StringKey(su.tx, vkey);
      match val
      case SStr(s) => threw := Change(key, field, SubStr(s), act, replicate);
      case SInt(i) => threw := Change(key, field, SubInt(i), act, replicate);
    }

    method ResetInternal(vkey: KeyVal, act: Act<E>, replicate: bool)
      requires Valid()
      modifies this
      ensures Valid() && w == Internal(su, old(w), Reset(vkey), act, replicate)
    {
      hide ShardStep, Reply;
      var key := StringKey(su.tx, vkey);
      var _ := OnShard(OpOf(DoReset(key), act, su.clear), key);
      ResetNeverThrows(su, old(w).shards, DoReset(key), act);
      if replicate && w.replicated {
        w := w.(sent := w.sent + [MessageOf(su.db, DoReset(key))]);
      }
    }

    method ResetFieldInternal(vkey: KeyVal, field: string, act: Act<E>, replicate: bool)
      requires Valid()
      modifies this
      ensures Valid() && w == Internal(su, old(w), ResetOne(vkey, field), act, replicate)
    {
      hide ShardStep, Reply;
      var key := StringKey(su.tx, vkey);
      var _ := OnShard(OpOf(DoResetOne(key, field), act, su.clear), key);
      ResetNeverThrows(su, old(w).shards, DoResetOne(key, field), act);
      if replicate && w.replicated {
        w := w.(sent := w.sent + [MessageOf(su.db, DoResetOne(key, field))]);
      }
    }

    /** applyOperation, for the database this wrapper is. */
    method ApplyOperation(m: Msg, act: Act<E>) returns (threw: bool)
      requires Valid()
      modifies this
      ensures Valid() && w == Received(su, old(w), m, act) && w.sent == old(w.sent)
      ensures threw == (m.db == su.db && CallOf(m).Some? && Throws(su, old(w).shards, PlanOf(su.tx, CallOf(m).value), act))
    {
      hide Perform, Throws, MessageOf;
      threw := false;
      if m.db != su.db { return; }
      var k := KStr(m.key);
      ResetNeverThrows(su, w.shards, DoReset(m.key), act);
      ResetNeverThrows(su, w.shards, DoResetOne(m.key, FieldOf(m)), act);
      if m.op.OpReset? {
        ResetInternal(k, act, false);
      } else if m.op.OpResetField? {
        ResetFieldInternal(k, FieldOf(m), act, false);
      } else if m.op.OpAdd? {
        if m.field.None? { return; }
        if m.str.Some? && m.num.Some? {
          threw := AddInternal(k, m.field.value, PStr(m.str.value), Some(ToSigned(m.num.value)), act, false);
        } else if m.str.Some? {
          threw := AddInternal(k, m.field.value, PStr(m.str.value), None, act, false);
        } else if m.num.Some? {
          threw := AddInternal(k, m.field.value, PInt(ToSigned(m.num.value)), None, act, false);
        }
      } else if m.op.OpSub? {
        if m.field.None? { return; }
        if m.str.Some? {
          threw := SubInternal(k, m.field.value, SStr(m.str.value), act, false);
        } else if m.num.Some? {
          threw := SubInternal(k, m.field.value, SInt(ToSigned(m.num.value)), act, false);
        }
      }
    }
  }

  lemma ResetNeverThrows<E>(su: Setup<E>, shards: seq<View<E>>, p: Plan, act: Act<E>)
    requires |shards| > 0 && (p.DoReset? || p.DoResetOne?)
    ensures !Throws(su, shards, p, act)
  {
  }
}
