/**
 What is on a black or white list after any run, told from the run alone, and a peer that
 follows the list from the operations it receives.
 */
module ListRuns {

  import opened Basics
  import opened Addresses
  import opened NetmaskTrees
  import opened BlackWhiteLists

  // ---------------------------------------------------------------- the history of an entry

  /** The operation puts this entry on the list. */
  predicate Puts(t: int, op: BlackWhiteLists.Op, e: Entry)
  {
    match op
    case Add(m, seconds, reason) => e == Entry(PrefixOf(m), reason, t + seconds)
    case Receive(BLAdd(key, ttl, reason)) => e == Entry(key, reason, t + ttl)
    case _ => false
  }

  /** The operation takes the entry off: it adds or deletes its key, or purges when the entry has expired. */
  predicate TakesOff(t: int, op: BlackWhiteLists.Op, e: Entry)
  {
    match op
    case Add(m, _, _) => PrefixOf(m) == e.key
    case Delete(m) => PrefixOf(m) == e.key
    case Receive(msg) => msg.key == e.key
    case Purge => e.expiration <= t
    case Get(_) => false
  }

  lemma {:induction false} AliveElems(es: seq<Entry>, now: int)
    ensures forall e :: e in Elems(Alive(es, now)) <==> e in Elems(es) && e.expiration > now
  {
    if es != [] {
      AliveElems(es[1..], now);
    }
  }

  lemma StepElems(es: seq<Entry>, now: int, op: BlackWhiteLists.Op, e: Entry)
    ensures e in Elems(BlackWhiteLists.Step(es, now, op)) <==> Puts(now, op, e) || (e in Elems(es) && !TakesOff(now, op, e))
  {
    hide Elems, WithoutKey, Alive;
    match op
    case Add(m, seconds, reason) =>
      WithoutKeyKeeps(es, PrefixOf(m));
      AppendKeeps(WithoutKey(es, PrefixOf(m)), Entry(PrefixOf(m), reason, now + seconds));
    case Delete(m) => WithoutKeyKeeps(es, PrefixOf(m));
    case Receive(msg) =>
      WithoutKeyKeeps(es, msg.key);
      if msg.BLAdd? {
        AppendKeeps(WithoutKey(es, msg.key), Entry(msg.key, msg.reason, now + msg.ttl));
      }
    case Purge => AliveElems(es, now);
    case Get(_) =>
  }

  /** Some operation put the entry on the list and no later one took it off. */
  ghost predicate PutAndKept(ops: seq<(int, BlackWhiteLists.Op)>, e: Entry)
  {
    exists i :: 0 <= i < |ops| && Puts(ops[i].0, ops[i].1, e) && KeptSince(ops, i, e)
  }

  ghost predicate KeptSince(ops: seq<(int, BlackWhiteLists.Op)>, i: nat, e: Entry)
  {
    forall j | i < j < |ops| :: !TakesOff(ops[j].0, ops[j].1, e)
  }

  lemma PutAndKeptSnoc(ops: seq<(int, BlackWhiteLists.Op)>, e: Entry)
    requires ops != []
    ensures var rest, last := ops[..|ops| - 1], ops[|ops| - 1];
            PutAndKept(ops, e) <==> Puts(last.0, last.1, e) || (PutAndKept(rest, e) && !TakesOff(last.0, last.1, e))
  {
    hide Puts, TakesOff;
    var rest, n := ops[..|ops| - 1], |ops| - 1;
    if i :| 0 <= i < |rest| && Puts(rest[i].0, rest[i].1, e) && KeptSince(rest, i, e) && !TakesOff(ops[n].0, ops[n].1, e) {
      forall j | i < j < |ops|
        ensures !TakesOff(ops[j].0, ops[j].1, e)
      {
        assert j < n ==> rest[j] == ops[j];
      }
      assert Puts(ops[i].0, ops[i].1, e) && KeptSince(ops, i, e);
    }
    if i :| 0 <= i < |ops| && Puts(ops[i].0, ops[i].1, e) && KeptSince(ops, i, e) && i < n {
      assert Puts(rest[i].0, rest[i].1, e) && KeptSince(rest, i, e);
    }
    if Puts(ops[n].0, ops[n].1, e) {
      assert KeptSince(ops, n, e);
    }
  }

  /**
   After any run, local and received operations mixed, the list holds exactly the entries that
   some operation put on it and none has taken off since.
   */
  lemma {:induction false} ListIs(ops: seq<(int, BlackWhiteLists.Op)>, e: Entry)
    ensures e in Elems(EntriesAfter(ops)) <==> PutAndKept(ops, e)
  {
    hide Puts, TakesOff, BlackWhiteLists.Step, Elems;
    if ops == [] {
      NoEntries(e);
    } else {
      ListIs(ops[..|ops| - 1], e);
      StepElems(EntriesAfter(ops[..|ops| - 1]), ops[|ops| - 1].0, ops[|ops| - 1].1, e);
      PutAndKeptSnoc(ops, e);
    }
  }

  lemma NoEntries(e: Entry)
    ensures e !in Elems([])
  {
  }

  // ---------------------------------------------------------------- the order

  /** The key an operation puts on the list. */
  function PutKey(op: BlackWhiteLists.Op): (k: Option<Key>)
  {
    match op
    case Add(m, _, _) => Some(PrefixOf(m))
    case Receive(BLAdd(key, _, _)) => Some(key)
    case _ => None
  }

  /** The number of operations up to and including the last that put the key on the list, or 0. */
  function LastPut(ops: seq<(int, BlackWhiteLists.Op)>, k: Key): (n: nat)
    ensures n <= |ops|
  {
    if ops == [] then 0
    else if PutKey(ops[|ops| - 1].1) == Some(k) then |ops| else LastPut(ops[..|ops| - 1], k)
  }

  ghost predicate InOrder(es: seq<Entry>, at: Key -> nat)
  {
    es != [] ==> InOrder(es[1..], at) && forall e | e in Elems(es[1..]) :: at(es[0].key) < at(e.key)
  }

  lemma {:induction false} WithoutInOrder(es: seq<Entry>, key: Key, at: Key -> nat)
    requires InOrder(es, at)
    ensures InOrder(WithoutKey(es, key), at)
  {
    if es != [] {
      WithoutInOrder(es[1..], key, at);
      WithoutKeyKeeps(es[1..], key);
      if es[0].key != key {
        assert WithoutKey(es, key)[1..] == WithoutKey(es[1..], key);
      }
    }
  }

  lemma {:induction false} AliveInOrder(es: seq<Entry>, now: int, at: Key -> nat)
    requires InOrder(es, at)
    ensures InOrder(Alive(es, now), at)
  {
    if es != [] {
      AliveInOrder(es[1..], now, at);
      AliveElems(es[1..], now);
      if es[0].expiration > now {
        assert Alive(es, now)[1..] == Alive(es[1..], now);
      }
    }
  }

  lemma {:induction false} AppendInOrder(es: seq<Entry>, e: Entry, at: Key -> nat)
    requires InOrder(es, at) && forall f | f in Elems(es) :: at(f.key) < at(e.key)
    ensures InOrder(es + [e], at)
  {
    if es == [] {
      assert (es + [e])[1..] == [];
    } else {
      AppendInOrder(es[1..], e, at);
      AppendKeeps(es[1..], e);
      assert (es + [e])[1..] == es[1..] + [e];
    }
  }

  lemma {:induction false} SameOrder(es: seq<Entry>, at: Key -> nat, at': Key -> nat)
    requires InOrder(es, at) && forall e | e in Elems(es) :: at'(e.key) == at(e.key)
    ensures InOrder(es, at')
  {
    if es != [] {
      SameOrder(es[1..], at, at');
    }
  }

  /** A key that is put on the list goes last. */
  lemma PutLast(es: seq<Entry>, e: Entry, at: Key -> nat, at': Key -> nat)
    requires InOrder(es, at) && forall f | f in Elems(es) && f.key != e.key :: at'(f.key) == at(f.key) < at'(e.key)
    ensures InOrder(WithoutKey(es, e.key) + [e], at')
  {
    hide Elems;
    WithoutInOrder(es, e.key, at);
    WithoutKeyKeeps(es, e.key);
    SameOrder(WithoutKey(es, e.key), at, at');
    AppendInOrder(WithoutKey(es, e.key), e, at');
  }

  /** In every run the list is in the order in which its keys were last put on it. */
  lemma {:induction false} ListOrder(ops: seq<(int, BlackWhiteLists.Op)>)
    ensures InOrder(EntriesAfter(ops), k => LastPut(ops, k))
  {
    hide Elems, InOrder, WithoutKey, Alive;
    if ops == [] {
      NoneInOrder(k => LastPut(ops, k));
    } else {
      var rest, t, op := ops[..|ops| - 1], ops[|ops| - 1].0, ops[|ops| - 1].1;
      var at, at' := k => LastPut(rest, k), k => LastPut(ops, k);
      ListOrder(rest);
      var es := EntriesAfter(rest);
      match op
      case Add(m, seconds, reason) => PutLast(es, Entry(PrefixOf(m), reason, t + seconds), at, at');
      case Receive(BLAdd(key, ttl, reason)) => PutLast(es, Entry(key, reason, t + ttl), at, at');
      case Delete(m) =>
        WithoutInOrder(es, PrefixOf(m), at);
        SameOrder(WithoutKey(es, PrefixOf(m)), at, at');
      case Receive(BLDelete(key)) =>
        WithoutInOrder(es, key, at);
        SameOrder(WithoutKey(es, key), at, at');
      case Purge =>
        AliveInOrder(es, t, at);
        SameOrder(Alive(es, t), at, at');
      case Get(_) => SameOrder(es, at, at');
    }
  }

  lemma NoneInOrder(at: Key -> nat)
    ensures InOrder([], at)
  {
  }

  // ---------------------------------------------------------------- a peer that follows

  /** What a peer is told of an operation: adds and deletes are sent, and each node purges for itself. */
  function ToldOf(op: BlackWhiteLists.Op): (r: BlackWhiteLists.Op)
  {
    match op
    case Add(m, seconds, reason) => Receive(AddMessage(PrefixOf(m), seconds, reason))
    case Delete(m) => Receive(BLDelete(PrefixOf(m)))
    case _ => op
  }

  function ToldAll(ops: seq<(int, BlackWhiteLists.Op)>): (r: seq<(int, BlackWhiteLists.Op)>)
    ensures |r| == |ops|
  {
    seq(|ops|, i requires 0 <= i < |ops| => (ops[i].0, ToldOf(ops[i].1)))
  }

  /** Lifetimes fit the message. */
  predicate LifetimesFit(ops: seq<(int, BlackWhiteLists.Op)>)
  {
    forall i | 0 <= i < |ops| :: ops[i].1.Add? ==> 0 <= ops[i].1.seconds < TWO32
  }

  /** A peer that receives every add and delete when it is made, and purges when the node does, has the node's list. */
  lemma {:induction false} PeerFollows(ops: seq<(int, BlackWhiteLists.Op)>)
    requires LifetimesFit(ops)
    ensures EntriesAfter(ToldAll(ops)) == EntriesAfter(ops)
  {
    hide BlackWhiteLists.Step, ToldOf;
    if ops != [] {
      var rest := ops[..|ops| - 1];
      PeerFollows(rest);
      assert ToldAll(ops)[..|ops| - 1] == ToldAll(rest);
      PeerSteps(EntriesAfter(rest), ops[|ops| - 1].0, ops[|ops| - 1].1);
    }
  }

  lemma PeerSteps(es: seq<Entry>, t: int, op: BlackWhiteLists.Op)
    requires op.Add? ==> 0 <= op.seconds < TWO32
    ensures BlackWhiteLists.Step(es, t, ToldOf(op)) == BlackWhiteLists.Step(es, t, op)
  {
    hide WithoutKey, Alive;
    if op.Add? {
      ReplicaAddAgrees(es, t, PrefixOf(op.m), op.seconds, op.reason);
    }
  }
}
