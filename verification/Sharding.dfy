/**
 The sharded database: every key lives in the shard its hash selects.  The hash is an
 arbitrary function.
 */
module Sharding {

  import opened Basics
  import opened StatsDBs

  /** getShardIndex */
  function Place(hash: Key -> nat, n: nat, k: Key): (i: nat)
    requires n > 0
    ensures i < n
  {
    hash(k) % n
  }

  /** The shard of a key is the remainder of its hash. */
  lemma PlaceIff(hash: Key -> nat, n: nat, k: Key, i: nat)
    requires i < n
    ensures Place(hash, n, k) == i <==> exists q: nat :: hash(k) == q * n + i
  {
    var h := hash(k);
    assert h == (h / n) * n + h % n;
    if q: nat :| h == q * n + i {
      RemainderIs(h, q, n, i);
    }
  }

  lemma RemainderIs(h: nat, q: nat, n: nat, i: nat)
    requires i < n && h == q * n + i
    ensures h % n == i
  {
    var d := h / n - q;
    assert h == (h / n) * n + h % n;
    assert d * n == i - h % n;
    assert d >= 1 ==> d * n >= n;
    assert d <= -1 ==> d * n + n <= 0;
  }

  /** The operations that go to one shard. */
  function KeyOf<E, R>(op: Op<E, R>): (k: Option<Key>)
  {
    match op
    case Update(k, _, _) => Some(k)
    case Query(k, _, _) => Some(k)
    case AllFields(k, _) => Some(k)
    case ClearField(k, _, _) => Some(k)
    case _ => None
  }

  /** What a shard is asked when the wrapper is; set_size_soft divides the size. */
  function Part<E, R>(op: Op<E, R>, n: nat): (r: Op<E, R>)
    requires n > 0
  {
    match op
    case SetSoft(size) => SetSoft(size / n)
    case _ => op
  }

  function ShardStep<E, R>(shards: seq<View<E>>, op: Op<E, R>, make: Make<E>, hash: Key -> nat): (r: seq<View<E>>)
    requires |shards| > 0
    ensures |r| == |shards|
  {
    match KeyOf(op)
    case Some(k) => var i := Place(hash, |shards|, k); shards[i := Step(shards[i], op, make)]
    case None => seq(|shards|, i requires 0 <= i < |shards| => Step(shards[i], Part(op, |shards|), make))
  }

  function TotalSize<E>(shards: seq<View<E>>): (n: nat)
  {
    if shards == [] then 0 else TotalSize(shards[..|shards| - 1]) + |shards[|shards| - 1].entries|
  }

  /** The wrapper's answer; its setFields always says true. */
  function ShardReply<E, R>(shards: seq<View<E>>, op: Op<E, R>, make: Make<E>, hash: Key -> nat): (a: Answer<R>)
    requires |shards| > 0
  {
    match op
    case GetSize => Size(TotalSize(shards))
    case SetFields(_) => Ok(true)
    case _ =>
      match KeyOf(op)
      case Some(k) => Reply(shards[Place(hash, |shards|, k)], op, make)
      case None => Nothing
  }

  function NewShards<E>(n: nat): (r: seq<View<E>>)
    requires n > 0
  {
    seq(n, _ => View([], map[], map[], 524288 / n))
  }

  function ShardRun<E, R>(shards: seq<View<E>>, ops: seq<Op<E, R>>, make: Make<E>, hash: Key -> nat): (r: seq<View<E>>)
    requires |shards| > 0
    ensures |r| == |shards|
  {
    if ops == [] then shards else ShardStep(ShardRun(shards, ops[..|ops| - 1], make, hash), ops[|ops| - 1], make, hash)
  }

  // ---------------------------------------------------------------- simulation

  function Lookup<E>(v: View<E>, k: Key): (m: Option<map<string, E>>)
  {
    if k in v.entries then Some(v.entries[k]) else None
  }

  /** A shard holds only keys that belong to it. */
  predicate Homed<E>(shards: seq<View<E>>, hash: Key -> nat)
    requires |shards| > 0
  {
    forall i, k | 0 <= i < |shards| && k in shards[i].entries :: Place(hash, |shards|, k) == i
  }

  /** The shards hold together what `one` holds. */
  ghost predicate Simulates<E>(shards: seq<View<E>>, one: View<E>, hash: Key -> nat)
    requires |shards| > 0
  {
    && Homed(shards, hash)
    && (forall i | 0 <= i < |shards| :: shards[i].fields == one.fields)
    && (forall k :: Lookup(shards[Place(hash, |shards|, k)], k) == Lookup(one, k))
  }

  /** An operation on a key sees and changes nothing else. */
  lemma StepIsLocal<E, R>(v: View<E>, w: View<E>, op: Op<E, R>, make: Make<E>, key: Key)
    requires KeyOf(op) == Some(key) && v.fields == w.fields && Lookup(v, key) == Lookup(w, key)
    ensures Lookup(Step(v, op, make), key) == Lookup(Step(w, op, make), key)
    ensures Reply(v, op, make) == Reply(w, op, make)
  {
    hide MapAll, Touch;
  }

  lemma StepElsewhere<E, R>(v: View<E>, op: Op<E, R>, make: Make<E>, key: Key)
    requires KeyOf(op) == Some(key)
    ensures Step(v, op, make).fields == v.fields
    ensures forall k | k != key :: Lookup(Step(v, op, make), k) == Lookup(v, k)
  {
    hide MapAll, Touch;
  }

  lemma KeyStepSimulates<E, R>(shards: seq<View<E>>, one: View<E>, op: Op<E, R>, make: Make<E>, hash: Key -> nat, key: Key)
    requires |shards| > 0 && Simulates(shards, one, hash) && KeyOf(op) == Some(key)
    ensures Simulates(ShardStep(shards, op, make, hash), Step(one, op, make), hash)
    ensures ShardReply(shards, op, make, hash) == Reply(one, op, make)
  {
    hide Step, Reply, Place;
    var i := Place(hash, |shards|, key);
    StepIsLocal(shards[i], one, op, make, key);
    StepElsewhere(shards[i], op, make, key);
    StepElsewhere(one, op, make, key);
    var r := ShardStep(shards, op, make, hash);
    assert r == shards[i := Step(shards[i], op, make)];
    forall k
      ensures Lookup(r[Place(hash, |r|, k)], k) == Lookup(Step(one, op, make), k)
    {
      assert Lookup(shards[Place(hash, |shards|, k)], k) == Lookup(one, k);
    }
    forall j, k | 0 <= j < |r| && k in r[j].entries
      ensures Place(hash, |r|, k) == j
    {
      assert k != key ==> Lookup(r[j], k) == Lookup(shards[j], k);
    }
  }

  lemma AllStepSimulates<E, R>(shards: seq<View<E>>, one: View<E>, op: Op<E, R>, make: Make<E>, hash: Key -> nat)
    requires |shards| > 0 && Simulates(shards, one, hash) && KeyOf(op).None? && !op.ExpirePass?
    ensures Simulates(ShardStep(shards, op, make, hash), Step(one, op, make), hash)
  {
    hide Place;
    var r := ShardStep(shards, op, make, hash);
    var s := Step(one, op, make);
    forall i | 0 <= i < |r|
      ensures r[i].entries == shards[i].entries && r[i].fields == s.fields
    {
    }
    forall k
      ensures Lookup(r[Place(hash, |r|, k)], k) == Lookup(s, k)
    {
      assert Lookup(shards[Place(hash, |shards|, k)], k) == Lookup(one, k);
    }
  }

  // ---------------------------------------------------------------- sizes

  /** The keys of all the given shards. */
  function KeysBelow<E>(shards: seq<View<E>>): (s: set<Key>)
  {
    if shards == [] then {} else KeysBelow(shards[..|shards| - 1]) + shards[|shards| - 1].entries.Keys
  }

  lemma {:induction false} SizeBelow<E>(shards: seq<View<E>>, hash: Key -> nat, i: nat)
    requires |shards| > 0 && Homed(shards, hash) && i <= |shards|
    ensures |KeysBelow(shards[..i])| == TotalSize(shards[..i])
    ensures forall k :: k in KeysBelow(shards[..i]) <==> Place(hash, |shards|, k) < i && k in shards[Place(hash, |shards|, k)].entries
  {
    hide Place;
    if i == 0 {
    } else {
      SizeBelow(shards, hash, i - 1);
      assert shards[..i][..i - 1] == shards[..i - 1];
      var below, last := KeysBelow(shards[..i - 1]), shards[i - 1].entries;
      assert below !! last.Keys;
      assert |last| == |last.Keys|;
    }
  }

  /** The sizes of the shards add up to the number of distinct keys. */
  lemma SizesAddUp<E>(shards: seq<View<E>>, one: View<E>, hash: Key -> nat)
    requires |shards| > 0 && Simulates(shards, one, hash)
    ensures TotalSize(shards) == |one.entries|
  {
    hide Place, KeysBelow, TotalSize;
    SizeBelow(shards, hash, |shards|);
    assert shards[..|shards|] == shards;
    forall k
      ensures k in KeysBelow(shards) <==> k in one.entries
    {
      assert Lookup(shards[Place(hash, |shards|, k)], k) == Lookup(one, k);
    }
    assert KeysBelow(shards) == one.entries.Keys;
    assert |one.entries| == |one.entries.Keys|;
  }

  // ---------------------------------------------------------------- main results

  predicate NoExpiry<E, R>(ops: seq<Op<E, R>>)
  {
    forall i | 0 <= i < |ops| :: !ops[i].ExpirePass?
  }

  lemma {:induction false} ShardsSimulate<E, R>(n: nat, ops: seq<Op<E, R>>, make: Make<E>, hash: Key -> nat)
    requires n > 0 && NoExpiry(ops)
    ensures |ShardRun(NewShards<E>(1), ops, make, hash)| == 1
    ensures Simulates(ShardRun(NewShards<E>(n), ops, make, hash), ShardRun(NewShards<E>(1), ops, make, hash)[0], hash)
    decreases |ops|
  {
    hide Simulates, ShardStep, Step;
    if ops == [] {
      NewSimulates<E>(n, hash);
    } else {
      var before, op := ops[..|ops| - 1], ops[|ops| - 1];
      ShardsSimulate<E, R>(n, before, make, hash);
      var shards, one := ShardRun(NewShards<E>(n), before, make, hash), ShardRun(NewShards<E>(1), before, make, hash);
      OneShardStep(one, op, make, hash);
      match KeyOf(op)
      case Some(key) => KeyStepSimulates(shards, one[0], op, make, hash, key);
      case None => AllStepSimulates(shards, one[0], op, make, hash);
    }
  }

  lemma NewSimulates<E>(n: nat, hash: Key -> nat)
    requires n > 0
    ensures Simulates(NewShards<E>(n), NewShards<E>(1)[0], hash)
  {
  }

  /** A wrapper with one shard is that shard. */
  lemma OneShardStep<E, R>(one: seq<View<E>>, op: Op<E, R>, make: Make<E>, hash: Key -> nat)
    requires |one| == 1
    ensures ShardStep(one, op, make, hash)[0] == Step(one[0], op, make)
    ensures forall k :: Place(hash, 1, k) == 0
    ensures TotalSize(one) == |one[0].entries|
  {
    hide Step;
    assert one[..0] == [];
  }

  /**
   For every sequence of operations without expiry, any number of shards answers the
   next operation as one shard does.
   */
  lemma {:induction false} ShardingIsTransparent<E, R>(n: nat, ops: seq<Op<E, R>>, op: Op<E, R>, make: Make<E>, hash: Key -> nat)
    requires n > 0 && NoExpiry(ops)
    ensures ShardReply(ShardRun(NewShards<E>(n), ops, make, hash), op, make, hash)
         == ShardReply(ShardRun(NewShards<E>(1), ops, make, hash), op, make, hash)
  {
    hide Simulates, ShardStep, Step, Reply, Place, TotalSize, ShardRun;
    ShardsSimulate<E, R>(n, ops, make, hash);
    var shards, one := ShardRun(NewShards<E>(n), ops, make, hash), ShardRun(NewShards<E>(1), ops, make, hash);
    OneShardStep(one, op, make, hash);
    match KeyOf(op)
    case Some(key) => KeyStepSimulates(shards, one[0], op, make, hash, key);
    case None =>
      if op.GetSize? {
        SizesAddUp(shards, one[0], hash);
      }
  }

  // ---------------------------------------------------------------- shards made one after the other

  /** Every shard makes its own entries, with the start time it took when it was made. */
  function OwnMake<E>(makes: seq<Make<E>>, hash: Key -> nat): (make: Make<E>)
    requires |makes| > 0
  {
    (k: Key, f: string, ty: string) => makes[Place(hash, |makes|, k)](k, f, ty)
  }

  ghost predicate SameFor<E>(k: Key, a: Make<E>, b: Make<E>)
  {
    forall f, ty :: a(k, f, ty) == b(k, f, ty)
  }

  /** An operation on a key makes entries of that key only. */
  lemma StepMakesOwn<E, R>(v: View<E>, op: Op<E, R>, a: Make<E>, b: Make<E>)
    requires KeyOf(op).Some? ==> SameFor(KeyOf(op).value, a, b)
    ensures Step(v, op, a) == Step(v, op, b) && Reply(v, op, a) == Reply(v, op, b)
  {
    hide Touch, MapAll, Expired;
  }

  /** The wrapper over shards with makes of their own lets each shard use its own. */
  lemma ShardsUseOwn<E, R>(shards: seq<View<E>>, op: Op<E, R>, makes: seq<Make<E>>, hash: Key -> nat)
    requires |shards| == |makes| > 0
    ensures ShardStep(shards, op, OwnMake(makes, hash), hash)
         == match KeyOf(op)
            case Some(k) => var i := Place(hash, |shards|, k); shards[i := Step(shards[i], op, makes[i])]
            case None => seq(|shards|, i requires 0 <= i < |shards| => Step(shards[i], Part(op, |shards|), makes[i]))
  {
    hide Step, Place;
    var own, n := OwnMake(makes, hash), |shards|;
    match KeyOf(op)
    case Some(k) =>
      var i := Place(hash, n, k);
      StepMakesOwn(shards[i], op, own, makes[i]);
    case None =>
      forall i | 0 <= i < n
        ensures Step(shards[i], Part(op, n), own) == Step(shards[i], Part(op, n), makes[i])
      {
        StepMakesOwn(shards[i], Part(op, n), own, makes[i]);
      }
  }

  lemma {:induction false} KeyRunsAlone<E, R>(ops: seq<Op<E, R>>, a: Make<E>, b: Make<E>, hash: Key -> nat, key: Key)
    requires NoExpiry(ops) && SameFor(key, a, b)
    ensures var v, w := ShardRun(NewShards<E>(1), ops, a, hash)[0], ShardRun(NewShards<E>(1), ops, b, hash)[0];
            v.fields == w.fields && Lookup(v, key) == Lookup(w, key)
    decreases |ops|
  {
    hide ShardStep, Step, Reply, Lookup, SameFor;
    if ops == [] {
    } else {
      var before, op := ops[..|ops| - 1], ops[|ops| - 1];
      KeyRunsAlone<E, R>(before, a, b, hash, key);
      var x, y := ShardRun(NewShards<E>(1), before, a, hash), ShardRun(NewShards<E>(1), before, b, hash);
      OneShardStep(x, op, a, hash);
      OneShardStep(y, op, b, hash);
      KeyStepsAlone(x[0], y[0], op, a, b, key);
    }
  }

  lemma KeyStepsAlone<E, R>(v: View<E>, w: View<E>, op: Op<E, R>, a: Make<E>, b: Make<E>, key: Key)
    requires !op.ExpirePass? && SameFor(key, a, b) && v.fields == w.fields && Lookup(v, key) == Lookup(w, key)
    ensures Step(v, op, a).fields == Step(w, op, b).fields && Lookup(Step(v, op, a), key) == Lookup(Step(w, op, b), key)
  {
    hide SameFor;
    match KeyOf(op)
    case Some(k) =>
      hide Step;
      StepElsewhere(v, op, a, k);
      StepElsewhere(w, op, b, k);
      if k == key {
        StepIsLocal(v, w, op, a, key);
        StepMakesOwn(w, op, a, b);
      }
    case None =>
  }

  /**
   Shards whose start times differ: an operation on a key is answered as by one database
   that takes its start time from the key's shard.
   */
  lemma ShardAnswersAsItsOwn<E, R>(n: nat, ops: seq<Op<E, R>>, op: Op<E, R>, makes: seq<Make<E>>, hash: Key -> nat, key: Key)
    requires |makes| == n > 0 && NoExpiry(ops) && KeyOf(op) == Some(key)
    ensures var own, shard := OwnMake(makes, hash), makes[Place(hash, n, key)];
            ShardReply(ShardRun(NewShards<E>(n), ops, own, hash), op, own, hash)
            == ShardReply(ShardRun(NewShards<E>(1), ops, shard, hash), op, shard, hash)
  {
    hide ShardRun, Step, Reply, Place, NoExpiry;
    var own, shard := OwnMake(makes, hash), makes[Place(hash, n, key)];
    ShardingIsTransparent<E, R>(n, ops, op, own, hash);
    KeyRunsAlone<E, R>(ops, own, shard, hash, key);
    var v, w := ShardRun(NewShards<E>(1), ops, own, hash)[0], ShardRun(NewShards<E>(1), ops, shard, hash)[0];
    StepIsLocal(v, w, op, own, key);
    StepMakesOwn(w, op, own, shard);
    OneShardStep<E, R>([v], op, own, hash);
  }

  /** get_size is the number of keys, each of which is in exactly the shard it belongs to. */
  lemma {:induction false} SizeCountsKeys<E, R>(n: nat, ops: seq<Op<E, R>>, make: Make<E>, hash: Key -> nat)
    requires n > 0 && NoExpiry(ops)
    ensures var shards := ShardRun(NewShards<E>(n), ops, make, hash);
            TotalSize(shards) == |KeysBelow(shards)| && Homed(shards, hash)
  {
    hide ShardRun, TotalSize, KeysBelow, Place;
    ShardsSimulate<E, R>(n, ops, make, hash);
    var shards := ShardRun(NewShards<E>(n), ops, make, hash);
    SizeBelow(shards, hash, n);
    assert shards[..n] == shards;
  }

  lemma {:induction false} SumOfSoft<E>(shards: seq<View<E>>, limit: nat)
    requires forall i | 0 <= i < |shards| :: |shards[i].entries| <= limit
    ensures TotalSize(shards) <= |shards| * limit
  {
    if shards == [] {
    } else {
      SumOfSoft(shards[..|shards| - 1], limit);
      assert |shards| * limit == (|shards| - 1) * limit + limit;
    }
  }

  lemma SoftKeeps<E>(v: View<E>, n: nat)
    requires Consistent(v)
    ensures Consistent(v.(soft := n))
  {
  }

  lemma Divided(size: nat, n: nat)
    requires n > 0
    ensures n * (size / n) <= size
  {
  }

  /**
   After set_size_soft(size) and one expiry pass of every shard, each shard that had more keys
   than its share has exactly its share, the others all they had; together at most `size`.
   */
  lemma SoftSizeHolds<E, R>(shards: seq<View<E>>, size: nat, make: Make<E>, hash: Key -> nat)
    requires |shards| > 0 && forall i | 0 <= i < |shards| :: Consistent(shards[i])
    ensures var soft := ShardStep(shards, Op<E, R>.SetSoft(size), make, hash);
            var r := ShardStep(soft, Op<E, R>.ExpirePass, make, hash);
            && TotalSize(r) <= size
            && forall i | 0 <= i < |shards| ::
                 if |shards[i].entries| > size / |shards| then |r[i].entries| == size / |shards| else r[i].entries == shards[i].entries
  {
    hide Expired, Consistent;
    var n := |shards|;
    var soft := ShardStep(shards, Op<E, R>.SetSoft(size), make, hash);
    var r := ShardStep(soft, Op<E, R>.ExpirePass, make, hash);
    forall i | 0 <= i < n
      ensures |r[i].entries| <= size / n
      ensures if |shards[i].entries| > size / n then |r[i].entries| == size / n else r[i].entries == shards[i].entries
    {
      assert soft[i] == shards[i].(soft := size / n);
      assert r[i] == Expired(soft[i]);
      SoftKeeps(shards[i], size / n);
      ExpiredConsistent(soft[i]);
    }
    SumOfSoft(r, size / n);
    Divided(size, n);
  }

  lemma {:induction false} ShardsConsistent<E, R>(n: nat, ops: seq<Op<E, R>>, make: Make<E>, hash: Key -> nat)
    requires n > 0
    ensures forall i | 0 <= i < n :: Consistent(ShardRun(NewShards<E>(n), ops, make, hash)[i])
    decreases |ops|
  {
    hide Step, Consistent, Place, Part;
    if ops == [] {
      forall i | 0 <= i < n ensures Consistent(NewShards<E>(n)[i]) { NewConsistent<E>(n, i); }
    } else {
      var before, op := ops[..|ops| - 1], ops[|ops| - 1];
      ShardsConsistent<E, R>(n, before, make, hash);
      var shards := ShardRun(NewShards<E>(n), before, make, hash);
      forall i | 0 <= i < n
        ensures Consistent(ShardStep(shards, op, make, hash)[i])
      {
        StepOrder(shards[i], op, make);
        StepOrder(shards[i], Part(op, n), make);
      }
    }
  }

  lemma NewConsistent<E>(n: nat, i: nat)
    requires i < n
    ensures Consistent(NewShards<E>(n)[i])
  {
  }

  /** setFields on a wrapper: every shard takes the fields if all their types are known, and none does otherwise. */
  lemma SetFieldsIff<E, R>(shards: seq<View<E>>, fields: map<string, string>, make: Make<E>, hash: Key -> nat, i: nat)
    requires |shards| > 0 && i < |shards|
    ensures var r := ShardStep(shards, Op<E, R>.SetFields(fields), make, hash);
            && r[i].entries == shards[i].entries && r[i].order == shards[i].order && r[i].soft == shards[i].soft
            && r[i].fields == if fields.Values <= {"int", "hll", "countmin"} then fields else shards[i].fields
    ensures ShardReply(shards, Op<E, R>.SetFields(fields), make, hash) == Ok(true)
  {
    assert forall f | f in fields :: fields[f] in fields.Values;
  }

  predicate NoSoft<E, R>(ops: seq<Op<E, R>>)
  {
    forall i | 0 <= i < |ops| :: !ops[i].SetSoft?
  }

  /** Without set_size_soft every shard keeps its share of half a million keys. */
  lemma {:induction false} DefaultSoft<E, R>(n: nat, ops: seq<Op<E, R>>, make: Make<E>, hash: Key -> nat, i: nat)
    requires i < n && NoSoft(ops)
    ensures ShardRun(NewShards<E>(n), ops, make, hash)[i].soft == 512 * 1024 / n
    decreases |ops|
  {
    hide Place;
    if ops != [] {
      DefaultSoft<E, R>(n, ops[..|ops| - 1], make, hash, i);
    }
  }

  /** The same in every state a run reaches, with or without expiry before. */
  lemma {:induction false} SoftSizeHoldsInRuns<E, R>(n: nat, ops: seq<Op<E, R>>, size: nat, make: Make<E>, hash: Key -> nat)
    requires n > 0
    ensures var before := ShardRun(NewShards<E>(n), ops, make, hash);
            var r := ShardRun(NewShards<E>(n), ops + [SetSoft(size), ExpirePass], make, hash);
            && TotalSize(r) <= size
            && forall i | 0 <= i < n ::
                 if |before[i].entries| > size / n then |r[i].entries| == size / n else r[i].entries == before[i].entries
  {
    hide ShardStep, TotalSize;
    ShardsConsistent<E, R>(n, ops, make, hash);
    var all := ops + [SetSoft(size), ExpirePass];
    assert all[..|all| - 1] == ops + [SetSoft(size)];
    assert (ops + [SetSoft(size)])[..|ops|] == ops;
    SoftSizeHolds<E, R>(ShardRun(NewShards<E>(n), ops, make, hash), size, make, hash);
  }
}
