/**
 Full synchronisation: every shard's keys are dumped in list order, one message per key,
 and a peer applies the messages.  The dump and the restoration of one entry are arguments.
 */
module FullSync {

  import opened Basics
  import opened StatsDBs
  import opened Sharding

  datatype SyncField<D> = SyncField(name: string, data: D)

  /** A SyncKey message. */
  datatype SyncMsg<D> = SyncMsg(key: Key, fields: seq<SyncField<D>>)

  // ---------------------------------------------------------------- dumping

  predicate DistinctNames<D>(fs: seq<SyncField<D>>)
  {
    fs != [] ==> DistinctNames(fs[..|fs| - 1]) && fs[|fs| - 1].name !in Names(fs[..|fs| - 1])
  }

  function Names<D>(fs: seq<SyncField<D>>): (s: set<string>)
  {
    if fs == [] then {} else Names(fs[..|fs| - 1]) + {fs[|fs| - 1].name}
  }

  /** The fields are those of the entry, each once, in some order. */
  ghost predicate Lists<E, D>(fs: seq<SyncField<D>>, m: map<string, E>, dump: E -> D)
  {
    DistinctNames(fs) && Names(fs) == m.Keys && Listed(fs, m, dump)
  }

  ghost predicate Listed<E, D>(fs: seq<SyncField<D>>, m: map<string, E>, dump: E -> D)
  {
    forall i | 0 <= i < |fs| :: fs[i].name in m && fs[i].data == dump(m[fs[i].name])
  }

  lemma NoNames<D>()
    ensures Names<D>([]) == {} && DistinctNames<D>([])
  {
  }

  lemma NamesSnoc<D>(fs: seq<SyncField<D>>, f: SyncField<D>)
    ensures Names(fs + [f]) == Names(fs) + {f.name}
    ensures DistinctNames(fs) && f.name !in Names(fs) ==> DistinctNames(fs + [f])
  {
    assert (fs + [f])[..|fs|] == fs;
  }

  /** DBDumpEntry */
  method DumpEntry<E, D>(m: map<string, E>, dump: E -> D) returns (fs: seq<SyncField<D>>)
    ensures Lists(fs, m, dump)
  {
    hide Names, DistinctNames;
    fs := [];
    NoNames<D>();
    var todo := m.Keys;
    while todo != {}
      invariant todo <= m.Keys && DistinctNames(fs) && Names(fs) == m.Keys - todo
      invariant forall i | 0 <= i < |fs| :: fs[i].name in m && fs[i].data == dump(m[fs[i].name])
      decreases todo
    {
      var f :| f in todo;
      NamesSnoc(fs, SyncField(f, dump(m[f])));
      fs := fs + [SyncField(f, dump(m[f]))];
      todo := todo - {f};
    }
  }

  function KeysIn<D>(ms: seq<SyncMsg<D>>): (s: set<Key>)
  {
    if ms == [] then {} else KeysIn(ms[..|ms| - 1]) + {ms[|ms| - 1].key}
  }

  predicate DistinctKeys<D>(ms: seq<SyncMsg<D>>)
  {
    ms != [] ==> DistinctKeys(ms[..|ms| - 1]) && ms[|ms| - 1].key !in KeysIn(ms[..|ms| - 1])
  }

  /** Every message is the dump of its key's entry. */
  ghost predicate Faithful<E, D>(ms: seq<SyncMsg<D>>, one: View<E>, dump: E -> D)
  {
    ms != [] ==>
      && Faithful(ms[..|ms| - 1], one, dump)
      && ms[|ms| - 1].key in one.entries && Lists(ms[|ms| - 1].fields, one.entries[ms[|ms| - 1].key], dump)
  }

  /** The messages are a dump of `one`: each key once, with all its fields. */
  ghost predicate Dumps<E, D>(ms: seq<SyncMsg<D>>, one: View<E>, dump: E -> D)
  {
    DistinctKeys(ms) && KeysIn(ms) == one.entries.Keys && Faithful(ms, one, dump)
  }

  lemma KeysInSnoc<D>(ms: seq<SyncMsg<D>>, m: SyncMsg<D>)
    ensures KeysIn(ms + [m]) == KeysIn(ms) + {m.key}
    ensures DistinctKeys(ms) && m.key !in KeysIn(ms) ==> DistinctKeys(ms + [m])
  {
    assert (ms + [m])[..|ms|] == ms;
  }

  lemma FaithfulSnoc<E, D>(ms: seq<SyncMsg<D>>, m: SyncMsg<D>, one: View<E>, dump: E -> D)
    requires Faithful(ms, one, dump) && m.key in one.entries && Lists(m.fields, one.entries[m.key], dump)
    ensures Faithful(ms + [m], one, dump)
  {
    hide Lists;
    assert (ms + [m])[..|ms|] == ms;
  }

  lemma {:induction false} PrefixMembers(ks: seq<Key>, i: nat)
    requires Distinct(ks) && i < |ks|
    ensures Members(ks[..i + 1]) == Members(ks[..i]) + {ks[i]} && ks[i] !in Members(ks[..i])
  {
    if i == 0 {
      assert ks[..1][1..] == [];
    } else {
      PrefixMembers(ks[1..], i - 1);
      assert ks[..i][1..] == ks[1..][..i - 1] && ks[..i + 1][1..] == ks[1..][..i];
      MemberIn(ks[1..], i - 1);
    }
  }

  lemma {:induction false} MemberIn(ks: seq<Key>, i: nat)
    requires i < |ks|
    ensures ks[i] in Members(ks)
  {
    if i > 0 { MemberIn(ks[1..], i - 1); }
  }

  /** The part of dumpDBToNetwork that dumps one shard, after the messages `sent`. */
  method DumpShard<E, D>(v: View<E>, dump: E -> D, sent: seq<SyncMsg<D>>, ghost one: View<E>) returns (ms: seq<SyncMsg<D>>)
    requires Consistent(v) && DistinctKeys(sent) && Faithful(sent, one, dump) && KeysIn(sent) !! v.entries.Keys
    requires forall k | k in v.entries :: k in one.entries && one.entries[k] == v.entries[k]
    ensures DistinctKeys(ms) && Faithful(ms, one, dump) && KeysIn(ms) == KeysIn(sent) + v.entries.Keys
  {
    hide Lists, DistinctKeys, Faithful, KeysIn, Distinct;
    ms := sent;
    assert v.order[..0] == [];
    for i := 0 to |v.order|
      invariant DistinctKeys(ms) && Faithful(ms, one, dump)
      invariant KeysIn(ms) == KeysIn(sent) + Members(v.order[..i])
    {
      var k := v.order[i];
      MemberIn(v.order, i);
      PrefixMembers(v.order, i);
      var fs := DumpEntry(v.entries[k], dump);
      KeysInSnoc(ms, SyncMsg(k, fs));
      FaithfulSnoc(ms, SyncMsg(k, fs), one, dump);
      ms := ms + [SyncMsg(k, fs)];
    }
    assert v.order[..|v.order|] == v.order;
  }

  /** dumpDBToNetwork: the shards together dump what they hold together. */
  method DumpAll<E, D>(shards: seq<View<E>>, dump: E -> D, ghost hash: Key -> nat, ghost one: View<E>) returns (ms: seq<SyncMsg<D>>)
    requires |shards| > 0 && Simulates(shards, one, hash) && forall i | 0 <= i < |shards| :: Consistent(shards[i])
    ensures Dumps(ms, one, dump)
  {
    hide Place, Consistent, DistinctKeys, Faithful, KeysIn;
    ms := [];
    NoMessages<E, D>(one, dump);
    for i := 0 to |shards|
      invariant DistinctKeys(ms) && Faithful(ms, one, dump)
      invariant forall k :: k in KeysIn(ms) <==> k in one.entries && Place(hash, |shards|, k) < i
    {
      forall k | k in shards[i].entries
        ensures k in one.entries && one.entries[k] == shards[i].entries[k] && Place(hash, |shards|, k) == i
      {
        assert Lookup(shards[Place(hash, |shards|, k)], k) == Lookup(one, k);
      }
      forall k | k in one.entries && Place(hash, |shards|, k) == i
        ensures k in shards[i].entries
      {
        assert Lookup(shards[Place(hash, |shards|, k)], k) == Lookup(one, k);
      }
      ms := DumpShard(shards[i], dump, ms, one);
    }
    assert KeysIn(ms) == one.entries.Keys;
  }

  lemma NoMessages<E, D>(one: View<E>, dump: E -> D)
    ensures DistinctKeys<D>([]) && Faithful<E, D>([], one, dump) && KeysIn<D>([]) == {}
  {
  }

  // ---------------------------------------------------------------- applying

  /** The restoration of a dumped entry into an existing one. */
  type Restorer<!E, !D> = (E, D) -> Outcome<E, bool>

  function RestoreOp<E, D>(k: Key, f: SyncField<D>, restore: Restorer<E, D>): (op: Op<E, bool>)
    ensures KeyOf(op) == Some(k)
  {
    Update(k, f.name, (e: E) => restore(e, f.data))
  }

  /** restoreEntry, on an unsharded database. */
  function RestoreKey<E, D>(v: View<E>, k: Key, fs: seq<SyncField<D>>, restore: Restorer<E, D>, make: Make<E>): (r: View<E>)
  {
    if fs == [] then v
    else Step(RestoreKey(v, k, fs[..|fs| - 1], restore, make), RestoreOp(k, fs[|fs| - 1], restore), make)
  }

  function SyncAll<E, D>(v: View<E>, ms: seq<SyncMsg<D>>, restore: Restorer<E, D>, make: Make<E>): (r: View<E>)
  {
    if ms == [] then v
    else RestoreKey(SyncAll(v, ms[..|ms| - 1], restore, make), ms[|ms| - 1].key, ms[|ms| - 1].fields, restore, make)
  }

  /** The fields a key ends with when it had none: the known ones, each restored into a new entry. */
  function Got<E, D>(types: map<string, string>, k: Key, fs: seq<SyncField<D>>, restore: Restorer<E, D>, make: Make<E>): (m: map<string, E>)
    ensures m.Keys <= Names(fs)
  {
    if fs == [] then map[] else
      var rest, f := Got(types, k, fs[..|fs| - 1], restore, make), fs[|fs| - 1];
      if f.name in types && types[f.name] in TYPES then rest[f.name := restore(make(k, f.name, types[f.name]), f.data).entry] else rest
  }

  function Filled<E>(m: map<string, E>): (r: Option<map<string, E>>)
  {
    if m == map[] then None else Some(m)
  }

  /** One restored field of a key. */
  lemma RestoreOne<E, D>(v: View<E>, k: Key, f: SyncField<D>, restore: Restorer<E, D>, make: Make<E>, m: map<string, E>)
    requires Lookup(v, k) == Filled(m) && f.name !in m
    ensures var r := Step(v, RestoreOp(k, f, restore), make);
            && r.fields == v.fields
            && Lookup(r, k) == Filled(if Known(v, f.name) then m[f.name := restore(make(k, f.name, v.fields[f.name]), f.data).entry] else m)
  {
    hide Touch;
    if Known(v, f.name) {
      var made := make(k, f.name, v.fields[f.name]);
      var e := restore(made, f.data).entry;
      var n := m[f.name := e];
      assert f.name in n && n != map[];
      assert n == m[f.name := made][f.name := e];
      var r := Step(v, RestoreOp(k, f, restore), make);
      assert m == map[] ==> map[f.name := made] == m[f.name := made];
      assert r.entries[k] == n;
    }
  }

  lemma {:induction false} RestoreKeyGets<E, D>(v: View<E>, k: Key, fs: seq<SyncField<D>>, restore: Restorer<E, D>, make: Make<E>)
    requires k !in v.entries && DistinctNames(fs)
    ensures RestoreKey(v, k, fs, restore, make).fields == v.fields
    ensures Lookup(RestoreKey(v, k, fs, restore, make), k) == Filled(Got(v.fields, k, fs, restore, make))
  {
    hide Step, RestoreOp;
    if fs == [] {
    } else {
      var rest := fs[..|fs| - 1];
      RestoreKeyGets(v, k, rest, restore, make);
      RestoreOne(RestoreKey(v, k, rest, restore, make), k, fs[|fs| - 1], restore, make, Got(v.fields, k, rest, restore, make));
    }
  }

  lemma {:induction false} RestoreKeyElsewhere<E, D>(v: View<E>, k: Key, fs: seq<SyncField<D>>,
                                                     restore: Restorer<E, D>, make: Make<E>, j: Key)
    requires j != k
    ensures Lookup(RestoreKey(v, k, fs, restore, make), j) == Lookup(v, j)
    ensures RestoreKey(v, k, fs, restore, make).fields == v.fields
  {
    hide Step;
    if fs == [] {
    } else {
      RestoreKeyElsewhere(v, k, fs[..|fs| - 1], restore, make, j);
      StepElsewhere(RestoreKey(v, k, fs[..|fs| - 1], restore, make), RestoreOp(k, fs[|fs| - 1], restore), make, k);
    }
  }

  /** What a peer without entries holds for a key after all messages. */
  function GotFor<E, D>(types: map<string, string>, ms: seq<SyncMsg<D>>,
                        restore: Restorer<E, D>, make: Make<E>, k: Key): (m: Option<map<string, E>>)
  {
    if ms == [] then None
    else if ms[|ms| - 1].key == k then Filled(Got(types, k, ms[|ms| - 1].fields, restore, make))
    else GotFor(types, ms[..|ms| - 1], restore, make, k)
  }

  predicate NamesOk<D>(ms: seq<SyncMsg<D>>)
  {
    ms != [] ==> NamesOk(ms[..|ms| - 1]) && DistinctNames(ms[|ms| - 1].fields)
  }

  lemma {:induction false} SyncAllGets<E, D>(v: View<E>, ms: seq<SyncMsg<D>>, restore: Restorer<E, D>, make: Make<E>, k: Key)
    requires v.entries == map[] && DistinctKeys(ms) && NamesOk(ms)
    ensures SyncAll(v, ms, restore, make).fields == v.fields
    ensures Lookup(SyncAll(v, ms, restore, make), k) == GotFor(v.fields, ms, restore, make, k)
    ensures k !in KeysIn(ms) ==> GotFor(v.fields, ms, restore, make, k) == None
  {
    hide RestoreKey, Got, DistinctNames;
    if ms == [] {
    } else {
      var rest, m := ms[..|ms| - 1], ms[|ms| - 1];
      SyncAllGets(v, rest, restore, make, k);
      SyncAllGets(v, rest, restore, make, m.key);
      var u := SyncAll(v, rest, restore, make);
      assert m.key !in u.entries;
      RestoreKeyGets(u, m.key, m.fields, restore, make);
      if k != m.key {
        RestoreKeyElsewhere(u, m.key, m.fields, restore, make, k);
      }
    }
  }

  // ---------------------------------------------------------------- round trip

  /** The known fields of an entry, each as `strip` leaves it. */
  function Stripped<E>(types: map<string, string>, m: map<string, E>, strip: E -> E): (r: map<string, E>)
  {
    map f | f in m && f in types && types[f] in TYPES :: strip(m[f])
  }

  /** Restoring the dump of the field's entry into a new entry gives it back, up to `strip`. */
  ghost predicate FieldReturns<E, D>(types: map<string, string>, k: Key, m: map<string, E>, dump: E -> D, restore: Restorer<E, D>,
                                     make: Make<E>, strip: E -> E)
  {
    forall f | f in m && f in types && types[f] in TYPES ::
      restore(make(k, f, types[f]), dump(m[f])) == Outcome(strip(m[f]), true, false)
  }

  lemma {:induction false} GotReturns<E, D>(types: map<string, string>, k: Key, fs: seq<SyncField<D>>, m: map<string, E>,
                                            dump: E -> D, restore: Restorer<E, D>, make: Make<E>, strip: E -> E)
    requires Listed(fs, m, dump) && FieldReturns(types, k, m, dump, restore, make, strip)
    ensures Got(types, k, fs, restore, make) == map f | f in m && f in Names(fs) && f in types && types[f] in TYPES :: strip(m[f])
  {
    if fs == [] {
    } else {
      var rest, f := fs[..|fs| - 1], fs[|fs| - 1];
      GotReturns(types, k, rest, m, dump, restore, make, strip);
      assert f.name in m && f.data == dump(m[f.name]);
    }
  }

  lemma ListsReturn<E, D>(types: map<string, string>, k: Key, fs: seq<SyncField<D>>, m: map<string, E>,
                          dump: E -> D, restore: Restorer<E, D>, make: Make<E>, strip: E -> E)
    requires Lists(fs, m, dump) && FieldReturns(types, k, m, dump, restore, make, strip)
    ensures Got(types, k, fs, restore, make) == Stripped(types, m, strip)
  {
    hide DistinctNames, FieldReturns, Got, Names;
    GotReturns(types, k, fs, m, dump, restore, make, strip);
  }

  lemma {:induction false} FaithfulReturns<E, D>(types: map<string, string>, ms: seq<SyncMsg<D>>, one: View<E>,
                                                 dump: E -> D, restore: Restorer<E, D>, make: Make<E>, strip: E -> E, k: Key)
    requires Faithful(ms, one, dump) && k in KeysIn(ms)
    requires forall j | j in one.entries :: FieldReturns(types, j, one.entries[j], dump, restore, make, strip)
    ensures k in one.entries && GotFor(types, ms, restore, make, k) == Filled(Stripped(types, one.entries[k], strip))
  {
    hide Lists, FieldReturns, Got, Stripped;
    var m := ms[|ms| - 1];
    if m.key == k {
      ListsReturn(types, k, m.fields, one.entries[k], dump, restore, make, strip);
    } else {
      FaithfulReturns(types, ms[..|ms| - 1], one, dump, restore, make, strip, k);
    }
  }

  lemma {:induction false} FaithfulNames<E, D>(ms: seq<SyncMsg<D>>, one: View<E>, dump: E -> D)
    requires Faithful(ms, one, dump)
    ensures NamesOk(ms)
  {
    if ms == [] {
    } else {
      FaithfulNames(ms[..|ms| - 1], one, dump);
    }
  }

  /** On an unsharded peer: every key comes back with its known fields, and no other key appears. */
  lemma SyncReturns<E, D>(v: View<E>, ms: seq<SyncMsg<D>>, one: View<E>,
                          dump: E -> D, restore: Restorer<E, D>, make: Make<E>, strip: E -> E, k: Key)
    requires v.entries == map[] && Dumps(ms, one, dump)
    requires forall j | j in one.entries :: FieldReturns(v.fields, j, one.entries[j], dump, restore, make, strip)
    ensures Lookup(SyncAll(v, ms, restore, make), k)
         == if k in one.entries then Filled(Stripped(v.fields, one.entries[k], strip)) else None
  {
    hide FieldReturns, Faithful, DistinctKeys, SyncAll, GotFor, Stripped;
    FaithfulNames(ms, one, dump);
    SyncAllGets(v, ms, restore, make, k);
    if k in one.entries {
      FaithfulReturns(v.fields, ms, one, dump, restore, make, strip, k);
    }
  }

  // ---------------------------------------------------------------- a sharded peer

  function ShardRestore<E, D>(shards: seq<View<E>>, k: Key, fs: seq<SyncField<D>>,
                              restore: Restorer<E, D>, make: Make<E>, hash: Key -> nat): (r: seq<View<E>>)
    requires |shards| > 0
    ensures |r| == |shards|
  {
    if fs == [] then shards
    else ShardStep(ShardRestore(shards, k, fs[..|fs| - 1], restore, make, hash), RestoreOp(k, fs[|fs| - 1], restore), make, hash)
  }

  function ShardSync<E, D>(shards: seq<View<E>>, ms: seq<SyncMsg<D>>,
                           restore: Restorer<E, D>, make: Make<E>, hash: Key -> nat): (r: seq<View<E>>)
    requires |shards| > 0
    ensures |r| == |shards|
  {
    if ms == [] then shards
    else ShardRestore(ShardSync(shards, ms[..|ms| - 1], restore, make, hash), ms[|ms| - 1].key, ms[|ms| - 1].fields, restore, make, hash)
  }

  lemma {:induction false} ShardRestoreSimulates<E, D>(shards: seq<View<E>>, v: View<E>, k: Key, fs: seq<SyncField<D>>,
                                                       restore: Restorer<E, D>, make: Make<E>, hash: Key -> nat)
    requires |shards| > 0 && Simulates(shards, v, hash)
    ensures Simulates(ShardRestore(shards, k, fs, restore, make, hash), RestoreKey(v, k, fs, restore, make), hash)
  {
    hide Simulates, ShardStep, Step, RestoreOp;
    if fs == [] {
    } else {
      var rest := fs[..|fs| - 1];
      ShardRestoreSimulates(shards, v, k, rest, restore, make, hash);
      KeyStepSimulates(ShardRestore(shards, k, rest, restore, make, hash), RestoreKey(v, k, rest, restore, make),
                       RestoreOp(k, fs[|fs| - 1], restore), make, hash, k);
    }
  }

  lemma {:induction false} ShardSyncSimulates<E, D>(shards: seq<View<E>>, v: View<E>, ms: seq<SyncMsg<D>>,
                                                    restore: Restorer<E, D>, make: Make<E>, hash: Key -> nat)
    requires |shards| > 0 && Simulates(shards, v, hash)
    ensures Simulates(ShardSync(shards, ms, restore, make, hash), SyncAll(v, ms, restore, make), hash)
  {
    hide Simulates, ShardRestore, RestoreKey;
    if ms == [] {
    } else {
      var rest, m := ms[..|ms| - 1], ms[|ms| - 1];
      ShardSyncSimulates(shards, v, rest, restore, make, hash);
      ShardRestoreSimulates(ShardSync(shards, rest, restore, make, hash), SyncAll(v, rest, restore, make), m.key, m.fields, restore, make, hash);
    }
  }

  /**
   Any dump of any number of source shards, applied to an empty peer with any number of
   shards: the peer holds exactly the source's keys that have a known field, each in its
   own shard, with exactly the known fields, every one as `strip` leaves it.
   */
  lemma FullSyncReturns<E, D>(source: seq<View<E>>, sourceHash: Key -> nat, one: View<E>, ms: seq<SyncMsg<D>>,
                              peer: seq<View<E>>, types: map<string, string>, peerHash: Key -> nat,
                              dump: E -> D, restore: Restorer<E, D>, make: Make<E>, strip: E -> E, k: Key)
    requires |source| > 0 && Simulates(source, one, sourceHash) && Dumps(ms, one, dump)
    requires |peer| > 0 && forall i | 0 <= i < |peer| :: peer[i].entries == map[] && peer[i].fields == types
    requires forall j | j in one.entries :: FieldReturns(types, j, one.entries[j], dump, restore, make, strip)
    ensures var r := ShardSync(peer, ms, restore, make, peerHash);
            && Homed(r, peerHash)
            && Lookup(r[Place(peerHash, |r|, k)], k)
            == match Lookup(source[Place(sourceHash, |source|, k)], k)
               case Some(m) => Filled(Stripped(types, m, strip))
               case None => None
  {
    hide FieldReturns, Dumps, ShardSync, SyncAll, Stripped, Place;
    var v := View([], map[], types, 0);
    assert Simulates(peer, v, peerHash);
    ShardSyncSimulates(peer, v, ms, restore, make, peerHash);
    SyncReturns(v, ms, one, dump, restore, make, strip, k);
    assert Lookup(source[Place(sourceHash, |source|, k)], k) == Lookup(one, k);
  }
}
