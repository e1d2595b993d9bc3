/**
 Calls that throw: adding or subtracting a string that is no number, on an integer field.
 When such a call makes a replica differ, in terms of what the caller holds before it.
 */
module ThrowingCalls {

  import opened Basics
  import opened Rings
  import opened Members
  import opened Convergence
  import opened Replication
  import DB = StatsDBs
  import Sh = Sharding

  /** Cleaning changes an entry unless it skips: a scan is recorded. */
  lemma CleanSameIff(e: Entry, now: int)
    ensures Clean(e, now, Erased) == e <==> Skips(e, now)
  {
    hide Swept;
  }

  /** A plan that throws is a change of a known field, and its entry is only cleaned. */
  lemma ThrowingPlan(env: Env, su: Setup<Entry>, one: DB.View<Entry>, p: Plan, now: int)
    requires ThrowsIn(su, one, p, ActOf(env, now))
    ensures p.DoChange? && DB.Known(one, p.field)
    ensures var e := DB.Created(one, p.key, p.field, su.make).entries[p.key][p.field];
            var o := ActAt(env, now, p.change, e);
            o.result && o == DB.Outcome(Clean(e, now, Erased), false, true)
  {
    hide Clean, Changed, Write;
  }

  /**
   The condition of ThrowingCallAgreesIff, for the entries of a node: the call leaves its key
   as it was if and only if the entry is there and is not due for cleaning.
   */
  lemma ThrowLeavesKeyIff(env: Env, su: Setup<Entry>, one: DB.View<Entry>, p: Plan, now: int)
    requires ThrowsIn(su, one, p, ActOf(env, now))
    ensures p.DoChange?
    ensures Sh.Lookup(Done(su, one, p, ActOf(env, now)), p.key) == Sh.Lookup(one, p.key)
       <==> DB.Has(one, p.key, p.field) && Skips(one.entries[p.key][p.field], now)
  {
    hide ThrowsIn, ActAt, Clean;
    ThrowingPlan(env, su, one, p, now);
    var k, f := p.key, p.field;
    var c := DB.Created(one, k, f, su.make);
    var e := c.entries[k][f];
    CleanSameIff(e, now);
    var r := Done(su, one, p, ActOf(env, now));
    assert r.entries[k] == c.entries[k][f := Clean(e, now, Erased)];
    if DB.Has(one, k, f) {
      assert c == one;
      if Skips(e, now) {
        assert r.entries[k] == one.entries[k];
      } else {
        assert r.entries[k][f] != one.entries[k][f];
      }
    } else {
      assert f in r.entries[k];
    }
  }

  /** Both together: the replica of a node whose call throws keeps its contents exactly under that condition. */
  lemma {:induction false} ReplicaSurvivesThrowIff(env: Env, su: Setup<Entry>, peer: Setup<Entry>, a: Wrapper<Entry>, b: Wrapper<Entry>,
                                                   c: Call, one: DB.View<Entry>, now: int)
    requires |a.shards| > 0 && |b.shards| > 0 && a.replicated && IntsOk(c) && su.db == peer.db
    requires Sh.Simulates(a.shards, one, su.hash) && Sh.Simulates(b.shards, one, peer.hash)
    requires ThrowsIn(su, one, PlanOf(su.tx, c), ActOf(env, now))
    ensures var (a', b') := Follow(su, peer, a, b, c, ActOf(env, now));
            var p := PlanOf(su.tx, c);
            && b' == b && p.DoChange? && Sh.Simulates(a'.shards, Done(su, one, p, ActOf(env, now)), su.hash)
            && (Sh.Simulates(b'.shards, Done(su, one, p, ActOf(env, now)), peer.hash)
                <==> DB.Has(one, p.key, p.field) && Skips(one.entries[p.key][p.field], now))
  {
    hide Sh.Simulates, ThrowsIn, Done, PlanOf, IntsOk, Follow, Sh.Lookup, DB.Has, Skips;
    ThrowingCallAgreesIff(su, peer, a, b, c, ActOf(env, now), one);
    ThrowLeavesKeyIff(env, su, one, PlanOf(su.tx, c), now);
  }

  /**
   An input: on an empty database with the integer field "f", adding "abc" to it under the
   key "k" throws, is not sent, and leaves the key on the caller only.
   */
  lemma {:induction false} AddingAbcDiverges(env: Env, su: Setup<Entry>, peer: Setup<Entry>, a: Wrapper<Entry>, b: Wrapper<Entry>,
                                             one: DB.View<Entry>, now: int)
    requires |a.shards| > 0 && |b.shards| > 0 && a.replicated && su.db == peer.db
    requires Sh.Simulates(a.shards, one, su.hash) && Sh.Simulates(b.shards, one, peer.hash)
    requires one == DB.View([], map[], map["f" := "int"], 0)
    requires env.stoi("abc") == None && Kinds(su.make("k", "f", "int"), true)
    ensures var (a', b') := Follow(su, peer, a, b, Add(KStr("k"), "f", PStr("abc"), None), ActOf(env, now));
            && b' == b
            && Sh.TotalSize(a'.shards) == 1 && Sh.TotalSize(b'.shards) == 0
  {
    hide Sh.Simulates, Follow, Sh.TotalSize, Kinds;
    var c, p := Add(KStr("k"), "f", PStr("abc"), None), DoChange("k", "f", AddStr("abc"));
    assert PlanOf(su.tx, c) == p;
    AbcThrows(env, su, one, p, now);
    ReplicaSurvivesThrowIff(env, su, peer, a, b, c, one, now);
    var (a', b') := Follow(su, peer, a, b, c, ActOf(env, now));
    Sh.SizesAddUp(a'.shards, Done(su, one, p, ActOf(env, now)), su.hash);
    Sh.SizesAddUp(b.shards, one, peer.hash);
  }

  lemma AbcThrows(env: Env, su: Setup<Entry>, one: DB.View<Entry>, p: Plan, now: int)
    requires one == DB.View([], map[], map["f" := "int"], 0) && p == DoChange("k", "f", AddStr("abc"))
    requires env.stoi("abc") == None && Kinds(su.make("k", "f", "int"), true)
    ensures ThrowsIn(su, one, p, ActOf(env, now)) && |Done(su, one, p, ActOf(env, now)).entries| == 1
  {
    hide Clean, Write, Mod, Window, DB.Touch;
    var e := su.make("k", "f", "int");
    ThrowsIff(env, now, AddStr("abc"), e);
    CleanKeepsKinds(e, now);
    assert DB.Known(one, "f");
    var r := Done(su, one, p, ActOf(env, now));
    assert r.entries.Keys == {"k"};
    assert |r.entries| == |r.entries.Keys|;
  }

  lemma CleanKeepsKinds(e: Entry, now: int)
    requires Kinds(e, true)
    ensures Kinds(Clean(e, now, Erased), true)
  {
  }
}
