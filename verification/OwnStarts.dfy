/**
 Nodes whose databases were made at different times, so that their windows start at
 different times: which slots of the one agree with which of the other.
 */
module OwnStarts {

  import opened Basics
  import opened Rings
  import opened WindowSums
  import opened SumConditions
  import opened Members
  import opened Convergence
  import opened FieldSums
  import opened SketchSums
  import DB = StatsDBs
  import Sh = Sharding
  import H = HyperLogLogs

  /** Blank members of the same kind in every slot of both nodes. */
  ghost predicate AllAlike(a: seq<Member>, b: seq<Member>)
  {
    |a| == |b| > 0 && forall i, j | 0 <= i < |a| && 0 <= j < |b| :: Twins(a[i], b[j])
  }

  /** A window that a read showing the n windows up to `e` shows. */
  predicate IsShown(w: int, e: int, n: nat)
  {
    e - n < w <= e
  }

  /** Two slots agree but for their stamps, which say when their windows started. */
  ghost predicate SameContent(p: Slot<Member>, q: Slot<Member>)
  {
    Agrees(p.val, q.val) && (p.stamp == 0 <==> q.stamp == 0)
  }

  lemma ShownSlot(e: int, n: nat, w: int)
    requires n > 0 && IsShown(w, e, n)
    ensures WindowOf(e, n, Mod(w, n)) == w
  {
    WindowOfUnique(e, n, Mod(w, n), w);
  }

  /**
   Two entries with starts and clocks of their own, the writes guarded: a window u of the one
   and a window w of the other that both reads show and in which both received the same
   changes in any order are in slots that hold the same integer, registers and count-min
   total, and the same counters where the columns are the same.
   */
  lemma {:induction false} WindowsAgree(env: Env, size: int, a: seq<Member>, startA: int, x: seq<(int, Op<Change>)>, nowA: int, u: int,
                                        b: seq<Member>, startB: int, y: seq<(int, Op<Change>)>, nowB: int, w: int)
    requires AllAlike(a, b) && size > 0 && startA > 0 && startB > 0 && Blank(a) && Blank(b)
    requires LegalRun(|a|, size, startA, x, nowA) && LegalRun(|a|, size, startB, y, nowB)
    requires IsShown(u, Newest(env, a, size, startA, x, nowA), |a|) && IsShown(w, Newest(env, b, size, startB, y, nowB), |a|)
    requires multiset(Vals(Filter(HistOf([], x), startA, size, u))) == multiset(Vals(Filter(HistOf([], y), startB, size, w)))
    ensures var p := Clean(MemberRun(env, NewEntry(a, size, startA), x), nowA, Erased).slots;
            var q := Clean(MemberRun(env, NewEntry(b, size, startB), y), nowB, Erased).slots;
            && |p| == |q| == |a|
            && SameContent(p[Mod(u, |a|)], q[Mod(w, |a|)])
  {
    hide LegalRun, Clean, MemberRun, NewEntry, Twins, Agrees, Newest, HistOf, HistOk, Filter, Vals, Mod, WindowOf, IsShown, Window;
    hide Blank, Fold;
    var n := |a|;
    var p, s := OneReplica(env, a, size, startA, x, nowA);
    var q, t := OneReplica(env, b, size, startB, y, nowB);
    ShownSlot(Window(startA, size, s), n, u);
    ShownSlot(Window(startB, size, t), n, w);
    var i, j := Mod(u, n), Mod(w, n);
    assert SlotExact(p.slots[i], HistOf([], x), startA, size, u) && SlotExact(q.slots[j], HistOf([], y), startB, size, w);
    StampedIff(p, HistOf([], x), Window(startA, size, s), i, u);
    StampedIff(q, HistOf([], y), Window(startB, size, t), j, w);
    assert Twins(a[i], b[j]);
    SlotMembersAgree(env, a, b, p, q, i, j);
  }

  lemma StampedIff(p: Ring<Log<Change>>, hist: Log<Change>, e: int, i: nat, w: int)
    requires RingOk(p) && i < |p.slots| && HistOk(hist, p.start, p.size, e) && SlotExact(p.slots[i], hist, p.start, p.size, w)
    ensures p.slots[i].stamp == 0 <==> p.slots[i].val == []
  {
    hide Window, Filter;
    StampIsPositive(p.slots[i], hist, p.start, p.size, e, w);
  }

  // ---------------------------------------------------------------- changes within one window

  /** All changes lie in one window. */
  predicate AllIn(hist: Log<Change>, start: int, size: int, w: int)
    requires size > 0
  {
    forall i | 0 <= i < |hist| :: Window(start, size, hist[i].time) == w
  }

  lemma {:induction false} FilterAllIn(hist: Log<Change>, start: int, size: int, w: int, v: int)
    requires size > 0 && AllIn(hist, start, size, w)
    ensures Filter(hist, start, size, v) == if v == w then hist else []
  {
    hide Window;
    if hist != [] {
      FilterAllIn(hist[..|hist| - 1], start, size, w, v);
    }
  }

  /** Every slot but one is as new. */
  ghost predicate OthersBlank(slots: seq<Slot<Member>>, init: seq<Member>, i: nat)
  {
    |slots| == |init| && forall j | 0 <= j < |init| && j != i :: slots[j] == Slot(0, init[j])
  }

  lemma OneWindow(env: Env, init: seq<Member>, size: int, start: int, ops: seq<(int, Op<Change>)>, now: int, w: int)
    requires |init| > 0 && size > 0 && start > 0 && Blank(init) && LegalRun(|init|, size, start, ops, now)
    requires AllIn(HistOf([], ops), start, size, w) && IsShown(w, Newest(env, init, size, start, ops, now), |init|)
    ensures OthersBlank(Clean(MemberRun(env, NewEntry(init, size, start), ops), now, Erased).slots, init, Mod(w, |init|))
  {
    hide LegalRun, Clean, MemberRun, NewEntry, Newest, HistOf, Filter, Mod, WindowOf, IsShown, Window, Means, AllIn, Blank;
    var n, e := |init|, Newest(env, init, size, start, ops, now);
    SlotsMean(env, init, size, start, ops, now, 0);
    var slots := Clean(MemberRun(env, NewEntry(init, size, start), ops), now, Erased).slots;
    forall j | 0 <= j < n && j != Mod(w, n)
      ensures slots[j] == Slot(0, init[j])
    {
      SlotsMean(env, init, size, start, ops, now, j);
      WindowOfMod(e, n, j);
      FilterAllIn(HistOf([], ops), start, size, w, WindowOf(e, n, j));
      NothingMeant(env, init[j], slots[j].val);
    }
  }

  lemma NothingMeant(env: Env, init: Member, m: Member)
    requires Means(env, init, Vals([]), m)
    ensures m == init
  {
  }

  /**
   In particular: after the same changes in any order, all within one window on each node,
   the slots of these windows agree and all others are as new.
   */
  lemma {:induction false} OneWindowAgrees(env: Env, size: int, a: seq<Member>, startA: int, x: seq<(int, Op<Change>)>, nowA: int, u: int,
                                           b: seq<Member>, startB: int, y: seq<(int, Op<Change>)>, nowB: int, w: int)
    requires AllAlike(a, b) && size > 0 && startA > 0 && startB > 0 && Blank(a) && Blank(b)
    requires LegalRun(|a|, size, startA, x, nowA) && LegalRun(|a|, size, startB, y, nowB)
    requires IsShown(u, Newest(env, a, size, startA, x, nowA), |a|) && IsShown(w, Newest(env, b, size, startB, y, nowB), |a|)
    requires AllIn(HistOf([], x), startA, size, u) && AllIn(HistOf([], y), startB, size, w)
    requires multiset(Vals(HistOf([], x))) == multiset(Vals(HistOf([], y)))
    ensures var p := Clean(MemberRun(env, NewEntry(a, size, startA), x), nowA, Erased).slots;
            var q := Clean(MemberRun(env, NewEntry(b, size, startB), y), nowB, Erased).slots;
            && |p| == |q| == |a|
            && SameContent(p[Mod(u, |a|)], q[Mod(w, |a|)])
            && OthersBlank(p, a, Mod(u, |a|)) && OthersBlank(q, b, Mod(w, |a|))
  {
    hide LegalRun, Clean, MemberRun, NewEntry, Twins, Newest, HistOf, Filter, Vals, Mod, IsShown, Window, Blank, AllIn, OthersBlank;
    hide SameContent;
    FilterAllIn(HistOf([], x), startA, size, u, u);
    FilterAllIn(HistOf([], y), startB, size, w, w);
    WindowsAgree(env, size, a, startA, x, nowA, u, b, startB, y, nowB, w);
    OneWindow(env, a, size, startA, x, nowA, u);
    OneWindow(env, b, size, startB, y, nowB, w);
  }

  // ---------------------------------------------------------------- databases

  /** A window that a read of (k, f) shows. */
  ghost predicate ShowsWindow(v: DB.View<Entry>, k: DB.Key, f: string, now: int, w: int, n: nat)
  {
    ShownAt(v, k, f, now).Some? && IsShown(w, ShownAt(v, k, f, now).value, n)
  }

  /** What the reads find in the slots of window u on the one node and w on the other. */
  ghost predicate WindowsMatch(p: Option<seq<Slot<Member>>>, u: int, q: Option<seq<Slot<Member>>>, w: int, n: nat)
    requires n > 0
  {
    p.Some? && q.Some? && |p.value| == |q.value| == n && SameContent(p.value[Mod(u, n)], q.value[Mod(w, n)])
  }

  /**
   Two databases made at different times, read at any times, the writes to (k, f) guarded:
   windows that both reads show and in which both nodes made the same changes in any order
   hold the same integers, registers and count-min totals.  If the nodes made all changes
   within these windows, every other slot is as new on both.
   */
  lemma {:induction false} DatabaseWindowsAgree(env: Env, v: DB.View<Entry>, k: DB.Key, f: string, size: int,
                                                makeA: DB.Make<Entry>, a: seq<Member>, startA: int, x: seq<Task>, nowA: int, u: int,
                                                makeB: DB.Make<Entry>, b: seq<Member>, startB: int, y: seq<Task>, nowB: int, w: int)
    requires v.entries == map[] && DB.Known(v, f) && AllAlike(a, b)
    requires Made(makeA, k, f, v.fields[f], a, size, startA) && Made(makeB, k, f, v.fields[f], b, size, startB)
    requires var isInt := v.fields[f] == "int";
             && Legal(env, isInt, |a|, size, startA, x, k, f, nowA) && Legal(env, isInt, |a|, size, startB, y, k, f, nowB)
             && ShowsWindow(DbRun(env, makeA, v, x), k, f, nowA, u, |a|) && ShowsWindow(DbRun(env, makeB, v, y), k, f, nowB, w, |a|)
             && multiset(Vals(Filter(HistAt(env, isInt, x, k, f), startA, size, u)))
             == multiset(Vals(Filter(HistAt(env, isInt, y, k, f), startB, size, w)))
    ensures var isInt := v.fields[f] == "int";
            var p, q := ReadAt(DbRun(env, makeA, v, x), k, f, nowA), ReadAt(DbRun(env, makeB, v, y), k, f, nowB);
            && WindowsMatch(p, u, q, w, |a|)
            && (AllIn(HistAt(env, isInt, x, k, f), startA, size, u) ==> OthersBlank(p.value, a, Mod(u, |a|)))
            && (AllIn(HistAt(env, isInt, y, k, f), startB, size, w) ==> OthersBlank(q.value, b, Mod(w, |a|)))
  {
    hide DbRun, MemberRun, Changes, LegalRun, Clean, HistOf, Blank, Kinds, EntryAt, Twins, Shown, NewEntry, Project, Window;
    hide Filter, Vals, Mod, IsShown, SameContent, OthersBlank, AllIn;
    var isInt := v.fields[f] == "int";
    var p, q := Project(env, isInt, x, k, f), Project(env, isInt, y, k, f);
    EntryIsRun(env, makeA, v, x, k, f, a, size, startA);
    EntryIsRun(env, makeB, v, y, k, f, b, size, startB);
    WindowsAgree(env, size, a, startA, p, nowA, u, b, startB, q, nowB, w);
    if AllIn(HistOf([], p), startA, size, u) {
      OneWindow(env, a, size, startA, p, nowA, u);
    }
    if AllIn(HistOf([], q), startB, size, w) {
      OneWindow(env, b, size, startB, q, nowB, w);
    }
  }

  /** The same for any shards on either node, each with the start time it was made with. */
  lemma {:induction false} ShardedWindowsAgree(env: Env, types: map<string, string>, k: DB.Key, f: string, size: int,
                                               makeA: DB.Make<Entry>, a: seq<Member>, startA: int, shardsA: seq<DB.View<Entry>>, hashA: DB.Key -> nat,
                                               x: seq<Task>, nowA: int, u: int,
                                               makeB: DB.Make<Entry>, b: seq<Member>, startB: int, shardsB: seq<DB.View<Entry>>, hashB: DB.Key -> nat,
                                               y: seq<Task>, nowB: int, w: int)
    requires EmptyShards(shardsA, types) && EmptyShards(shardsB, types)
    requires f in types && types[f] in DB.TYPES && AllAlike(a, b)
    requires Made(makeA, k, f, types[f], a, size, startA) && Made(makeB, k, f, types[f], b, size, startB)
    requires var isInt := types[f] == "int";
             var va := ShardedRun(env, makeA, shardsA, x, hashA)[Sh.Place(hashA, |shardsA|, k)];
             var vb := ShardedRun(env, makeB, shardsB, y, hashB)[Sh.Place(hashB, |shardsB|, k)];
             && Legal(env, isInt, |a|, size, startA, x, k, f, nowA) && Legal(env, isInt, |a|, size, startB, y, k, f, nowB)
             && ShowsWindow(va, k, f, nowA, u, |a|) && ShowsWindow(vb, k, f, nowB, w, |a|)
             && multiset(Vals(Filter(HistAt(env, isInt, x, k, f), startA, size, u)))
             == multiset(Vals(Filter(HistAt(env, isInt, y, k, f), startB, size, w)))
    ensures var va := ShardedRun(env, makeA, shardsA, x, hashA)[Sh.Place(hashA, |shardsA|, k)];
            var vb := ShardedRun(env, makeB, shardsB, y, hashB)[Sh.Place(hashB, |shardsB|, k)];
            WindowsMatch(ReadAt(va, k, f, nowA), u, ReadAt(vb, k, f, nowB), w, |a|)
  {
    hide Legal, ShardedRun, DbRun, Sh.Place, EntryAt, Twins, HistAt, Clean, Shown, WindowsMatch, Filter, Vals, AllIn, OthersBlank, IsShown;
    var v := DB.View([], map[], types, 0);
    ShardedEntry(env, makeA, shardsA, types, x, hashA, k, f);
    ShardedEntry(env, makeB, shardsB, types, y, hashB, k, f);
    DatabaseWindowsAgree(env, v, k, f, size, makeA, a, startA, x, nowA, u, makeB, b, startB, y, nowB, w);
  }

  // ---------------------------------------------------------------- sums of HyperLogLog fields

  /**
   Two databases made at different times, read at any times, the writes to the HyperLogLog
   field (k, f) guarded, that make the same changes to it in any order, all in the last n
   windows of each: where the slots of the one node merge cleanly, register i of the sums
   agrees if and only if those of the other do.
   */
  lemma {:induction false} DatabaseSketchSumsAgree(env: Env, v: DB.View<Entry>, k: DB.Key, f: string, n: nat, b: nat, size: int,
                                                   makeA: DB.Make<Entry>, startA: int, x: seq<Task>, nowA: int,
                                                   makeB: DB.Make<Entry>, startB: int, y: seq<Task>, nowB: int, i: nat)
    requires v.entries == map[] && f in v.fields && v.fields[f] == "hll" && n > 0 && 4 <= b <= 30 && i < H.Pow2(b)
    requires Made(makeA, k, f, "hll", Sketches(n, b), size, startA) && Made(makeB, k, f, "hll", Sketches(n, b), size, startB)
    requires Legal(env, false, n, size, startA, x, k, f, nowA) && Legal(env, false, n, size, startB, y, k, f, nowB)
    requires Young(HistAt(env, false, x, k, f), startA, size, n, nowA) && Young(HistAt(env, false, y, k, f), startB, size, n, nowB)
    requires multiset(Vals(HistAt(env, false, x, k, f))) == multiset(Vals(HistAt(env, false, y, k, f)))
    requires Changes(x, k, f) && Changes(y, k, f)
    ensures var p, q := ReadAt(DbRun(env, makeA, v, x), k, f, nowA), ReadAt(DbRun(env, makeB, v, y), k, f, nowB);
            p.Some? && q.Some? && AgreeIffClean(b, p.value, q.value, i)
  {
    hide DbRun, MemberRun, Changes, LegalRun, Clean, HistOf, Blank, Kinds, EntryAt, NewEntry, Project, Young, Vals, Sketches;
    hide AgreeIffClean, H.Pow2;
    EntryIsRun(env, makeA, v, x, k, f, Sketches(n, b), size, startA);
    EntryIsRun(env, makeB, v, y, k, f, Sketches(n, b), size, startB);
    SketchSumsAgree(env, n, b, size, startA, Project(env, false, x, k, f), nowA, startB, Project(env, false, y, k, f), nowB, i);
  }
}
