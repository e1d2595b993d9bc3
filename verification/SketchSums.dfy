/**
 What sum() of a HyperLogLog field means in terms of the changes made to it: the sketch that
 merging the slots gives, against the one sketch that all changes of the shown windows
 make, on one node and between nodes whose windows start at different times.
 */
module SketchSums {

  import opened Basics
  import opened Rings
  import opened WindowSums
  import opened SumConditions
  import opened Members
  import opened FieldSums
  import opened SketchMerges
  import H = HyperLogLogs
  import R = Replication

  /** A new "hll" field: n empty sketches of 2^b registers. */
  ghost function Sketches(n: nat, b: nat): (init: seq<Member>)
    requires 4 <= b <= 30
    ensures |init| == n && forall i | 0 <= i < n :: init[i] == HllM(H.Empty(b))
  {
    seq(n, i => HllM(H.Empty(b)))
  }

  /** The sketches of the slots. */
  function SlotSketches(slots: seq<Slot<Member>>): (ts: seq<H.Sketch>)
    ensures |ts| == |slots|
  {
    seq(|slots|, j requires 0 <= j < |slots| => if slots[j].val.HllM? then slots[j].val.h else H.Sketch(0, []))
  }

  // ---------------------------------------------------------------- items

  /** The item that one change adds to a sketch, if any. */
  function ItemOf(env: Env, ch: Change): (hs: seq<H.Hash>)
    ensures |hs| <= 1
  {
    match ch
    case AddInt(a) => [env.hllHash(env.number(a))]
    case AddStr(s) => [env.hllHash(s)]
    case _ => []
  }

  /** The distinct items of a log of changes. */
  function ItemSet(env: Env, l: Log<Change>): (s: set<H.Hash>)
  {
    H.Items(ItemsOf(env, Vals(l)))
  }

  lemma {:induction false} ItemsIff(env: Env, vals: seq<Change>, h: H.Hash)
    ensures h in H.Items(ItemsOf(env, vals)) <==> exists v :: v in vals && h in ItemOf(env, v)
  {
    hide H.Items, ItemsOf, ItemOf;
    if vals == [] {
      NoItems(env, h);
    } else {
      var rest, v := vals[..|vals| - 1], vals[|vals| - 1];
      ItemsIff(env, rest, h);
      ItemsSnoc(env, vals, h);
      assert forall u :: u in vals <==> u in rest || u == v;
    }
  }

  lemma NoItems(env: Env, h: H.Hash)
    ensures h !in H.Items(ItemsOf(env, []))
  {
  }

  lemma ItemsSnoc(env: Env, vals: seq<Change>, h: H.Hash)
    requires vals != []
    ensures h in H.Items(ItemsOf(env, vals))
       <==> h in H.Items(ItemsOf(env, vals[..|vals| - 1])) || h in ItemOf(env, vals[|vals| - 1])
  {
    var items, one := ItemsOf(env, vals[..|vals| - 1]), ItemOf(env, vals[|vals| - 1]);
    assert ItemsOf(env, vals) == items + one;
    if one == [] {
      assert items + one == items;
    } else {
      assert (items + one)[..|items|] == items && (items + one)[|items|] == one[0];
    }
  }

  /** The changes of the n windows up to `e`, in order. */
  function Recent(hist: Log<Change>, start: int, size: int, e: int, n: nat): (l: Log<Change>)
    requires size > 0
  {
    if hist == [] then [] else
      var last := hist[|hist| - 1];
      Recent(hist[..|hist| - 1], start, size, e, n) + if e - n < Window(start, size, last.time) <= e then [last] else []
  }

  lemma {:induction false} RecentIff(hist: Log<Change>, start: int, size: int, e: int, n: nat, v: Change)
    requires size > 0
    ensures v in Vals(Recent(hist, start, size, e, n))
       <==> exists ev :: ev in hist && ev.val == v && e - n < Window(start, size, ev.time) <= e
  {
    hide Window, Vals;
    if hist == [] {
      NoVals(v);
    } else {
      var rest, last := hist[..|hist| - 1], hist[|hist| - 1];
      RecentIff(rest, start, size, e, n, v);
      ValsSnoc(Recent(rest, start, size, e, n), last, v);
      assert forall ev :: ev in hist <==> ev in rest || ev == last;
      assert Recent(rest, start, size, e, n) + [] == Recent(rest, start, size, e, n);
    }
  }

  lemma NoVals(v: Change)
    ensures v !in Vals<Change>([])
  {
  }

  lemma ValsSnoc(l: Log<Change>, e: Event<Change>, v: Change)
    ensures v in Vals(l + [e]) <==> v in Vals(l) || v == e.val
  {
    assert Vals(l + [e]) == Vals(l) + [e.val];
  }

  lemma {:induction false} FilterIff(hist: Log<Change>, start: int, size: int, w: int, v: Change)
    requires size > 0
    ensures v in Vals(Filter(hist, start, size, w)) <==> exists ev :: ev in hist && ev.val == v && Window(start, size, ev.time) == w
  {
    hide Window, Vals;
    if hist == [] {
      NoVals(v);
    } else {
      var rest, last := hist[..|hist| - 1], hist[|hist| - 1];
      FilterIff(rest, start, size, w, v);
      ValsSnoc(Filter(rest, start, size, w), last, v);
      assert forall ev :: ev in hist <==> ev in rest || ev == last;
      assert Filter(rest, start, size, w) + [] == Filter(rest, start, size, w);
    }
  }

  /** The items of the shown windows are those of the slots' windows together. */
  lemma ShownItems(env: Env, hist: Log<Change>, start: int, size: int, e: int, n: nat, h: H.Hash)
    requires size > 0 && n > 0
    ensures h in ItemSet(env, Recent(hist, start, size, e, n))
       <==> exists j :: 0 <= j < n && h in ItemSet(env, Filter(hist, start, size, WindowOf(e, n, j)))
  {
    hide Window, WindowOf, Vals, H.Items, ItemsOf, ItemOf, Recent, Filter, Mod;
    var all := Recent(hist, start, size, e, n);
    ItemsIff(env, Vals(all), h);
    if h in ItemSet(env, all) {
      var v :| v in Vals(all) && h in ItemOf(env, v);
      RecentIff(hist, start, size, e, n, v);
      var ev :| ev in hist && ev.val == v && e - n < Window(start, size, ev.time) <= e;
      var w := Window(start, size, ev.time);
      WindowOfUnique(e, n, Mod(w, n), w);
      var j := Mod(w, n);
      FilterIff(hist, start, size, WindowOf(e, n, j), v);
      ItemsIff(env, Vals(Filter(hist, start, size, WindowOf(e, n, j))), h);
    }
    if j :| 0 <= j < n && h in ItemSet(env, Filter(hist, start, size, WindowOf(e, n, j))) {
      WindowOfRange(e, n, j);
      ItemsIff(env, Vals(Filter(hist, start, size, WindowOf(e, n, j))), h);
      var v :| v in Vals(Filter(hist, start, size, WindowOf(e, n, j))) && h in ItemOf(env, v);
      FilterIff(hist, start, size, WindowOf(e, n, j), v);
      RecentIff(hist, start, size, e, n, v);
    }
  }

  // ---------------------------------------------------------------- maxima

  function All(sets: seq<set<H.Hash>>): (s: set<H.Hash>)
  {
    if sets == [] then {} else All(sets[..|sets| - 1]) + sets[|sets| - 1]
  }

  lemma {:induction false} AllIff(sets: seq<set<H.Hash>>, h: H.Hash)
    ensures h in All(sets) <==> exists j :: 0 <= j < |sets| && h in sets[j]
  {
    if sets != [] {
      var rest := sets[..|sets| - 1];
      AllIff(rest, h);
      if j :| 0 <= j < |rest| && h in rest[j] {
        assert h in sets[j];
      }
      if j :| 0 <= j < |sets| && h in sets[j] {
        assert j < |rest| ==> h in rest[j];
      }
    }
  }

  /** Each register is the largest rank of its set of items. */
  ghost predicate MaxRanks(b: nat, sets: seq<set<H.Hash>>, i: nat, xs: seq<bv8>)
    requires 4 <= b <= 30 && |sets| == |xs|
  {
    xs != [] ==>
      MaxRanks(b, sets[..|sets| - 1], i, xs[..|xs| - 1]) && H.IsMaxRank(b, sets[|sets| - 1], i, xs[|xs| - 1])
  }

  /** A register's largest rank over several sets of items. */
  lemma {:induction false} LargestIsMaxRank(b: nat, sets: seq<set<H.Hash>>, i: nat, xs: seq<bv8>)
    requires 4 <= b <= 30 && |sets| == |xs| && MaxRanks(b, sets, i, xs)
    ensures H.IsMaxRank(b, All(sets), i, Largest(xs))
    decreases |xs|
  {
    hide H.RankByte, H.Index, H.Max;
    if xs != [] {
      hide H.IsMaxRank;
      var n := |xs| - 1;
      LargestIsMaxRank(b, sets[..n], i, xs[..n]);
      MaxRankUnion(b, All(sets[..n]), sets[n], i, Largest(xs[..n]), xs[n]);
    }
  }

  /** `m` is the rank of one of the items of register i. */
  ghost predicate Reached(b: nat, s: set<H.Hash>, i: nat, m: bv8)
    requires 4 <= b <= 30
  {
    exists h :: h in s && H.Index(b, h) == i && H.RankByte(b, h) == m
  }

  /** No item of register i has a higher rank. */
  ghost predicate Bounded(b: nat, s: set<H.Hash>, i: nat, m: bv8)
    requires 4 <= b <= 30
  {
    forall h | h in s && H.Index(b, h) == i :: H.RankByte(b, h) <= m
  }

  lemma MaxRankParts(b: nat, s: set<H.Hash>, i: nat, m: bv8)
    requires 4 <= b <= 30
    ensures H.IsMaxRank(b, s, i, m) <==> Bounded(b, s, i, m) && (m == 0 || Reached(b, s, i, m))
  {
    hide H.RankByte, H.Index;
  }

  lemma BoundedMore(b: nat, s: set<H.Hash>, i: nat, x: bv8, m: bv8)
    requires 4 <= b <= 30 && Bounded(b, s, i, x) && x <= m
    ensures Bounded(b, s, i, m)
  {
    hide H.RankByte, H.Index;
    forall h | h in s && H.Index(b, h) == i
      ensures H.RankByte(b, h) <= m
    {
      H.AtMost(H.RankByte(b, h), x, m);
    }
  }

  lemma BoundedUnion(b: nat, s: set<H.Hash>, t: set<H.Hash>, i: nat, x: bv8, y: bv8, m: bv8)
    requires 4 <= b <= 30 && Bounded(b, s, i, x) && Bounded(b, t, i, y) && x <= m && y <= m
    ensures Bounded(b, s + t, i, m)
  {
    hide H.RankByte, H.Index;
    BoundedMore(b, s, i, x, m);
    BoundedMore(b, t, i, y, m);
  }

  lemma ReachedUnion(b: nat, s: set<H.Hash>, t: set<H.Hash>, i: nat, m: bv8)
    requires 4 <= b <= 30 && (Reached(b, s, i, m) || Reached(b, t, i, m))
    ensures Reached(b, s + t, i, m)
  {
    hide H.RankByte, H.Index;
    var h :| h in s + t && H.Index(b, h) == i && H.RankByte(b, h) == m;
  }

  lemma MaxRankUnion(b: nat, s: set<H.Hash>, t: set<H.Hash>, i: nat, x: bv8, y: bv8)
    requires 4 <= b <= 30 && H.IsMaxRank(b, s, i, x) && H.IsMaxRank(b, t, i, y)
    ensures H.IsMaxRank(b, s + t, i, H.Max(x, y))
  {
    hide H.IsMaxRank, Bounded, Reached, H.Max;
    var m := H.Max(x, y);
    MaxRankParts(b, s, i, x);
    MaxRankParts(b, t, i, y);
    MaxRankParts(b, s + t, i, m);
    BoundedUnion(b, s, t, i, x, y, m);
    if m != 0 {
      ReachedUnion(b, s, t, i, m);
    }
  }

  lemma MaxRankUnique(b: nat, s: set<H.Hash>, i: nat, x: bv8, y: bv8)
    requires 4 <= b <= 30 && H.IsMaxRank(b, s, i, x) && H.IsMaxRank(b, s, i, y)
    ensures x == y
  {
    hide H.RankByte, H.Index;
  }

  lemma FirstLargestIs(xs: seq<bv8>, j: nat)
    requires FirstLargest(xs, j)
    ensures Largest(xs) == xs[j]
  {
    AtLeast(xs);
    var k := LargestAt(xs);
    assert xs[k] <= xs[j];
  }

  lemma {:induction false} AtLeast(xs: seq<bv8>)
    ensures forall i | 0 <= i < |xs| :: xs[i] <= Largest(xs)
  {
    if xs != [] {
      AtLeast(xs[..|xs| - 1]);
      forall i | 0 <= i < |xs|
        ensures xs[i] <= Largest(xs)
      {
        if i < |xs| - 1 {
          assert xs[..|xs| - 1][i] == xs[i];
          H.AtMost(xs[i], Largest(xs[..|xs| - 1]), Largest(xs));
        }
      }
    }
  }

  lemma {:induction false} LargestAt(xs: seq<bv8>) returns (k: nat)
    requires xs != []
    ensures k < |xs| && Largest(xs) <= xs[k]
  {
    var n := |xs| - 1;
    if n == 0 || Largest(xs[..n]) < xs[n] {
      k := n;
      assert xs[..0] == [];
    } else {
      k := LargestAt(xs[..n]);
    }
  }

  lemma {:induction false} FirstAt(xs: seq<bv8>, m: bv8, k: nat) returns (j: nat)
    requires k < |xs| && xs[k] == m
    ensures j < |xs| && xs[j] == m && forall i | 0 <= i < j :: xs[i] != m
  {
    if i :| 0 <= i < k && xs[i] == m {
      j := FirstAt(xs, m, i);
    } else {
      j := k;
    }
  }

  lemma Antisymmetric(x: bv8, y: bv8)
    requires x <= y
    ensures (y <= x ==> x == y) && (x != y ==> x < y)
  {
  }

  /** There is a first largest register. */
  lemma FindLargest(xs: seq<bv8>) returns (j: nat)
    requires xs != []
    ensures FirstLargest(xs, j)
  {
    hide Largest;
    var k := LargestAt(xs);
    var m := Largest(xs);
    AtLeast(xs);
    Antisymmetric(xs[k], m);
    j := FirstAt(xs, m, k);
    forall i | 0 <= i < |xs|
      ensures xs[i] <= m && (xs[i] != m ==> xs[i] < m)
    {
      Antisymmetric(xs[i], m);
    }
  }

  // ---------------------------------------------------------------- sum() of one node

  /** What the changes of a window, or of several, make of an empty sketch. */
  ghost function SketchOf(env: Env, b: nat, l: Log<Change>): (s: H.Sketch)
    requires 4 <= b <= 30
    ensures H.SketchOk(s) && s.b == b
  {
    H.After(H.Empty(b), ItemsOf(env, Vals(l)))
  }

  lemma SketchBlank(n: nat, b: nat)
    requires 4 <= b <= 30
    ensures Blank(Sketches(n, b))
  {
    hide H.Empty;
    EmptyHas(b);
  }

  lemma EmptyHas(b: nat)
    requires 4 <= b <= 30
    ensures H.Empty(b).b == b
  {
  }

  /** The sketch in slot j is that of its window. */
  lemma SlotSketch(env: Env, n: nat, b: nat, size: int, start: int, ops: seq<(int, Op<Change>)>, now: int, j: nat)
    requires j < n && 4 <= b <= 30 && size > 0 && start > 0 && LegalRun(n, size, start, ops, now)
    ensures var init := Sketches(n, b);
            var slots, e := ReadSlots(env, init, size, start, ops, now), Newest(env, init, size, start, ops, now);
            && |slots| == n
            && SlotSketches(slots)[j] == SketchOf(env, b, Filter(HistOf([], ops), start, size, WindowOf(e, n, j)))
  {
    hide LegalRun, Clean, MemberRun, NewEntry, Newest, HistOf, Filter, WindowOf, Window, H.After, H.Empty, ItemsOf, Blank;
    SketchBlank(n, b);
    SlotsMean(env, Sketches(n, b), size, start, ops, now, j);
  }

  /** The sketch of sum(): every slot merged into an empty one. */
  ghost function SumSketch(b: nat, slots: seq<Slot<Member>>): (s: H.Sketch)
    requires 4 <= b <= 30 && H.AllOk(b, SlotSketches(slots))
    ensures H.SketchOk(s) && s.b == b
  {
    H.MergeAll(b, SlotSketches(slots))
  }

  /** What is merged before the first largest register has no bit outside it. */
  ghost predicate MergesCleanly(b: nat, ts: seq<H.Sketch>, i: nat)
    requires 4 <= b <= 30 && H.AllOk(b, ts) && i < H.Pow2(b)
  {
    forall j: nat | FirstLargest(Column(b, ts, i), j) :: Inside(H.MergeAll(b, ts[..j]).regs[i], ts[j].regs[i])
  }

  /** The merged register is the largest if and only if the slots merge cleanly. */
  lemma MergedIsLargestIff(b: nat, ts: seq<H.Sketch>, i: nat)
    requires 4 <= b <= 30 && ts != [] && H.AllOk(b, ts) && i < H.Pow2(b)
    ensures H.MergeAll(b, ts).regs[i] == Largest(Column(b, ts, i)) <==> MergesCleanly(b, ts, i)
  {
    hide H.MergeAll, H.Pow2, Inside, Largest, FirstLargest;
    var xs := Column(b, ts, i);
    var k := FindLargest(xs);
    InColumn(xs, k);
    forall j: nat | FirstLargest(xs, j)
      ensures j < |ts| && Largest(xs) == ts[j].regs[i]
      ensures H.MergeAll(b, ts).regs[i] == ts[j].regs[i] <==> Inside(H.MergeAll(b, ts[..j]).regs[i], ts[j].regs[i])
    {
      InColumn(xs, j);
      FirstLargestIs(xs, j);
      SumIsMaxIff(b, ts, i, j);
    }
  }

  lemma InColumn(xs: seq<bv8>, j: nat)
    requires FirstLargest(xs, j)
    ensures j < |xs|
  {
  }

  lemma {:induction false} RanksOf(b: nat, sets: seq<set<H.Hash>>, i: nat, xs: seq<bv8>)
    requires 4 <= b <= 30 && |sets| == |xs| && forall j | 0 <= j < |xs| :: H.IsMaxRank(b, sets[j], i, xs[j])
    ensures MaxRanks(b, sets, i, xs)
    decreases |xs|
  {
    hide H.IsMaxRank;
    if xs != [] {
      RanksOf(b, sets[..|sets| - 1], i, xs[..|xs| - 1]);
    }
  }

  /** The largest register over the slots is that of one sketch with all items. */
  lemma LargestIsUnion(env: Env, n: nat, b: nat, hist: Log<Change>, start: int, size: int, e: int, ts: seq<H.Sketch>, i: nat)
    requires n > 0 && 4 <= b <= 30 && size > 0 && |ts| == n && H.AllOk(b, ts) && i < H.Pow2(b)
    requires forall j | 0 <= j < n :: ts[j] == SketchOf(env, b, Filter(hist, start, size, WindowOf(e, n, j)))
    ensures Largest(Column(b, ts, i)) == SketchOf(env, b, Recent(hist, start, size, e, n)).regs[i]
  {
    hide H.After, H.Empty, H.IsMaxRank, H.Items, ItemsOf, Filter, Recent, Largest, Vals, WindowOf, H.Pow2, All, MaxRanks;
    var all, xs := Recent(hist, start, size, e, n), Column(b, ts, i);
    var sets := seq(n, j requires 0 <= j < n => ItemSet(env, Filter(hist, start, size, WindowOf(e, n, j))));
    forall j | 0 <= j < n
      ensures H.IsMaxRank(b, sets[j], i, xs[j])
    {
      H.RegistersAreMax(b, ItemsOf(env, Vals(Filter(hist, start, size, WindowOf(e, n, j)))), i);
    }
    RanksOf(b, sets, i, xs);
    forall h
      ensures h in ItemSet(env, all) <==> h in All(sets)
    {
      AllIff(sets, h);
      ShownItems(env, hist, start, size, e, n, h);
      if j :| 0 <= j < n && h in ItemSet(env, Filter(hist, start, size, WindowOf(e, n, j))) {
        assert h in sets[j];
      }
    }
    assert ItemSet(env, all) == All(sets);
    LargestIsMaxRank(b, sets, i, xs);
    H.RegistersAreMax(b, ItemsOf(env, Vals(all)), i);
    MaxRankUnique(b, ItemSet(env, all), i, Largest(xs), SketchOf(env, b, all).regs[i]);
  }

  /**
   sum() of a HyperLogLog field when the writes meet the guard: register i of the merged
   sketch is that of one sketch with all items since the last reset of the windows the read
   shows if and only if the slots merge cleanly there; it is never less.
   */
  lemma {:induction false} SumIsUnionIff(env: Env, n: nat, b: nat, size: int, start: int, ops: seq<(int, Op<Change>)>, now: int, i: nat)
    requires n > 0 && 4 <= b <= 30 && size > 0 && start > 0 && LegalRun(n, size, start, ops, now) && i < H.Pow2(b)
    ensures var init := Sketches(n, b);
            var slots, e := ReadSlots(env, init, size, start, ops, now), Newest(env, init, size, start, ops, now);
            var one := SketchOf(env, b, Recent(HistOf([], ops), start, size, e, n));
            && H.AllOk(b, SlotSketches(slots))
            && SumSketch(b, slots).regs[i] >= one.regs[i]
            && (SumSketch(b, slots).regs[i] == one.regs[i] <==> MergesCleanly(b, SlotSketches(slots), i))
  {
    hide LegalRun, ReadSlots, Newest, HistOf, Filter, WindowOf, Window, SketchOf, H.MergeAll, H.Pow2, Recent, MergesCleanly;
    hide SlotSketches, Sketches;
    var init := Sketches(n, b);
    var slots, e := ReadSlots(env, init, size, start, ops, now), Newest(env, init, size, start, ops, now);
    var ts := SlotSketches(slots);
    SlotSketch(env, n, b, size, start, ops, now, 0);
    forall j | 0 <= j < n
      ensures ts[j] == SketchOf(env, b, Filter(HistOf([], ops), start, size, WindowOf(e, n, j)))
    {
      SlotSketch(env, n, b, size, start, ops, now, j);
    }
    LargestIsUnion(env, n, b, HistOf([], ops), start, size, e, ts, i);
    MergedIsLargestIff(b, ts, i);
    MergedAtLeast(b, ts, i);
  }

  lemma MergedAtLeast(b: nat, ts: seq<H.Sketch>, i: nat)
    requires 4 <= b <= 30 && ts != [] && H.AllOk(b, ts) && i < H.Pow2(b)
    ensures H.MergeAll(b, ts).regs[i] >= Largest(Column(b, ts, i))
  {
    hide H.MergeAll, H.Pow2, H.Below, H.AllBelow, Largest;
    var xs := Column(b, ts, i);
    var k := LargestAt(xs);
    H.MergeAllBounds(b, ts, i, 0);
    assert ts[k].regs[i] <= H.MergeAll(b, ts).regs[i];
    H.AtMost(Largest(xs), xs[k], H.MergeAll(b, ts).regs[i]);
  }

  // ---------------------------------------------------------------- nodes whose windows start at different times

  /** Every change lies in the n windows up to `e`. */
  predicate Within(hist: Log<Change>, start: int, size: int, e: int, n: nat)
    requires size > 0
  {
    hist != [] ==>
      Within(hist[..|hist| - 1], start, size, e, n) && e - n < Window(start, size, hist[|hist| - 1].time) <= e
  }

  lemma {:induction false} WithinIs(hist: Log<Change>, start: int, size: int, e: int, n: nat, k: nat)
    requires size > 0 && k <= |hist| && forall i | 0 <= i < |hist| :: e - n < Window(start, size, hist[i].time) <= e
    ensures Within(hist[..k], start, size, e, n)
  {
    hide Window;
    if k > 0 {
      WithinIs(hist, start, size, e, n, k - 1);
      assert hist[..k][..k - 1] == hist[..k - 1];
    }
  }

  lemma {:induction false} RecentIsAll(hist: Log<Change>, start: int, size: int, e: int, n: nat)
    requires size > 0 && Within(hist, start, size, e, n)
    ensures Recent(hist, start, size, e, n) == hist
  {
    hide Window;
    if hist != [] {
      RecentIsAll(hist[..|hist| - 1], start, size, e, n);
      assert hist == hist[..|hist| - 1] + [hist[|hist| - 1]];
    }
  }

  lemma YoungIsWithin(hist: Log<Change>, start: int, size: int, e: int, n: nat, now: int)
    requires size > 0 && HistOk(hist, start, size, e) && e <= Window(start, size, now) && Young(hist, start, size, n, now)
    ensures Within(hist, start, size, e, n)
  {
    hide Window, Within;
    WithinIs(hist, start, size, e, n, |hist|);
    assert hist[..|hist|] == hist;
  }

  lemma SketchPermutes(env: Env, b: nat, x: Log<Change>, y: Log<Change>)
    requires 4 <= b <= 30 && multiset(Vals(x)) == multiset(Vals(y))
    ensures SketchOf(env, b, x) == SketchOf(env, b, y)
  {
    hide H.After, H.Empty, H.Items, ItemsOf, ItemOf, Vals;
    forall h
      ensures h in ItemSet(env, x) <==> h in ItemSet(env, y)
    {
      ItemsIff(env, Vals(x), h);
      ItemsIff(env, Vals(y), h);
      assert forall v :: v in Vals(x) <==> v in multiset(Vals(x));
      assert forall v :: v in Vals(y) <==> v in multiset(Vals(y));
    }
    assert ItemSet(env, x) == ItemSet(env, y);
    H.RegistersDependOnSet(b, ItemsOf(env, Vals(x)), ItemsOf(env, Vals(y)));
  }

  /** While every change is young, register i of a sum is that of all changes iff the slots merge cleanly. */
  lemma YoungSum(env: Env, n: nat, b: nat, size: int, start: int, ops: seq<(int, Op<Change>)>, now: int, i: nat)
    requires n > 0 && 4 <= b <= 30 && size > 0 && start > 0 && LegalRun(n, size, start, ops, now) && i < H.Pow2(b)
    requires Young(HistOf([], ops), start, size, n, now)
    ensures var slots := ReadSlots(env, Sketches(n, b), size, start, ops, now);
            && H.AllOk(b, SlotSketches(slots))
            && (SumSketch(b, slots).regs[i] == SketchOf(env, b, HistOf([], ops)).regs[i] <==> MergesCleanly(b, SlotSketches(slots), i))
  {
    hide LegalRun, ReadSlots, Newest, HistOf, Window, SketchOf, SumSketch, H.Pow2, Recent, MergesCleanly, HistOk, SlotSketches, H.AllOk;
    hide Exact, MapRing, Clean;
    SumIsUnionIff(env, n, b, size, start, ops, now, i);
    SketchBlank(n, b);
    var _, at := OneReplica(env, Sketches(n, b), size, start, ops, now);
    NewestIs(env, Sketches(n, b), size, start, ops, now);
    YoungIsWithin(HistOf([], ops), start, size, Window(start, size, at), n, now);
    RecentIsAll(HistOf([], ops), start, size, Window(start, size, at), n);
  }

  /** If the slots p merge cleanly, register i of the sums agrees if and only if the slots q do. */
  ghost predicate AgreeIffClean(b: nat, p: seq<Slot<Member>>, q: seq<Slot<Member>>, i: nat)
    requires 4 <= b <= 30 && i < H.Pow2(b)
  {
    && H.AllOk(b, SlotSketches(p)) && H.AllOk(b, SlotSketches(q))
    && (MergesCleanly(b, SlotSketches(p), i) ==>
          (SumSketch(b, p).regs[i] == SumSketch(b, q).regs[i] <==> MergesCleanly(b, SlotSketches(q), i)))
  }

  /**
   Two nodes with windows and clocks of their own that receive the same changes in any order,
   while every change lies in the last n windows of its node: where the slots merge cleanly
   on both, the registers of sum() agree; where they do on one node only, they do not.
   */
  lemma {:induction false} SketchSumsAgree(env: Env, n: nat, b: nat, size: int, startA: int, x: seq<(int, Op<Change>)>, nowA: int,
                                           startB: int, y: seq<(int, Op<Change>)>, nowB: int, i: nat)
    requires n > 0 && 4 <= b <= 30 && size > 0 && startA > 0 && startB > 0 && i < H.Pow2(b)
    requires LegalRun(n, size, startA, x, nowA) && LegalRun(n, size, startB, y, nowB)
    requires Young(HistOf([], x), startA, size, n, nowA) && Young(HistOf([], y), startB, size, n, nowB)
    requires multiset(Vals(HistOf([], x))) == multiset(Vals(HistOf([], y)))
    ensures var p, q := ReadSlots(env, Sketches(n, b), size, startA, x, nowA), ReadSlots(env, Sketches(n, b), size, startB, y, nowB);
            AgreeIffClean(b, p, q, i)
  {
    hide LegalRun, ReadSlots, HistOf, Young, SketchOf, SumSketch, H.Pow2, MergesCleanly, SlotSketches, H.AllOk, Vals;
    YoungSum(env, n, b, size, startA, x, nowA, i);
    YoungSum(env, n, b, size, startB, y, nowB, i);
    SketchPermutes(env, b, HistOf([], x), HistOf([], y));
  }

  // ---------------------------------------------------------------- an input

  lemma FilterTwo(start: int, size: int, w: int, x: Event<Change>, y: Event<Change>)
    requires size > 0
    ensures Filter([x, y], start, size, w)
         == (if Window(start, size, x.time) == w then [x] else []) + (if Window(start, size, y.time) == w then [y] else [])
  {
    hide Window;
    assert [x, y][..1] == [x] && [x][..0] == [];
    assert Filter([x], start, size, w) == if Window(start, size, x.time) == w then [x] else [];
  }

  lemma TwoFiltered(u: Change, v: Change, hist: Log<Change>)
    requires hist == [Event(109, u), Event(110, v)]
    ensures Filter(hist, 100, 10, WindowOf(1, 2, 0)) == [Event(109, u)] && Filter(hist, 100, 10, WindowOf(1, 2, 1)) == [Event(110, v)]
    ensures Filter(hist, 109, 10, WindowOf(0, 2, 0)) == hist && Filter(hist, 109, 10, WindowOf(0, 2, 1)) == []
  {
    hide Filter, Window, WindowOf, Mod, WindowStart;
    WindowIs(100, 10, 109, 0, 9);
    WindowIs(100, 10, 110, 1, 0);
    WindowIs(109, 10, 109, 0, 0);
    WindowIs(109, 10, 110, 0, 1);
    PlaceIs(1, 2, 0, 0, 0);
    PlaceIs(1, 2, 1, 1, 0);
    PlaceIs(0, 2, 0, 0, 0);
    PlaceIs(0, 2, 1, -1, -1);
    FilterTwo(100, 10, 0, hist[0], hist[1]);
    FilterTwo(100, 10, 1, hist[0], hist[1]);
    FilterTwo(109, 10, 0, hist[0], hist[1]);
    FilterTwo(109, 10, -1, hist[0], hist[1]);
  }

  /** Registers of sketches with none, one or both of the two items. */
  lemma TwoItems(env: Env, b: nat, s: string, t: string)
    requires 4 <= b <= 15 && env.hllHash(s) == H.Pow2(31 - b) && env.hllHash(t) == H.Pow2(30 - b)
    ensures var u, v := R.AddStr(s), R.AddStr(t);
            && SketchOf(env, b, []).regs[0] == 0 && SketchOf(env, b, [Event(109, u)]).regs[0] == 1
            && SketchOf(env, b, [Event(110, v)]).regs[0] == 2 && SketchOf(env, b, [Event(109, u), Event(110, v)]).regs[0] == 2
  {
    hide H.Pow2, H.Rank, H.RankByte, H.Index, H.After, ItemsOf;
    var g, h := env.hllHash(s), env.hllHash(t);
    HashOfRank(b, 1);
    HashOfRank(b, 2);
    H.RankByteIs(b, g);
    H.RankByteIs(b, h);
    TwoItemLists(env, s, t);
    OneItem(b, g);
    OneItem(b, h);
    BothItems(b, g, h);
  }

  lemma TwoItemLists(env: Env, s: string, t: string)
    ensures var u, v := Event(109, R.AddStr(s)), Event(110, R.AddStr(t));
            && ItemsOf(env, Vals([])) == [] && ItemsOf(env, Vals([u])) == [env.hllHash(s)]
            && ItemsOf(env, Vals([v])) == [env.hllHash(t)] && ItemsOf(env, Vals([u, v])) == [env.hllHash(s), env.hllHash(t)]
  {
    var u, v := Event(109, R.AddStr(s)), Event(110, R.AddStr(t));
    assert Vals([u]) == [u.val] && Vals([v]) == [v.val] && Vals([u, v]) == [u.val, v.val];
    assert [u.val, v.val][..1] == [u.val] && [u.val][..0] == [] && [v.val][..0] == [];
  }

  lemma BothItems(b: nat, g: H.Hash, h: H.Hash)
    requires 4 <= b <= 30 && H.Index(b, g) == 0 && H.Index(b, h) == 0 && H.RankByte(b, g) == 1 && H.RankByte(b, h) == 2
    ensures H.After(H.Empty(b), []).regs[0] == 0 && H.After(H.Empty(b), [g, h]).regs[0] == 2
  {
    hide H.Rank, H.RankByte, H.Index, H.Pow2;
    OneItem(b, g);
    assert [g, h][..1] == [g];
  }

  /**
   Sums of registers can differ although nothing has aged.  Two windows of ten seconds, from
   100 on the one node and from 109 on the other; both add one string at 109 and another at
   110, of ranks 1 and 2 in register 0, and read at 115.  The one has them in two slots,
   which merge to 3, the other in one, whose register is 2.
   */
  lemma {:induction false} SketchSumsDiffer(env: Env, b: nat, s: string, t: string, ops: seq<(int, Op<Change>)>)
    requires 4 <= b <= 15 && env.hllHash(s) == H.Pow2(31 - b) && env.hllHash(t) == H.Pow2(30 - b)
    requires ops == [(109, Put(R.AddStr(s))), (110, Put(R.AddStr(t)))]
    ensures var p, q := ReadSlots(env, Sketches(2, b), 10, 100, ops, 115), ReadSlots(env, Sketches(2, b), 10, 109, ops, 115);
            && LegalRun(2, 10, 100, ops, 115) && LegalRun(2, 10, 109, ops, 115)
            && H.AllOk(b, SlotSketches(p)) && H.AllOk(b, SlotSketches(q))
            && SumSketch(b, p).regs[0] == 3 && SumSketch(b, q).regs[0] == 2
  {
    hide LegalRun, ReadSlots, SumSketch, SlotSketches, H.AllOk, H.Pow2, HistOf, Folded;
    TwoItems(env, b, s, t);
    TwoFiltered(R.AddStr(s), R.AddStr(t), [Event(109, R.AddStr(s)), Event(110, R.AddStr(t))]);
    TwoSlotsMerge(env, b, 100, s, t, ops);
    TwoSlotsMerge(env, b, 109, s, t, ops);
    OneAndTwo();
    TwoAndZero();
  }

  lemma TwoAndZero()
    ensures Folded([2, 0]) == 2
  {
    var x: seq<bv8> := [2, 0];
    assert x[..1] == [2] && x[..1][..0] == [];
  }

  lemma TwoSlotsMerge(env: Env, b: nat, start: int, s: string, t: string, ops: seq<(int, Op<Change>)>)
    requires 4 <= b <= 30 && (start == 100 || start == 109)
    requires ops == [(109, Put(R.AddStr(s))), (110, Put(R.AddStr(t)))]
    ensures LegalRun(2, 10, start, ops, 115)
    ensures var slots, hist := ReadSlots(env, Sketches(2, b), 10, start, ops, 115), [Event(109, R.AddStr(s)), Event(110, R.AddStr(t))];
            var e := if start == 100 then 1 else 0;
            && H.AllOk(b, SlotSketches(slots))
            && SumSketch(b, slots).regs[0]
            == Folded([SketchOf(env, b, Filter(hist, start, 10, WindowOf(e, 2, 0))).regs[0],
                       SketchOf(env, b, Filter(hist, start, 10, WindowOf(e, 2, 1))).regs[0]])
  {
    hide LegalRun, ReadSlots, SlotSketches, H.Pow2, HistOf, Folded, SketchOf, Filter, WindowOf, Run, NewRing, Shown, Newest, Blank;
    hide H.MergeAll, Clean, CleanLog, MapRing, MemberRun, NewEntry;
    TwoWritesLegal(start, R.AddStr(s), R.AddStr(t), ops);
    SketchBlank(2, b);
    ReadIsFold(env, Sketches(2, b), 10, start, ops, 115);
    SlotSketch(env, 2, b, 10, start, ops, 115, 0);
    SlotSketch(env, 2, b, 10, start, ops, 115, 1);
    var ts := SlotSketches(ReadSlots(env, Sketches(2, b), 10, start, ops, 115));
    MergedRegister(b, ts, 0);
    assert Column(b, ts, 0) == [ts[0].regs[0], ts[1].regs[0]];
  }
}
