/**
 What the sums of a field mean in terms of the changes made to it: integer sums, count-min
 totals and count-min estimates over the last windows, on one node and between nodes whose
 windows start at different times.
 */
module FieldSums {

  import opened Basics
  import opened Rings
  import opened WindowSums
  import opened SumConditions
  import opened Members
  import C = CountMin
  import R = Replication

  // ---------------------------------------------------------------- weighing changes

  type Weight = Change -> int

  /** What each change counts for, at its time. */
  function Weigh(l: Log<Change>, g: Weight): (w: Log<int>)
    ensures |w| == |l|
  {
    seq(|l|, i requires 0 <= i < |l| => Event(l[i].time, g(l[i].val)))
  }

  function WeighOf(g: Weight): (h: (nat, Log<Change>) -> Log<int>)
  {
    (i, l) => Weigh(l, g)
  }

  lemma WeighSnoc(l: Log<Change>, e: Event<Change>, g: Weight)
    ensures Weigh(l + [e], g) == Weigh(l, g) + [Event(e.time, g(e.val))]
  {
  }

  lemma {:induction false} WeighFilter(hist: Log<Change>, start: int, size: int, w: int, g: Weight)
    requires size > 0
    ensures Filter(Weigh(hist, g), start, size, w) == Weigh(Filter(hist, start, size, w), g)
  {
    hide Window;
    if hist == [] {
    } else {
      var rest, e := hist[..|hist| - 1], hist[|hist| - 1];
      WeighFilter(rest, start, size, w, g);
      assert Weigh(hist, g)[..|hist| - 1] == Weigh(rest, g);
      var f := Filter(rest, start, size, w);
      if Window(start, size, e.time) == w {
        WeighSnoc(f, e, g);
      } else {
        assert f + [] == f && Weigh(f, g) + [] == Weigh(f, g);
      }
    }
  }

  lemma WeighHistOk(hist: Log<Change>, start: int, size: int, c: int, g: Weight)
    requires size > 0 && HistOk(hist, start, size, c)
    ensures HistOk(Weigh(hist, g), start, size, c)
  {
  }

  /** An exact ring of changes is an exact ring of their weights. */
  lemma WeighExact(p: Ring<Log<Change>>, hist: Log<Change>, d: int, g: Weight)
    requires RingOk(p) && Exact(p, hist, d)
    ensures RingOk(MapRing(p, WeighOf(g))) && Exact(MapRing(p, WeighOf(g)), Weigh(hist, g), d)
  {
    hide Filter, WindowOf;
    var m := MapRing(p, WeighOf(g));
    forall j | 0 <= j < |m.slots|
      ensures SlotExact(m.slots[j], Weigh(hist, g), m.start, m.size, WindowOf(d, |m.slots|, j))
    {
      var w := WindowOf(d, |m.slots|, j);
      assert SlotExact(p.slots[j], hist, p.start, p.size, w);
      WeighFilter(hist, p.start, p.size, w, g);
      assert m.slots[j] == Slot(p.slots[j].stamp, Weigh(p.slots[j].val, g));
    }
  }

  /** The weights in the first k slots. */
  function SlotWeights(slots: seq<Slot<Log<Change>>>, g: Weight): (n: int)
  {
    if slots == [] then 0 else SlotWeights(slots[..|slots| - 1], g) + Total(Weigh(slots[|slots| - 1].val, g))
  }

  lemma {:induction false} SlotWeightsAre(p: Ring<Log<Change>>, g: Weight, k: nat)
    requires k <= |p.slots|
    ensures SumSlots(MapRing(MapRing(p, WeighOf(g)), TotalOf).slots[..k]) == SlotWeights(p.slots[..k], g)
  {
    hide Weigh, Total;
    if k == 0 {
    } else {
      SlotWeightsAre(p, g, k - 1);
      var m := MapRing(MapRing(p, WeighOf(g)), TotalOf).slots;
      assert m[..k][..k - 1] == m[..k - 1] && p.slots[..k][..k - 1] == p.slots[..k - 1];
      assert MapRing(p, WeighOf(g)).slots[k - 1].val == WeighOf(g)(k - 1, p.slots[k - 1].val) == Weigh(p.slots[k - 1].val, g);
      assert m[k - 1].val == TotalOf(k - 1, Weigh(p.slots[k - 1].val, g));
    }
  }

  /** The slots of an exact ring weigh what the changes of the last n windows weigh. */
  lemma RingWeighs(p: Ring<Log<Change>>, hist: Log<Change>, now: int, g: Weight)
    requires RingOk(p) && Exact(p, hist, Window(p.start, p.size, now))
    ensures var d, n := Window(p.start, p.size, now), |p.slots|;
            SlotWeights(p.slots, g) == TotalIn(Weigh(hist, g), p.start, p.size, d - n, d)
  {
    hide Exact, Window, Weigh, SumSlots, WindowValues, SlotWeights, TotalIn;
    var m := MapRing(p, WeighOf(g));
    WeighExact(p, hist, Window(p.start, p.size, now), g);
    ExactReads(m, Weigh(hist, g), now);
    SlotWeightsAre(p, g, |p.slots|);
    var t := MapRing(m, TotalOf).slots;
    assert t[..|p.slots|] == t && p.slots[..|p.slots|] == p.slots;
  }

  // ---------------------------------------------------------------- sum() of integer and count-min fields

  /** get() of a member that can be summed. */
  function GetOf(m: Member): (n: int)
  {
    match m
    case IntM(i) => i
    case CmM(_, c) => c.total
    case HllM(_) => 0
  }

  function SumGets(slots: seq<Slot<Member>>): (n: int)
  {
    if slots == [] then 0 else SumGets(slots[..|slots| - 1]) + GetOf(slots[|slots| - 1].val)
  }

  /** What a change counts for in a count-min field. */
  function CmWeight(ch: Change): (n: int)
  {
    match ch
    case AddStr(_) => 1
    case AddStrInt(_, a) => a
    case _ => 0
  }

  function WeightFor(env: Env, init: Member): (g: Weight)
  {
    if init.IntM? then ch => Delta(env, ch) else if init.CmM? then CmWeight else ch => 0
  }

  lemma {:induction false} CountsWeigh(env: Env, l: Log<Change>)
    ensures C.Sum(CountsOf(env, Vals(l))) == Total(Weigh(l, CmWeight))
  {
    hide CountsOf, Vals, C.Sum;
    if l == [] {
      NoCounts(env, 0);
    } else {
      var rest, e := l[..|l| - 1], l[|l| - 1];
      CountsWeigh(env, rest);
      assert Weigh(l, CmWeight)[..|l| - 1] == Weigh(rest, CmWeight);
      CountsStep(env, l);
      SumSnoc(CountsOf(env, Vals(rest)), CountOf(env, e.val));
    }
  }

  lemma SumSnoc(log: seq<C.Count>, cs: seq<C.Count>)
    requires |cs| <= 1
    ensures C.Sum(log + cs) == C.Sum(log) + if cs == [] then 0 else cs[0].c
  {
    if cs == [] {
      assert log + cs == log;
    } else {
      assert (log + cs)[..|log|] == log && (log + cs)[|log|] == cs[0];
    }
  }

  lemma {:induction false} DeltasWeigh(env: Env, l: Log<Change>)
    ensures Deltas(env, Vals(l)) == Total(Weigh(l, ch => Delta(env, ch)))
  {
    var g: Weight := ch => Delta(env, ch);
    if l == [] {
    } else {
      DeltasWeigh(env, l[..|l| - 1]);
      assert Vals(l)[..|l| - 1] == Vals(l[..|l| - 1]) && Weigh(l, g)[..|l| - 1] == Weigh(l[..|l| - 1], g);
    }
  }

  /** A blank member's get() is the weight of the changes it receives. */
  lemma GetIsWeight(env: Env, init: Member, l: Log<Change>)
    requires Erased(init) == init && !init.HllM?
    ensures GetOf(Fold(env, init, Vals(l))) == Total(Weigh(l, WeightFor(env, init)))
  {
    hide Fold, Weigh, C.After, C.Empty, Deltas, Total;
    FoldMeans(env, init, Vals(l));
    if init.IntM? {
      DeltasWeigh(env, l);
    } else {
      C.TotalIsSum(init.c.width, init.c.hashes, CountsOf(env, Vals(l)));
      CountsWeigh(env, l);
    }
  }

  /** Every slot has a member of the field's kind, integers or count-min sketches. */
  predicate Summable(init: seq<Member>)
  {
    |init| > 0 && !init[0].HllM? && forall i | 0 <= i < |init| :: init[i].IntM? == init[0].IntM? && init[i].CmM? == init[0].CmM?
  }

  lemma {:induction false} GetsAreWeights(env: Env, init: seq<Member>, p: Ring<Log<Change>>, k: nat)
    requires Summable(init) && Blank(init) && k <= |p.slots| <= |init|
    ensures SumGets(MapRing(p, MemberOf(env, init)).slots[..k]) == SlotWeights(p.slots[..k], WeightFor(env, init[0]))
  {
    hide Fold, Weigh, Total, GetOf, Erased;
    if k == 0 {
    } else {
      GetsAreWeights(env, init, p, k - 1);
      var m := MapRing(p, MemberOf(env, init)).slots;
      assert m[..k][..k - 1] == m[..k - 1] && p.slots[..k][..k - 1] == p.slots[..k - 1];
      assert m[k - 1].val == MemberOf(env, init)(k - 1, p.slots[k - 1].val) == Fold(env, InitAt(init, k - 1), Vals(p.slots[k - 1].val));
      GetIsWeight(env, init[k - 1], p.slots[k - 1].val);
    }
  }

  /** The slots a read at `now` finds after the operations on a new entry. */
  ghost function ReadSlots(env: Env, init: seq<Member>, size: int, start: int,
                           ops: seq<(int, Op<Change>)>, now: int): (s: seq<Slot<Member>>)
    requires |init| > 0 && size > 0 && start > 0
  {
    Clean(MemberRun(env, NewEntry(init, size, start), ops), now, Erased).slots
  }

  /**
   sum() of an integer or count-min field when the writes meet the guard: the adds minus subs,
   or the counts, since the last reset in the n windows up to the one the read shows.  These
   are those of the last n windows if and only if the read meets the guard or the changes of
   the window that must leave cancel out.
   */
  lemma {:induction false} SumIsWeight(env: Env, init: seq<Member>, size: int, start: int, ops: seq<(int, Op<Change>)>, now: int)
    requires Summable(init) && size > 0 && start > 0 && Blank(init) && LegalRun(|init|, size, start, ops, now)
    ensures var sum := SumGets(ReadSlots(env, init, size, start, ops, now));
            var w := Weigh(HistOf([], ops), WeightFor(env, init[0]));
            var n, d, e := |init|, Window(start, size, now), Newest(env, init, size, start, ops, now);
            && HistOk(w, start, size, e)
            && sum == TotalIn(w, start, size, e - n, e)
            && (sum == TotalIn(w, start, size, d - n, d) <==> e == d || Leaving(w, start, size, n, now) == 0)
  {
    hide LegalRun, Clean, MemberRun, MapRing, NewEntry, Blank, Weigh, SumGets, SlotWeights, TotalIn, HistOf, Exact, Window, HistOk;
    hide Newest, Filter;
    var p, at := OneReplica(env, init, size, start, ops, now);
    GetsAreWeights(env, init, p, |init|);
    MappedLength(p, MemberOf(env, init));
    assert p.slots[..|init|] == p.slots;
    RingWeighs(p, HistOf([], ops), at, WeightFor(env, init[0]));
    var w, e := Weigh(HistOf([], ops), WeightFor(env, init[0])), Window(start, size, at);
    WeighHistOk(HistOf([], ops), start, size, e, WeightFor(env, init[0]));
    NewestIs(env, init, size, start, ops, now);
    ShiftTotal(w, start, size, e, |init|);
  }

  lemma NewestIs(env: Env, init: seq<Member>, size: int, start: int, ops: seq<(int, Op<Change>)>, now: int)
    requires |init| > 0 && size > 0 && start > 0
    ensures var e, d := Newest(env, init, size, start, ops, now), Window(start, size, now); e == d || e == d - 1
  {
    hide MemberRun, Guard;
    RunKeepsShape(env, NewEntry(init, size, start), ops);
  }

  lemma MappedLength(p: Ring<Log<Change>>, h: (nat, Log<Change>) -> Member)
    ensures MapRing(p, h).slots[..|p.slots|] == MapRing(p, h).slots
  {
  }

  // ---------------------------------------------------------------- nodes whose windows start at different times

  lemma WeightsPermute(env: Env, init: Member, x: Log<Change>, y: Log<Change>)
    requires Erased(init) == init && !init.HllM? && multiset(Vals(x)) == multiset(Vals(y))
    ensures Total(Weigh(x, WeightFor(env, init))) == Total(Weigh(y, WeightFor(env, init)))
  {
    hide Fold, Weigh, Total, Erased, GetOf, Vals;
    GetIsWeight(env, init, x);
    GetIsWeight(env, init, y);
    FoldPermutes(env, init, Vals(x), Vals(y));
  }

  lemma SumAndAged(env: Env, init: seq<Member>, size: int, start: int, ops: seq<(int, Op<Change>)>, now: int)
    requires Summable(init) && size > 0 && start > 0 && Blank(init) && LegalRun(|init|, size, start, ops, now)
    ensures var w, e := Weigh(HistOf([], ops), WeightFor(env, init[0])), Newest(env, init, size, start, ops, now);
            SumGets(ReadSlots(env, init, size, start, ops, now)) == Total(w) - Aged(w, start, size, |init|, e)
  {
    hide LegalRun, ReadSlots, Blank, Weigh, SumGets, TotalIn, HistOf, Aged, Total, Window, HistOk, Newest;
    SumIsWeight(env, init, size, start, ops, now);
    var e := Newest(env, init, size, start, ops, now);
    SplitTotal(Weigh(HistOf([], ops), WeightFor(env, init[0])), start, size, |init|, e);
  }

  /**
   Two nodes with windows, clocks and count-min coefficients of their own that receive the
   same changes in any order and are read at any times: their sums agree if and only if the
   changes that have left the windows the one read shows weigh what those that have left the
   windows of the other do.
   */
  lemma {:induction false} SumsAgreeIff(env: Env, size: int, a: seq<Member>, startA: int, x: seq<(int, Op<Change>)>, nowA: int,
                                        b: seq<Member>, startB: int, y: seq<(int, Op<Change>)>, nowB: int)
    requires Summable(a) && Summable(b) && |a| == |b| && Twins(a[0], b[0]) && Blank(a) && Blank(b)
    requires size > 0 && startA > 0 && startB > 0
    requires LegalRun(|a|, size, startA, x, nowA) && LegalRun(|a|, size, startB, y, nowB)
    requires multiset(Vals(HistOf([], x))) == multiset(Vals(HistOf([], y)))
    ensures var g := WeightFor(env, a[0]);
            var agedA := Aged(Weigh(HistOf([], x), g), startA, size, |a|, Newest(env, a, size, startA, x, nowA));
            var agedB := Aged(Weigh(HistOf([], y), g), startB, size, |a|, Newest(env, b, size, startB, y, nowB));
            SumGets(ReadSlots(env, a, size, startA, x, nowA)) == SumGets(ReadSlots(env, b, size, startB, y, nowB))
            <==> agedA == agedB
  {
    hide LegalRun, ReadSlots, Weigh, SumGets, HistOf, Aged, Total, Vals, Erased, Newest;
    SumAndAged(env, a, size, startA, x, nowA);
    SumAndAged(env, b, size, startB, y, nowB);
    assert Erased(a[0]) == a[0];
    WeightsPermute(env, a[0], HistOf([], x), HistOf([], y));
  }

  /** In particular while every change lies in the last n windows of its node. */
  lemma YoungSumsAgree(env: Env, size: int, a: seq<Member>, startA: int, x: seq<(int, Op<Change>)>, nowA: int,
                       b: seq<Member>, startB: int, y: seq<(int, Op<Change>)>, nowB: int)
    requires Summable(a) && Summable(b) && |a| == |b| && Twins(a[0], b[0]) && Blank(a) && Blank(b)
    requires size > 0 && startA > 0 && startB > 0
    requires LegalRun(|a|, size, startA, x, nowA) && LegalRun(|a|, size, startB, y, nowB)
    requires multiset(Vals(HistOf([], x))) == multiset(Vals(HistOf([], y)))
    requires Young(HistOf([], x), startA, size, |a|, nowA) && Young(HistOf([], y), startB, size, |a|, nowB)
    ensures SumGets(ReadSlots(env, a, size, startA, x, nowA)) == SumGets(ReadSlots(env, b, size, startB, y, nowB))
  {
    hide LegalRun, ReadSlots, SumGets, HistOf, Aged, Vals, Blank, Twins, Window, Newest;
    SumsAgreeIff(env, size, a, startA, x, nowA, b, startB, y, nowB);
    NewestIs(env, a, size, startA, x, nowA);
    NewestIs(env, b, size, startB, y, nowB);
    NothingAged(Weigh(HistOf([], x), WeightFor(env, a[0])), startA, size, |a|, Newest(env, a, size, startA, x, nowA));
    NothingAged(Weigh(HistOf([], y), WeightFor(env, a[0])), startB, size, |a|, Newest(env, b, size, startB, y, nowB));
  }

  predicate Young(hist: Log<Change>, start: int, size: int, n: nat, now: int)
    requires size > 0
  {
    forall i | 0 <= i < |hist| :: Window(start, size, hist[i].time) > Window(start, size, now) - n
  }

  /**
   They do not always agree.  An integer field with two windows of ten seconds, from 100 on
   one node and from 109 on the other; both add 5 at 109 and read at 120.
   */
  lemma SumsDiffer(env: Env, init: seq<Member>, ops: seq<(int, Op<Change>)>)
    requires init == [IntM(0), IntM(0)] && ops == [(109, Put(R.AddInt(5)))]
    ensures LegalRun(2, 10, 100, ops, 120) && SumGets(ReadSlots(env, init, 10, 100, ops, 120)) == 0
    ensures LegalRun(2, 10, 109, ops, 120) && SumGets(ReadSlots(env, init, 10, 109, ops, 120)) == 5
  {
    hide LegalRun, ReadSlots, SumGets;
    OneAdd(env, init, ops, 100);
    OneAdd(env, init, ops, 109);
  }

  lemma OneAdd(env: Env, init: seq<Member>, ops: seq<(int, Op<Change>)>, start: int)
    requires init == [IntM(0), IntM(0)] && ops == [(109, Put(R.AddInt(5)))] && (start == 100 || start == 109)
    ensures LegalRun(2, 10, start, ops, 120)
    ensures SumGets(ReadSlots(env, init, 10, start, ops, 120)) == if start == 100 then 0 else 5
  {
    hide LegalRun, ReadSlots, SumGets, HistOf, Weigh, Total, Aged, Newest;
    OneAddShown(env, init, ops, start);
    SumAndAged(env, init, 10, start, ops, 120);
    WeighOne(env);
  }

  lemma OneAddShown(env: Env, init: seq<Member>, ops: seq<(int, Op<Change>)>, start: int)
    requires init == [IntM(0), IntM(0)] && ops == [(109, Put(R.AddInt(5)))] && (start == 100 || start == 109)
    ensures LegalRun(2, 10, start, ops, 120) && HistOf([], ops) == [Event(109, R.AddInt(5))]
    ensures Newest(env, init, 10, start, ops, 120) == if start == 100 then 2 else 1
  {
    hide RunOk, Run, WritesGuarded, HistOf, Newest, Shown, MapRing, Clean, CleanLog, MemberRun, NewEntry;
    OneWriteLegal(2, 10, start, 109, R.AddInt(5), 120);
    assert Blank(init);
    ReadIsFold(env, init, 10, start, ops, 120);
  }

  lemma WeighOne(env: Env)
    ensures var w := Weigh([Event(109, R.AddInt(5))], WeightFor(env, IntM(0)));
            && Total(w) == 5 && Aged(w, 100, 10, 2, 2) == 5 && Aged(w, 109, 10, 2, 1) == 0
  {
    var w := Weigh([Event(109, R.AddInt(5))], WeightFor(env, IntM(0)));
    assert w == [Event(109, 5)] && w[..0] == [];
  }

  // ---------------------------------------------------------------- sum(s) of count-min fields

  /** What a change counts for the string s. */
  function StringWeight(s: string): (g: Weight)
  {
    (ch: Change) => match ch
                    case AddStr(t) => if t == s then 1 else 0
                    case AddStrInt(t, a) => if t == s then a else 0
                    case _ => 0
  }

  /** No negative counts. */
  predicate Counted(l: Log<Change>)
  {
    forall i | 0 <= i < |l| :: l[i].val.AddStrInt? ==> l[i].val.a >= 0
  }

  function SumAsks(slots: seq<Slot<Member>>, item: int): (n: int)
  {
    if slots == [] then 0 else
      var m := slots[|slots| - 1].val;
      SumAsks(slots[..|slots| - 1], item) + if m.CmM? then C.Estimate(m.c, item) else 0
  }

  lemma {:induction false} FilterCounted(hist: Log<Change>, start: int, size: int, w: int)
    requires size > 0 && Counted(hist)
    ensures Counted(Filter(hist, start, size, w))
  {
    hide Window;
    if hist != [] {
      FilterCounted(hist[..|hist| - 1], start, size, w);
    }
  }

  /** The update that one more change makes, if any. */
  function CountOf(env: Env, ch: Change): (cs: seq<C.Count>)
    ensures |cs| <= 1
  {
    match ch
    case AddStr(s) => [C.Count(env.cmHash(s), 1)]
    case AddStrInt(s, a) => [C.Count(env.cmHash(s), a)]
    case _ => []
  }

  lemma CountsStep(env: Env, l: Log<Change>)
    requires l != []
    ensures CountsOf(env, Vals(l)) == CountsOf(env, Vals(l[..|l| - 1])) + CountOf(env, l[|l| - 1].val)
  {
    assert Vals(l)[..|l| - 1] == Vals(l[..|l| - 1]);
  }

  lemma TrueCountSnoc(log: seq<C.Count>, cs: seq<C.Count>, item: int)
    requires |cs| <= 1
    ensures C.TrueCount(log + cs, item) == C.TrueCount(log, item) + if cs != [] && cs[0].item == item then cs[0].c else 0
  {
    if cs == [] {
      assert log + cs == log;
    } else {
      assert (log + cs)[..|log|] == log && (log + cs)[|log|] == cs[0];
    }
  }

  /** The updates are not negative, and those of the item include all counts of the string. */
  lemma {:induction false} StringCounts(env: Env, l: Log<Change>, s: string)
    requires Counted(l)
    ensures var log := CountsOf(env, Vals(l));
            C.NonNegative(log) && Total(Weigh(l, StringWeight(s))) <= C.TrueCount(log, env.cmHash(s))
  {
    hide CountsOf, Vals, C.TrueCount;
    if l == [] {
      NoCounts(env, env.cmHash(s));
    } else {
      var rest, e := l[..|l| - 1], l[|l| - 1];
      StringCounts(env, rest, s);
      assert Weigh(l, StringWeight(s))[..|l| - 1] == Weigh(rest, StringWeight(s));
      CountsStep(env, l);
      TrueCountSnoc(CountsOf(env, Vals(rest)), CountOf(env, e.val), env.cmHash(s));
    }
  }

  lemma NoCounts(env: Env, item: int)
    ensures CountsOf(env, Vals([])) == [] && C.TrueCount([], item) == 0 && C.Sum([]) == 0
  {
  }

  /** One slot: the estimate is at least the count of the string, and at most the total. */
  lemma SlotEstimate(env: Env, init: Member, l: Log<Change>, s: string)
    requires Erased(init) == init && init.CmM? && Counted(l)
    requires GetOf(Fold(env, init, Vals(l))) <= INT_MAX
    ensures var m := Fold(env, init, Vals(l));
            m.CmM? && Total(Weigh(l, StringWeight(s))) <= C.Estimate(m.c, env.cmHash(s)) <= GetOf(m)
  {
    hide Fold, Weigh, Total, C.After, C.Empty, C.Estimate;
    FoldMeans(env, init, Vals(l));
    StringCounts(env, l, s);
    var log := CountsOf(env, Vals(l));
    C.TotalIsSum(init.c.width, init.c.hashes, log);
    C.NeverUnderCounts(init.c.width, init.c.hashes, log, env.cmHash(s));
  }

  lemma {:induction false} AsksBound(env: Env, init: seq<Member>, p: Ring<Log<Change>>, k: nat, s: string)
    requires Blank(init) && k <= |p.slots| <= |init| && (forall i | 0 <= i < |init| :: init[i].CmM?)
    requires forall j | 0 <= j < |p.slots| :: Counted(p.slots[j].val) && GetOf(Fold(env, init[j], Vals(p.slots[j].val))) <= INT_MAX
    ensures var m := MapRing(p, MemberOf(env, init)).slots;
            SlotWeights(p.slots[..k], StringWeight(s)) <= SumAsks(m[..k], env.cmHash(s)) <= SumGets(m[..k])
  {
    hide Fold, Weigh, Total, GetOf, Erased, Counted, C.Estimate;
    if k == 0 {
    } else {
      AsksBound(env, init, p, k - 1, s);
      var m := MapRing(p, MemberOf(env, init)).slots;
      assert m[..k][..k - 1] == m[..k - 1] && p.slots[..k][..k - 1] == p.slots[..k - 1];
      assert m[k - 1].val == MemberOf(env, init)(k - 1, p.slots[k - 1].val) == Fold(env, InitAt(init, k - 1), Vals(p.slots[k - 1].val));
      SlotEstimate(env, init[k - 1], p.slots[k - 1].val, s);
    }
  }

  // ---------------------------------------------------------------- in every run

  /** The slots hold nothing but changes since the last reset. */
  ghost predicate HoldsOnly<V>(r: Ring<Log<V>>, hist: Log<V>)
  {
    forall j, e | 0 <= j < |r.slots| && e in r.slots[j].val :: e in hist
  }

  lemma CleanHoldsOnly<V>(r: Ring<Log<V>>, hist: Log<V>, now: int)
    requires RingOk(r) && HoldsOnly(r, hist)
    ensures HoldsOnly(CleanLog(r, now), hist)
  {
  }

  lemma StepHoldsOnly<V>(r: Ring<Log<V>>, hist: Log<V>, now: int, op: Op<V>)
    requires RingOk(r) && HoldsOnly(r, hist) && !op.Load? && OpOk(r, now, op)
    ensures HoldsOnly(Step(r, now, op), HistAfter(hist, now, op))
  {
    hide Mod, Window, WindowStart;
    CleanHoldsOnly(r, hist, now);
    if op.Put? {
      var c, p := CleanLog(r, now), Step(r, now, op);
      var i := Current(c, now);
      assert p.slots[i].val == c.slots[i].val + [Event(now, op.val)];
      assert forall j | 0 <= j < |p.slots| && j != i :: p.slots[j] == c.slots[j];
    }
  }

  /** In every run, guarded or not. */
  lemma {:induction false} RunHoldsOnly<V>(r: Ring<Log<V>>, hist: Log<V>, t: int, ops: seq<(int, Op<V>)>)
    requires RingOk(r) && HoldsOnly(r, hist) && RunOk(r, t, ops) && NoLoad(ops)
    ensures HoldsOnly(Run(r, t, ops), HistOf(hist, ops)) && t <= LastTime(t, ops)
    decreases |ops|
  {
    hide HoldsOnly, OpOk;
    if ops != [] {
      StepHoldsOnly(r, hist, ops[0].0, ops[0].1);
      RunHoldsOnly(Step(r, ops[0].0, ops[0].1), HistAfter(hist, ops[0].0, ops[0].1), ops[0].0, ops[1..]);
    }
  }

  /** A run on a clock that does not go back, up to `now`. */
  ghost predicate AnyRun<V>(n: nat, size: int, start: int, ops: seq<(int, Op<V>)>, now: int)
    requires n > 0 && size > 0 && start > 0
  {
    RunOk(NewRing<V>(n, size, start), start, ops) && NoLoad(ops) && LastTime(start, ops) <= now
  }

  /** The changes in the slots that a read at `now` finds. */
  ghost function LogSlots(n: nat, size: int, start: int, ops: seq<(int, Op<Change>)>, now: int): (s: seq<Slot<Log<Change>>>)
    requires n > 0 && size > 0 && start > 0 && AnyRun(n, size, start, ops, now)
  {
    CleanLog(Run(NewRing<Change>(n, size, start), start, ops), now).slots
  }

  /**
   sum(s) of a count-min field in every run, guarded or not, without negative counts and with
   totals that fit an int: at least the count of s held in the slots, and at most the sum of
   all counts, whatever coefficients each slot drew.
   */
  lemma NeverBelowHeld(env: Env, init: seq<Member>, size: int, start: int, ops: seq<(int, Op<Change>)>, now: int, s: string)
    requires |init| > 0 && (forall i | 0 <= i < |init| :: init[i].CmM?) && size > 0 && start > 0 && Blank(init)
    requires AnyRun(|init|, size, start, ops, now) && Counted(HistOf([], ops))
    requires forall slot | slot in ReadSlots(env, init, size, start, ops, now) :: GetOf(slot.val) <= INT_MAX
    ensures var slots := ReadSlots(env, init, size, start, ops, now);
            SlotWeights(LogSlots(|init|, size, start, ops, now), StringWeight(s)) <= SumAsks(slots, env.cmHash(s)) <= SumGets(slots)
  {
    hide RunOk, Run, Clean, CleanLog, MemberRun, NewEntry, Blank, Weigh, SumGets, SumAsks, SlotWeights;
    hide Counted, GetOf, Fold, StringWeight, HistOf;
    var n := |init|;
    var p := CleanLog(Run(NewRing<Change>(n, size, start), start, ops), now);
    AnyRead(env, init, size, start, ops, now);
    CountedRead(n, size, start, ops, now);
    var m := MapRing(p, MemberOf(env, init)).slots;
    var logs := LogSlots(n, size, start, ops, now);
    forall j | 0 <= j < n
      ensures Counted(p.slots[j].val) && GetOf(Fold(env, init[j], Vals(p.slots[j].val))) <= INT_MAX
    {
      assert Counted(logs[j].val);
      assert m[j] in m && m[j].val == MemberOf(env, init)(j, p.slots[j].val) == Fold(env, InitAt(init, j), Vals(p.slots[j].val));
    }
    AsksBound(env, init, p, n, s);
    assert m[..n] == m && p.slots[..n] == p.slots;
  }

  lemma CountedRead(n: nat, size: int, start: int, ops: seq<(int, Op<Change>)>, now: int)
    requires n > 0 && size > 0 && start > 0 && AnyRun(n, size, start, ops, now) && Counted(HistOf([], ops))
    ensures forall j | 0 <= j < |LogSlots(n, size, start, ops, now)| :: Counted(LogSlots(n, size, start, ops, now)[j].val)
  {
    hide RunOk, Run, CleanLog, HistOf;
    var r0 := NewRing<Change>(n, size, start);
    assert HoldsOnly(r0, []);
    RunHoldsOnly(r0, [], start, ops);
    CleanHoldsOnly(Run(r0, start, ops), HistOf([], ops), now);
    var slots := LogSlots(n, size, start, ops, now);
    forall j | 0 <= j < |slots|
      ensures Counted(slots[j].val)
    {
      forall i | 0 <= i < |slots[j].val| && slots[j].val[i].val.AddStrInt?
        ensures slots[j].val[i].val.a >= 0
      {
        assert slots[j].val[i] in HistOf([], ops);
      }
    }
  }

  /** Every read of an entry is that of the log ring, seen through the members. */
  lemma AnyRead(env: Env, init: seq<Member>, size: int, start: int, ops: seq<(int, Op<Change>)>, now: int)
    requires |init| > 0 && size > 0 && start > 0 && Blank(init) && AnyRun(|init|, size, start, ops, now)
    ensures var c := CleanLog(Run(NewRing<Change>(|init|, size, start), start, ops), now);
            && |c.slots| == |init|
            && MapRing(c, MemberOf(env, init)).slots == ReadSlots(env, init, size, start, ops, now)
  {
    hide Clean, MemberRun, MapRing, Fold, CleanLog, RunOk, Run, Blank;
    var r0 := NewRing<Change>(|init|, size, start);
    RunShape(r0, start, ops);
    RunHoldsOnly(r0, [], start, ops);
    MemberRunIsFold(env, init, r0, start, ops);
    NewEntryIsFold(env, init, size, start);
    MemberStepIsFold(env, init, Run(r0, start, ops), now, Read);
  }

  lemma {:induction false} NoNegative(l: Log<Change>, s: string)
    requires Counted(l)
    ensures Total(Weigh(l, StringWeight(s))) >= 0
  {
    if l != [] {
      NoNegative(l[..|l| - 1], s);
      assert Weigh(l, StringWeight(s))[..|l| - 1] == Weigh(l[..|l| - 1], StringWeight(s));
    }
  }

  /**
   When the writes meet the guard, and whether or not the read does, what the slots hold
   includes all counts of s since the last reset in the last n windows: so does sum(s).
   */
  lemma {:induction false} FieldNeverUnderCounts(env: Env, init: seq<Member>, size: int, start: int, ops: seq<(int, Op<Change>)>, now: int, s: string)
    requires |init| > 0 && (forall i | 0 <= i < |init| :: init[i].CmM?) && size > 0 && start > 0 && Blank(init)
    requires LegalRun(|init|, size, start, ops, now) && Counted(HistOf([], ops))
    requires forall slot | slot in ReadSlots(env, init, size, start, ops, now) :: GetOf(slot.val) <= INT_MAX
    ensures var slots := ReadSlots(env, init, size, start, ops, now);
            var d, n := Window(start, size, now), |init|;
            TotalIn(Weigh(HistOf([], ops), StringWeight(s)), start, size, d - n, d) <= SumAsks(slots, env.cmHash(s)) <= SumGets(slots)
  {
    hide RunOk, Run, WritesGuarded, ReadSlots, Blank, Weigh, SumGets, SumAsks, SlotWeights, TotalIn, HistOf;
    hide Window, GetOf, Counted, CleanLog, StringWeight;
    NeverBelowHeld(env, init, size, start, ops, now, s);
    HeldCoversWindows(|init|, size, start, ops, now, s);
  }

  lemma HeldCoversWindows(n: nat, size: int, start: int, ops: seq<(int, Op<Change>)>, now: int, s: string)
    requires n > 0 && size > 0 && start > 0 && LegalRun(n, size, start, ops, now) && Counted(HistOf([], ops))
    ensures var d := Window(start, size, now);
            TotalIn(Weigh(HistOf([], ops), StringWeight(s)), start, size, d - n, d) <= SlotWeights(LogSlots(n, size, start, ops, now), StringWeight(s))
  {
    hide RunOk, Run, WritesGuarded, Weigh, SlotWeights, TotalIn, HistOf, Window, CleanLog, StringWeight, Exact, HistOk;
    hide Filter, Guard, Counted;
    var g, hist := StringWeight(s), HistOf([], ops);
    var last := LegalTracks(n, size, start, ops, now);
    var r := Run(NewRing<Change>(n, size, start), start, ops);
    var at := ReadShows(r, hist, last, now);
    var e := Window(start, size, at);
    RingWeighs(CleanLog(r, now), hist, at, g);
    WeighHistOk(hist, start, size, e, g);
    ShiftTotal(Weigh(hist, g), start, size, e, n);
    FilterCounted(hist, start, size, e + 1 - n);
    WeighFilter(hist, start, size, e + 1 - n, g);
    NoNegative(Filter(hist, start, size, e + 1 - n), s);
  }
}
