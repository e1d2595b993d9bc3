/**
 Two nodes that are told the same and answer differently, because one of them was read in
 between: an input that shows why convergence asks for guarded writes.
 */
module Divergence {

  import opened Basics
  import opened Rings
  import opened WindowSums
  import opened SumConditions
  import opened Members
  import opened FieldSums
  import opened Convergence
  import DB = StatsDBs
  import R = Replication

  // ---------------------------------------------------------------- integer members

  function Whole(i: nat, x: int): (m: Member)
  {
    IntM(x)
  }

  function AsChange(op: Op<int>): (r: Op<Change>)
    requires !op.Load?
  {
    match op
    case Put(a) => Put(R.AddInt(a))
    case Read => Read
    case ResetAll => ResetAll
  }

  /** A ring of integer members does what the ring of integers does. */
  lemma WholeStep(env: Env, r: Ring<int>, now: int, op: Op<int>)
    requires RingOk(r) && !op.Load?
    ensures RingOk(MapRing(r, Whole)) && RingOk(IntStep(r, now, op))
    ensures MapRing(IntStep(r, now, op), Whole) == MemberStep(env, MapRing(r, Whole), now, AsChange(op))
    ensures MapRing(Clean(r, now, Zero), Whole) == Clean(MapRing(r, Whole), now, Erased)
  {
    hide Clean, Write, Reset, MapRing;
    forall i: nat, a
      ensures Whole(i, Zero(a)) == Erased(Whole(i, a))
    {
    }
    MappedOk(r);
    CleanNatural(r, now, Whole, Zero, Erased);
    if op.Put? {
      var fa, fb := (a: int) => a + op.val, (m: Member) => Put1(env, m, R.AddInt(op.val));
      forall i: nat, a
        ensures Whole(i, fa(a)) == fb(Whole(i, a))
      {
      }
      WriteNatural(r, now, Whole, fa, fb, Zero, Erased);
    }
  }

  lemma MappedOk(r: Ring<int>)
    requires RingOk(r)
    ensures RingOk(MapRing(r, Whole))
  {
  }

  function AsChanges(ops: seq<(int, Op<int>)>): (r: seq<(int, Op<Change>)>)
    requires NoLoad(ops)
    ensures |r| == |ops|
  {
    seq(|ops|, i requires 0 <= i < |ops| => (ops[i].0, AsChange(ops[i].1)))
  }

  lemma {:induction false} WholeRun(env: Env, r: Ring<int>, ops: seq<(int, Op<int>)>)
    requires RingOk(r) && NoLoad(ops)
    ensures RingOk(MapRing(r, Whole)) && MapRing(IntRun(r, ops), Whole) == MemberRun(env, MapRing(r, Whole), AsChanges(ops))
    decreases |ops|
  {
    hide MapRing, IntStep, MemberStep;
    MappedOk(r);
    if ops == [] {
    } else {
      WholeStep(env, r, ops[0].0, ops[0].1);
      WholeRun(env, IntStep(r, ops[0].0, ops[0].1), ops[1..]);
      assert AsChanges(ops)[1..] == AsChanges(ops[1..]);
    }
  }

  lemma {:induction false} WholeSum(slots: seq<Slot<int>>, ms: seq<Slot<Member>>)
    requires |ms| == |slots| && forall i | 0 <= i < |slots| :: ms[i].val == IntM(slots[i].val)
    ensures SumGets(ms) == SumSlots(slots)
  {
    if slots != [] {
      WholeSum(slots[..|slots| - 1], ms[..|ms| - 1]);
    }
  }

  /** sum() of a new integer field with two windows of ten seconds from 100 is that of the ring of integers. */
  lemma WholeRead(env: Env, init: seq<Member>, ops: seq<(int, Op<int>)>, now: int)
    requires init == [IntM(0), IntM(0)] && NoLoad(ops)
    ensures SumGets(ReadSlots(env, init, 10, 100, AsChanges(ops), now)) == SumSlots(Clean(IntRun(TwoSlots(0, 0, 0), ops), now, Zero).slots)
  {
    hide Clean, IntRun, MemberRun, SumGets, SumSlots, AsChanges, IntStep;
    var r := TwoSlots(0, 0, 0);
    WholeRun(env, r, ops);
    NewIsWhole(init);
    var e := IntRun(r, ops);
    WholeStep(env, e, now, Read);
    var c := Clean(e, now, Zero);
    assert forall i | 0 <= i < |c.slots| :: MapRing(c, Whole).slots[i].val == Whole(i, c.slots[i].val);
    WholeSum(c.slots, MapRing(c, Whole).slots);
  }

  lemma NewIsWhole(init: seq<Member>)
    requires init == [IntM(0), IntM(0)]
    ensures NewEntry(init, 10, 100) == MapRing(TwoSlots(0, 0, 0), Whole)
  {
    var a, b := NewEntry(init, 10, 100).slots, MapRing(TwoSlots(0, 0, 0), Whole).slots;
    forall i | 0 <= i < 2
      ensures a[i] == b[i]
    {
      assert b[i] == Slot(0, Whole(i, 0));
    }
    assert a == b;
  }

  // ---------------------------------------------------------------- with and without a read at 119

  function Told(k: DB.Key, f: string): (x: seq<Task>)
  {
    [Carry(100, R.DoChange(k, f, R.AddInt(5))), Carry(120, R.DoChange(k, f, R.AddInt(7)))]
  }

  function ToldAndRead(k: DB.Key, f: string): (x: seq<Task>)
  {
    [Carry(100, R.DoChange(k, f, R.AddInt(5))), Get(119, k, f), Carry(120, R.DoChange(k, f, R.AddInt(7)))]
  }

  lemma ProjectOne(env: Env, x: seq<Task>, t: Task, k: DB.Key, f: string)
    ensures Project(env, true, x + [t], k, f) == Project(env, true, x, k, f) + TaskOn(env, true, Changes(x, k, f), t, k, f)
  {
    assert (x + [t])[..|x|] == x;
  }

  lemma Projections(env: Env, k: DB.Key, f: string)
    ensures Project(env, true, Told(k, f), k, f) == AsChanges([(100, Put(5)), (120, Put(7))])
    ensures Project(env, true, ToldAndRead(k, f), k, f) == AsChanges([(100, Put(5)), (119, Read), (120, Put(7))])
  {
    hide Project, Changes;
    var a, b, c := Carry(100, R.DoChange(k, f, R.AddInt(5))), Get(119, k, f), Carry(120, R.DoChange(k, f, R.AddInt(7)));
    var none: seq<Task> := [];
    assert none + [a] == [a] && [a] + [c] == [a, c] && [a] + [b] == [a, b] && [a, b] + [c] == [a, b, c];
    NoTasks(env, k, f);
    Changed1(a, k, f);
    ProjectOne(env, [], a, k, f);
    ProjectOne(env, [a], c, k, f);
    ProjectOne(env, [a], b, k, f);
    ProjectOne(env, [a, b], c, k, f);
  }

  lemma NoTasks(env: Env, k: DB.Key, f: string)
    ensures Project(env, true, [], k, f) == []
  {
  }

  lemma Changed1(a: Task, k: DB.Key, f: string)
    requires IsChange(a, k, f)
    ensures Changes([a], k, f)
  {
    assert IsChange([a][0], k, f);
  }

  /** Without the read the second write scans, and the sum at 121 is that of the last two windows. */
  lemma ToldSum()
    ensures SumSlots(Clean(IntRun(TwoSlots(0, 0, 0), [(100, Put(5)), (120, Put(7))]), 121, Zero).slots) == 7
  {
    hide Clean, IntStep, IntRun, SumSlots, Window, WindowStart, Mod;
    var r, s := TwoSlots(100, 5, 100), TwoSlots(120, 7, 120);
    FirstStep();
    ScanTwo(Slot(100, 5), Slot(0, 0), 10, 100, 100, 120);
    WindowIs(100, 10, 120, 2, 0);
    ModIs(2, 2, 1, 0);
    PutInFirst(r, Slot(0, 0), Slot(0, 0), 120, 120, 7);
    TwoSteps(TwoSlots(0, 0, 0), (100, Put(5)), (120, Put(7)));
    assert IntStep(r, 120, Put(7)) == s;
    SkippedClean(s, 121);
    SumOfTwo(Slot(120, 7), Slot(0, 0));
  }

  lemma SkippedClean(r: Ring<int>, now: int)
    requires RingOk(r) && Skips(r, now)
    ensures Clean(r, now, Zero) == r
  {
  }

  lemma TwoSteps(r: Ring<int>, a: (int, Op<int>), b: (int, Op<int>))
    requires RingOk(r)
    ensures IntRun(r, [a, b]) == IntStep(IntStep(r, a.0, a.1), b.0, b.1)
  {
    hide IntStep;
    assert [a, b][1..] == [b] && [b][1..] == [];
    var s := IntStep(r, a.0, a.1);
    assert IntRun(s, [b]) == IntStep(s, b.0, b.1);
  }

  lemma Hists(ops: seq<(int, Op<int>)>)
    requires ops == [(100, Put(5)), (119, Read), (120, Put(7))] || ops == [(100, Put(5)), (120, Put(7))]
    ensures HistOf([], AsChanges(ops)) == [Event(100, R.AddInt(5)), Event(120, R.AddInt(7))]
  {
    hide HistAfter;
    var c := AsChanges(ops);
    var a: (int, Op<Change>), r: (int, Op<Change>), b: (int, Op<Change>) := (100, Put(R.AddInt(5))), (119, Read), (120, Put(R.AddInt(7)));
    HistAfterTwo();
    if |ops| == 2 {
      assert c == [a, b];
      HistSnoc([], [a], b);
      assert [a] + [b] == [a, b];
    } else {
      assert c == [a, r, b];
      HistSnoc([], [a, r], b);
      HistSnoc([], [a], r);
      assert [a, r] + [b] == [a, r, b] && [a] + [r] == [a, r];
    }
    assert HistOf([], [a]) == HistAfter([], a.0, a.1) by {
      assert [a][1..] == [];
    }
  }

  lemma HistAfterTwo()
    ensures var h := HistAfter([], 100, Put(R.AddInt(5)));
            && HistAfter(h, 119, Read) == h
            && HistAfter(h, 120, Put(R.AddInt(7))) == [Event(100, R.AddInt(5)), Event(120, R.AddInt(7))]
  {
  }

  /** With it they cannot be, or the sum would be right. */
  lemma ReadIllegal(env: Env, init: seq<Member>, ops: seq<(int, Op<int>)>)
    requires init == [IntM(0), IntM(0)] && ops == [(100, Put(5)), (119, Read), (120, Put(7))]
    ensures !LegalRun(2, 10, 100, AsChanges(ops), 121)
  {
    hide LegalRun, ReadSlots, Clean, IntRun, SumGets, SumSlots, TotalIn, HistOf, AsChanges, Window, Newest, HistOk, Leaving;
    UnguardedSumIsWrong();
    WholeRead(env, init, ops, 121);
    Hists(ops);
    IntHist(ops);
    var w := Weigh(HistOf([], AsChanges(ops)), WeightFor(env, init[0]));
    assert w == [Event(100, 5), Event(120, 7)];
    NewestIs(env, init, 10, 100, AsChanges(ops), 121);
    if LegalRun(2, 10, 100, AsChanges(ops), 121) {
      LastIsShown(w, Newest(env, init, 10, 100, AsChanges(ops), 121));
      SumIsWeight(env, init, 10, 100, AsChanges(ops), 121);
    }
  }

  lemma LastIsShown(w: Log<int>, e: int)
    requires w == [Event(100, 5), Event(120, 7)]
    ensures HistOk(w, 100, 10, e) ==> e >= Window(100, 10, 121)
  {
    hide Window;
    WindowIs(100, 10, 120, 2, 0);
    WindowIs(100, 10, 121, 2, 1);
    if HistOk(w, 100, 10, e) {
      assert Window(100, 10, w[1].time) <= e;
    }
  }

  lemma IntHist(ops: seq<(int, Op<int>)>)
    requires ops == [(100, Put(5)), (119, Read), (120, Put(7))]
    ensures HistOf([], ops) == [Event(100, 5), Event(120, 7)]
  {
    hide HistAfter;
    ThreeSteps(TwoSlots(0, 0, 0), ops[0], ops[1], ops[2]);
    AfterThree();
  }

  lemma AfterThree()
    ensures HistAfter(HistAfter(HistAfter([], 100, Put(5)), 119, Read), 120, Put(7)) == [Event(100, 5), Event(120, 7)]
  {
  }

  /**
   Two nodes with an integer field of two windows of ten seconds from 100 are told to add 5 at
   100 and 7 at 120, and one of them is read at 119.  Both have made the same changes at the
   same times; the write at 120 is guarded on the one that was not read, and not on the other.
   Read at 121, the one answers 7 and the other 12.
   */
  lemma ReadMakesNodesDiffer(env: Env, v: DB.View<Entry>, k: DB.Key, f: string, make: DB.Make<Entry>, init: seq<Member>)
    requires v.entries == map[] && f in v.fields && v.fields[f] == "int" && init == [IntM(0), IntM(0)]
    requires Made(make, k, f, "int", init, 10, 100)
    ensures var x, y := Told(k, f), ToldAndRead(k, f);
            && HistAt(env, true, x, k, f) == HistAt(env, true, y, k, f)
            && Legal(env, true, 2, 10, 100, x, k, f, 121) && !Legal(env, true, 2, 10, 100, y, k, f, 121)
            && SumRead(DbRun(env, make, v, x), k, f, 121) == 7 && SumRead(DbRun(env, make, v, y), k, f, 121) == 12
  {
    hide DbRun, MemberRun, LegalRun, Clean, HistOf, Blank, Kinds, EntryAt, SumGets, Project, NewEntry, Changes, AsChanges, Told, ToldAndRead;
    hide SumSlots, IntRun;
    var a, b: seq<(int, Op<int>)> := [(100, Put(5)), (120, Put(7))], [(100, Put(5)), (119, Read), (120, Put(7))];
    Projections(env, k, f);
    Hists(a);
    Hists(b);
    TwoFarWrites(2, 10, 100, 100, R.AddInt(5), 120, R.AddInt(7), 121);
    assert AsChanges(a) == [(100, Put(R.AddInt(5))), (120, Put(R.AddInt(7)))] by {
      AsChangesTwo(a);
    }
    ReadIllegal(env, init, b);
    UnguardedSumIsWrong();
    ToldSum();
    WholeRead(env, init, a, 121);
    WholeRead(env, init, b, 121);
    BothChange(k, f);
    EntryIsRun(env, make, v, Told(k, f), k, f, init, 10, 100);
    EntryIsRun(env, make, v, ToldAndRead(k, f), k, f, init, 10, 100);
  }

  lemma AsChangesTwo(ops: seq<(int, Op<int>)>)
    requires ops == [(100, Put(5)), (120, Put(7))]
    ensures AsChanges(ops) == [(100, Put(R.AddInt(5))), (120, Put(R.AddInt(7)))]
  {
  }

  lemma BothChange(k: DB.Key, f: string)
    ensures Changes(Told(k, f), k, f) && Changes(ToldAndRead(k, f), k, f)
  {
    assert IsChange(Told(k, f)[0], k, f) && IsChange(ToldAndRead(k, f)[0], k, f);
  }
}
