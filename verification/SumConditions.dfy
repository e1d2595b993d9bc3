/**
 Exactly when a read of an integer field is right: the condition on one read, over whole
 runs, and between two nodes whose windows start at different times.
 */
module SumConditions {

  import opened Rings
  import opened WindowSums

  // ---------------------------------------------------------------- one read

  /** Moving on by one window loses the total of the oldest one. */
  lemma {:induction false} ShiftTotal(hist: Log<int>, start: int, size: int, c: int, n: nat)
    requires size > 0 && n > 0 && HistOk(hist, start, size, c)
    ensures TotalIn(hist, start, size, c + 1 - n, c + 1)
         == TotalIn(hist, start, size, c - n, c) - Total(Filter(hist, start, size, c + 1 - n))
  {
    hide Window;
    if hist == [] {
    } else {
      var rest, e := hist[..|hist| - 1], hist[|hist| - 1];
      ShiftTotal(rest, start, size, c, n);
      if Window(start, size, e.time) == c + 1 - n {
        TotalAppend(Filter(rest, start, size, c + 1 - n), e);
      } else {
        assert Filter(rest, start, size, c + 1 - n) + [] == Filter(rest, start, size, c + 1 - n);
      }
    }
  }

  /** The total of the window that a read at `now` must no longer count. */
  function Leaving(hist: Log<int>, start: int, size: int, n: nat, now: int): (t: int)
    requires size > 0
  {
    Total(Filter(hist, start, size, Window(start, size, now) - n))
  }

  /** Without the guard the ring is that of the window before. */
  lemma UnguardedIsBehind<V>(r: Ring<Log<V>>, hist: Log<V>, t: int, now: int)
    requires Tracks(r, hist, t) && t <= now && !Guard(r, now)
    ensures CleanLog(r, now) == r && Window(r.start, r.size, now) == Window(r.start, r.size, t) + 1
  {
    hide Exact, HistOk, Window;
    NextWindow(r.start, r.size, t, now);
    CleanExact(r, hist, t, now);
  }

  /** The newest window that a read at `now` shows: the current one or, without the guard, the one before. */
  function Shown<M>(r: Ring<M>, now: int): (w: int)
    requires RingOk(r)
  {
    Window(r.start, r.size, now) - if Guard(r, now) then 0 else 1
  }

  /** Every read of an exact ring finds the slots exact for the window it shows, `at` being a time in it. */
  lemma ReadShows<V>(r: Ring<Log<V>>, hist: Log<V>, t: int, now: int) returns (at: int)
    requires Tracks(r, hist, t) && t <= now
    ensures Window(r.start, r.size, at) == Shown(r, now) && at <= now
    ensures Exact(CleanLog(r, now), hist, Shown(r, now)) && HistOk(hist, r.start, r.size, Shown(r, now))
  {
    hide Exact, Window, Guard, CleanLog;
    CleanExact(r, hist, t, now);
    if Guard(r, now) {
      at := now;
      WindowMonotone(r.start, r.size, t, now);
    } else {
      at := t;
      UnguardedIsBehind(r, hist, t, now);
    }
  }

  /** What an unguarded read shows differs from what a guarded one does in the current slot's stamp. */
  lemma ShownDiffers<V>(r: Ring<Log<V>>, hist: Log<V>, t: int, q: Ring<Log<V>>, now: int)
    requires Tracks(r, hist, t) && t <= now && Guard(r, now)
    requires RingOk(q) && q.start == r.start && q.size == r.size && |q.slots| == |r.slots| && !Guard(q, now)
    ensures CleanLog(r, now).slots[Current(r, now)].stamp != CleanLog(q, now).slots[Current(r, now)].stamp
  {
    hide Window, WindowOf, Mod, Filter, WindowStart, HistOk;
    var c, d, i := CleanLog(r, now), Window(r.start, r.size, now), Current(r, now);
    CleanExact(r, hist, t, now);
    WindowOfCurrent(d, |r.slots|);
    assert SlotExact(c.slots[i], hist, r.start, r.size, WindowOf(d, |r.slots|, i));
    WindowStartBounds(r.start, r.size, now);
  }

  lemma UnguardedSum(r: Ring<Log<int>>, hist: Log<int>, t: int, now: int)
    requires Tracks(r, hist, t) && t <= now && !Guard(r, now)
    ensures var n, d := |r.slots|, Window(r.start, r.size, now);
            SumSlots(MapRing(CleanLog(r, now), TotalOf).slots)
            == TotalIn(hist, r.start, r.size, d - n, d) + Leaving(hist, r.start, r.size, n, now)
  {
    hide Exact, Window, Guard, SumSlots, TotalIn, Filter, MapRing, CleanLog, WindowValues;
    UnguardedIsBehind(r, hist, t, now);
    ExactReads(r, hist, t);
    ShiftTotal(hist, r.start, r.size, Window(r.start, r.size, t), |r.slots|);
  }

  /**
   A read of an exact ring sums the last n windows if and only if the guard holds before
   the read or the changes of the window that must leave cancel out.
   */
  lemma SumRightIff(r: Ring<Log<int>>, hist: Log<int>, t: int, now: int)
    requires Tracks(r, hist, t) && t <= now
    ensures var n, d := |r.slots|, Window(r.start, r.size, now);
            SumSlots(MapRing(CleanLog(r, now), TotalOf).slots) == TotalIn(hist, r.start, r.size, d - n, d)
            <==> Guard(r, now) || Leaving(hist, r.start, r.size, n, now) == 0
  {
    hide Exact, Window, Guard, SumSlots, TotalIn, Leaving, MapRing, CleanLog, WindowValues, HistOk;
    if Guard(r, now) {
      CleanExact(r, hist, t, now);
      CleanShape(r, now);
      ExactReads(CleanLog(r, now), hist, now);
    } else {
      UnguardedSum(r, hist, t, now);
    }
  }

  lemma CleanShape(r: Ring<Log<int>>, now: int)
    requires RingOk(r)
    ensures var c := CleanLog(r, now); RingOk(c) && |c.slots| == |r.slots| && c.size == r.size && c.start == r.start
  {
  }

  /** The same for get_windows, which otherwise shows the leaving window as the newest. */
  lemma WindowsRightIff(r: Ring<Log<int>>, hist: Log<int>, t: int, now: int)
    requires Tracks(r, hist, t) && t <= now
    ensures var n, d := |r.slots|, Window(r.start, r.size, now);
            WindowValues(MapRing(CleanLog(r, now), TotalOf), now, Same) == WindowTotals(hist, r.start, r.size, d, n)
            <==> Guard(r, now) || Leaving(hist, r.start, r.size, n, now) == 0
  {
    hide Exact, Window, Guard, SumSlots, TotalIn, MapRing, CleanLog, WindowValues, HistOk, Filter;
    if Guard(r, now) {
      CleanExact(r, hist, t, now);
      CleanShape(r, now);
      ExactReads(CleanLog(r, now), hist, now);
    } else {
      UnguardedIsBehind(r, hist, t, now);
      UnguardedWindows(r, hist, t, now);
    }
  }

  /** Slot by slot: the newest window's place holds the leaving one. */
  lemma UnguardedValue(r: Ring<Log<int>>, hist: Log<int>, c: int, d: int, now: int, k: nat)
    requires RingOk(r) && Exact(r, hist, c) && d == c + 1 == Window(r.start, r.size, now) && k < |r.slots|
    ensures var n := |r.slots|;
            && |WindowValues(MapRing(r, TotalOf), now, Same)| == n
            && WindowValues(MapRing(r, TotalOf), now, Same)[k]
            == Total(Filter(hist, r.start, r.size, if k == 0 then d - n else d - k))
  {
    hide Window, WindowOf, Mod, WindowValues, Filter;
    var n, m := |r.slots|, MapRing(r, TotalOf);
    WindowValue(m, now, Same, k);
    BackwardsSlot(d, n, k);
    var j := Mod(d - k, n);
    WindowOfNext(c, n, j);
    WindowOfCurrent(d, n);
    if k > 0 { PlacesDiffer(d, n, k); }
    assert SlotExact(r.slots[j], hist, r.start, r.size, WindowOf(c, n, j));
    assert m.slots[j].val == TotalOf(j, r.slots[j].val);
  }

  /** Two of the last n windows never share a slot. */
  lemma PlacesDiffer(d: int, n: int, k: int)
    requires 0 < k < n
    ensures Mod(d - k, n) != Mod(d, n)
  {
    if Mod(d - k, n) == Mod(d, n) {
      QuotientStep(d - k, d, n);
    }
  }

  lemma UnguardedWindows(r: Ring<Log<int>>, hist: Log<int>, t: int, now: int)
    requires Tracks(r, hist, t) && Window(r.start, r.size, now) == Window(r.start, r.size, t) + 1
    ensures var n, d := |r.slots|, Window(r.start, r.size, now);
            WindowValues(MapRing(r, TotalOf), now, Same) == WindowTotals(hist, r.start, r.size, d, n)
            <==> Leaving(hist, r.start, r.size, n, now) == 0
  {
    hide Window, WindowValues, Filter, Exact, HistOk;
    var n, d, c := |r.slots|, Window(r.start, r.size, now), Window(r.start, r.size, t);
    var a, b := WindowValues(MapRing(r, TotalOf), now, Same), WindowTotals(hist, r.start, r.size, d, n);
    forall k | 0 <= k < n
      ensures |a| == n && a[k] == Total(Filter(hist, r.start, r.size, if k == 0 then d - n else d - k))
    {
      UnguardedValue(r, hist, c, d, now, k);
    }
    UnguardedValue(r, hist, c, d, now, 0);
    FilterRange(hist, r.start, r.size, c, d);
    assert Total(Filter(hist, r.start, r.size, d)) == 0;
    assert a[0] == Leaving(hist, r.start, r.size, n, now) && b[0] == 0;
    if a[0] == 0 {
      assert a == b;
    }
  }

  // ---------------------------------------------------------------- runs

  /** Only writes must meet the guard; an unguarded read does no harm to later ones. */
  ghost predicate WritesGuarded<V>(r: Ring<Log<V>>, t: int, ops: seq<(int, Op<V>)>)
    requires RingOk(r) && RunOk(r, t, ops)
    decreases |ops|
  {
    ops == [] ||
    ((ops[0].1.Put? ==> Guard(r, ops[0].0)) && WritesGuarded(Step(r, ops[0].0, ops[0].1), ops[0].0, ops[1..]))
  }

  /** After such a run the ring is exact for some window up to the last operation's. */
  lemma {:induction false} WritesGuardedTracks<V>(r: Ring<Log<V>>, hist: Log<V>, u: int, t: int, ops: seq<(int, Op<V>)>)
    returns (last: int)
    requires Tracks(r, hist, u) && u <= t && RunOk(r, t, ops) && NoLoad(ops) && WritesGuarded(r, t, ops)
    ensures last <= LastTime(t, ops) && Tracks(Run(r, t, ops), HistOf(hist, ops), last)
    decreases |ops|
  {
    if ops == [] {
      last := u;
    } else {
      hide Tracks, Guard;
      var (now, op) := ops[0];
      if op.Read? && Skips(r, now) {
        SkippedRead(r, now);
        last := WritesGuardedTracks(Step(r, now, op), HistAfter(hist, now, op), u, now, ops[1..]);
      } else {
        OneGuarded(r, hist, u, now, op);
        last := WritesGuardedTracks(Step(r, now, op), HistAfter(hist, now, op), now, now, ops[1..]);
      }
    }
  }

  lemma SkippedRead<V>(r: Ring<Log<V>>, now: int)
    requires RingOk(r) && Skips(r, now) && r.start <= now
    ensures Step(r, now, Read) == r
  {
  }

  lemma OneGuarded<V>(r: Ring<Log<V>>, hist: Log<V>, u: int, now: int, op: Op<V>)
    requires Tracks(r, hist, u) && u <= now && !op.Load? && OpOk(r, now, op)
    requires (op.Put? ==> Guard(r, now)) && (op.Read? ==> !Skips(r, now))
    ensures Tracks(Step(r, now, op), HistAfter(hist, now, op), now)
  {
    hide Exact, HistOk, Step;
    assert op.Read? ==> Guard(r, now);
    StepTracks(r, hist, u, now, op);
  }

  /**
   Whole runs of an integer field whose writes meet the guard: a read at `now` returns the
   adds minus subs since the last reset in the last N windows, and get_windows their totals,
   if and only if this read meets the guard or the leaving window's changes cancel out.
   */
  lemma {:induction false} ReadRightIff(n: nat, size: int, start: int, ops: seq<(int, Op<int>)>, now: int)
    requires n > 0 && size > 0 && start > 0 && NoLoad(ops)
    requires RunOk(NewRing<int>(n, size, start), start, ops) && LastTime(start, ops) <= now
    requires WritesGuarded(NewRing<int>(n, size, start), start, ops)
    ensures var hist, d := HistOf([], ops), Window(start, size, now);
            var before := IntRun(MapRing(NewRing<int>(n, size, start), TotalOf), ops);
            var r := Clean(before, now, Zero);
            var right := Guard(before, now) || Leaving(hist, start, size, n, now) == 0;
            && (SumSlots(r.slots) == TotalIn(hist, start, size, d - n, d) <==> right)
            && (WindowValues(r, now, Same) == WindowTotals(hist, start, size, d, n) <==> right)
  {
    hide Tracks, Guard, Window, Clean, IntRun, SumSlots, WindowValues, WindowTotals, TotalIn, Leaving, MapRing, CleanLog;
    var r0, hist := NewRing<int>(n, size, start), HistOf([], ops);
    NewTracks<int>(n, size, start);
    var last := WritesGuardedTracks(r0, [], start, start, ops);
    RunShape(r0, start, ops);
    var r := Run(r0, start, ops);
    IntRunIsTotal(r0, start, ops);
    ReadIsOk(r, hist, last, now);
    IntStepIsTotal(r, now, Read);
    GuardMapped(r, now);
    SumRightIff(r, hist, last, now);
    WindowsRightIff(r, hist, last, now);
  }

  lemma ReadIsOk(r: Ring<Log<int>>, hist: Log<int>, t: int, now: int)
    requires Tracks(r, hist, t) && t <= now
    ensures RingOk(r) && OpOk(r, now, Read)
  {
  }

  lemma GuardMapped(r: Ring<Log<int>>, now: int)
    requires RingOk(r)
    ensures RingOk(MapRing(r, TotalOf)) && (Guard(MapRing(r, TotalOf), now) <==> Guard(r, now))
  {
    hide Mod, Window, WindowStart;
  }

  // ---------------------------------------------------------------- schedules

  /** Every operation that cleans either scans or lies in the window of the last scan. */
  ghost predicate Scheduled<V>(r: Ring<Log<V>>, t: int, ops: seq<(int, Op<V>)>)
    requires RingOk(r) && RunOk(r, t, ops)
    decreases |ops|
  {
    ops == [] ||
    ((ops[0].1.ResetAll? || !Skips(r, ops[0].0) || Window(r.start, r.size, r.cleaned) == Window(r.start, r.size, ops[0].0))
     && Scheduled(Step(r, ops[0].0, ops[0].1), ops[0].0, ops[1..]))
  }

  /** Such runs meet the guard throughout. */
  lemma {:induction false} ScheduledRunIsGuarded<V>(r: Ring<Log<V>>, hist: Log<V>, t: int, ops: seq<(int, Op<V>)>)
    requires Tracks(r, hist, t) && RunOk(r, t, ops) && NoLoad(ops) && Scheduled(r, t, ops)
    ensures AllGuarded(r, t, ops)
    decreases |ops|
  {
    if ops == [] {
    } else {
      hide Tracks, Guard, Skips, Window, Step;
      var (now, op) := ops[0];
      if !op.ResetAll? {
        ScheduleMeetsGuard(r, hist, t, now);
      }
      StepTracks(r, hist, t, now, op);
      ScheduledRunIsGuarded(Step(r, now, op), HistAfter(hist, now, op), now, ops[1..]);
    }
  }

  // ---------------------------------------------------------------- what has aged

  /** The total of the changes that have left the n windows up to window `d`. */
  function Aged(hist: Log<int>, start: int, size: int, n: nat, d: int): (t: int)
    requires size > 0
  {
    if hist == [] then 0 else
      var last := hist[|hist| - 1];
      Aged(hist[..|hist| - 1], start, size, n, d) + if Window(start, size, last.time) <= d - n then last.val else 0
  }

  lemma {:induction false} SplitTotal(hist: Log<int>, start: int, size: int, n: nat, d: int)
    requires size > 0 && HistOk(hist, start, size, d)
    ensures Total(hist) == TotalIn(hist, start, size, d - n, d) + Aged(hist, start, size, n, d)
  {
    hide Window;
    if hist == [] {
    } else {
      SplitTotal(hist[..|hist| - 1], start, size, n, d);
    }
  }

  /**
   A run on a clock that does not go back, up to `now`, whose writes meet the guard.  Reads
   are free: one that skips changes nothing, and one that scans meets the guard.
   */
  ghost predicate LegalRun<V>(n: nat, size: int, start: int, ops: seq<(int, Op<V>)>, now: int)
    requires n > 0 && size > 0 && start > 0
  {
    var r := NewRing<V>(n, size, start);
    RunOk(r, start, ops) && NoLoad(ops) && LastTime(start, ops) <= now && WritesGuarded(r, start, ops)
  }

  lemma LegalTracks<V>(n: nat, size: int, start: int, ops: seq<(int, Op<V>)>, now: int) returns (last: int)
    requires n > 0 && size > 0 && start > 0 && LegalRun(n, size, start, ops, now)
    ensures var r := Run(NewRing<V>(n, size, start), start, ops);
            last <= now && Tracks(r, HistOf([], ops), last) && |r.slots| == n && r.size == size && r.start == start
  {
    hide Exact, Window, Guard, HistOk;
    var r := NewRing<V>(n, size, start);
    NewTracks<V>(n, size, start);
    last := WritesGuardedTracks(r, [], start, start, ops);
    RunShape(r, start, ops);
  }

  /** Nothing has aged while every change lies in those windows. */
  lemma {:induction false} NothingAged(hist: Log<int>, start: int, size: int, n: nat, d: int)
    requires size > 0 && forall i | 0 <= i < |hist| :: Window(start, size, hist[i].time) > d - n
    ensures Aged(hist, start, size, n, d) == 0
  {
    hide Window;
    if hist != [] {
      NothingAged(hist[..|hist| - 1], start, size, n, d);
    }
  }

  /** One write to a new ring, and a read a window or more later, which scans. */
  lemma OneWriteLegal<V>(n: nat, size: int, start: int, t: int, v: V, now: int)
    requires n > 0 && size > 0 && start > 0 && start <= t && size <= t && t + size <= now
    ensures LegalRun(n, size, start, [(t, Put(v))], now) && HistOf([], [(t, Put(v))]) == [Event(t, v)]
    ensures Shown(Run(NewRing<V>(n, size, start), start, [(t, Put(v))]), now) == Window(start, size, now)
  {
    hide Window, WindowStart, Mod;
    var r, ops: seq<(int, Op<V>)> := NewRing<V>(n, size, start), [(t, Put(v))];
    assert ops[1..] == [];
    var s := Step(r, t, Put(v));
    assert s.cleaned == t && !Skips(s, now);
    assert RunOk(s, t, ops[1..]) && RunOk(r, start, ops);
    assert Run(r, start, ops) == s;
    assert Guard(r, t) && WritesGuarded(s, t, ops[1..]);
    assert WritesGuarded(r, start, ops) && Guard(s, now);
    assert NoLoad(ops) && LastTime(start, ops) <= now;
    assert HistOf([Event(t, v)], []) == [Event(t, v)];
  }

  // ---------------------------------------------------------------- two writes, at 109 and 110

  lemma PutStamps<V>(r: Ring<Log<V>>, now: int, v: V)
    requires RingOk(r)
    ensures var c, p, i := CleanLog(r, now), PutLog(r, now, v), Current(r, now);
            && p.cleaned == c.cleaned
            && p.slots[i].stamp == (if c.slots[i].stamp == 0 then WindowStart(r.start, r.size, now) else c.slots[i].stamp)
            && forall j | 0 <= j < |p.slots| && j != i :: p.slots[j] == c.slots[j]
  {
    hide Mod, Window, WindowStart;
  }

  /** The first write to a new ring. */
  lemma FirstWrite<V>(n: nat, size: int, start: int, t: int, v: V)
    requires n > 0 && size > 0 && start > 0 && size <= t
    ensures var r := NewRing<V>(n, size, start);
            var p := PutLog(r, t, v);
            && Guard(r, t) && p.cleaned == t && p.slots[Current(r, t)].stamp == WindowStart(start, size, t)
            && forall j | 0 <= j < n && j != Current(r, t) :: p.slots[j].stamp == 0
  {
    hide Mod, Window, WindowStart, PutLog;
    PutStamps(NewRing<V>(n, size, start), t, v);
  }

  /** Two writes at least a window apart both scan. */
  lemma TwoFarWrites<V>(n: nat, size: int, start: int, t: int, a: V, u: int, b: V, now: int)
    requires n > 0 && size > 0 && start > 0 && start <= t && size <= t && t + size <= u <= now
    ensures LegalRun(n, size, start, [(t, Put(a)), (u, Put(b))], now)
  {
    hide RunOk, Run, WritesGuarded, PutLog, Window, WindowStart, Mod;
    var r, x, y: (int, Op<V>) := NewRing<V>(n, size, start), (t, Put(a)), (u, Put(b));
    FirstWrite(n, size, start, t, a);
    TwoOps(r, start, x, y);
    TwoGuarded(r, start, x, y);
  }

  lemma WindowIs(start: int, size: int, now: int, q: int, m: int)
    requires 0 <= m < size && now - start == size * q + m
    ensures Window(start, size, now) == q && WindowStart(start, size, now) == now - m
  {
    ModUnique(now - start, size, q, m);
  }

  lemma ModIs(a: int, n: int, q: int, m: int)
    requires 0 <= m < n && a == n * q + m
    ensures Mod(a, n) == m
  {
    ModUnique(a, n, q, m);
  }

  lemma PlaceIs(c: int, n: int, j: int, w: int, q: int)
    requires 0 <= j < n && c - n < w <= c && w == n * q + j
    ensures WindowOf(c, n, j) == w
  {
    ModIs(w, n, q, j);
    WindowOfUnique(c, n, j, w);
  }

  /** Two writes, at 109 and 110, and a read at 115 with two windows of ten seconds all meet the guard. */
  lemma TwoWrites<V>(start: int, u: V, v: V)
    requires start == 100 || start == 109
    ensures var r0 := NewRing<V>(2, 10, start);
            var r1 := PutLog(r0, 109, u);
            var r2 := PutLog(r1, 110, v);
            && Guard(r0, 109) && Guard(r1, 110) && Guard(r2, 115)
  {
    hide PutLog, Mod, Window, WindowStart;
    var r0 := NewRing<V>(2, 10, start);
    var r1 := PutLog(r0, 109, u);
    if start == 100 {
      WindowIs(start, 10, 109, 0, 9);
      WindowIs(start, 10, 110, 1, 0);
      WindowIs(start, 10, 115, 1, 5);
    } else {
      WindowIs(start, 10, 109, 0, 0);
      WindowIs(start, 10, 110, 0, 1);
      WindowIs(start, 10, 115, 0, 6);
    }
    ModIs(0, 2, 0, 0);
    ModIs(1, 2, 0, 1);
    FirstWrite(2, 10, start, 109, u);
    PutStamps(r1, 110, v);
    SkippedRead(r1, 110);
  }

  lemma TwoWritesLegal<V>(start: int, u: V, v: V, ops: seq<(int, Op<V>)>)
    requires (start == 100 || start == 109) && ops == [(109, Put(u)), (110, Put(v))]
    ensures LegalRun(2, 10, start, ops, 115) && HistOf([], ops) == [Event(109, u), Event(110, v)]
    ensures Shown(Run(NewRing<V>(2, 10, start), start, ops), 115) == if start == 100 then 1 else 0
  {
    hide PutLog, Guard, RunOk, Run, WritesGuarded, HistOf;
    var r0 := NewRing<V>(2, 10, start);
    TwoWrites(start, u, v);
    TwoOps(r0, start, ops[0], ops[1]);
    TwoGuarded(r0, start, ops[0], ops[1]);
    RunShape(r0, start, ops);
  }

  lemma TwoGuarded<V>(r: Ring<Log<V>>, t: int, a: (int, Op<V>), b: (int, Op<V>))
    requires RingOk(r) && RunOk(r, t, [a, b]) && a.1.Put? && b.1.Put?
    ensures Guard(r, a.0) && Guard(Step(r, a.0, a.1), b.0) ==> WritesGuarded(r, t, [a, b])
    ensures HistOf([], [a, b]) == [Event(a.0, a.1.val), Event(b.0, b.1.val)]
  {
    hide Guard, Step;
    assert [a, b][1..] == [b] && [b][1..] == [];
    var s := Step(r, a.0, a.1);
    assert RunOk(s, a.0, [b]) && RunOk(Step(s, b.0, b.1), b.0, []);
    assert WritesGuarded(Step(s, b.0, b.1), b.0, []);
    assert Guard(s, b.0) ==> WritesGuarded(s, a.0, [b]);
    var none: Log<V> := [];
    assert none + [Event(a.0, a.1.val)] == [Event(a.0, a.1.val)];
    assert HistOf([Event(a.0, a.1.val), Event(b.0, b.1.val)], []) == [Event(a.0, a.1.val), Event(b.0, b.1.val)];
    assert HistOf([Event(a.0, a.1.val)], [b]) == [Event(a.0, a.1.val), Event(b.0, b.1.val)];
  }
}
