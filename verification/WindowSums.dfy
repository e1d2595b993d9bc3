/**
 When a field's windows are exact.

 The ring is exact at window `c` when slot j holds precisely the writes, since the
 last reset, of the one window in (c-N, c] that is congruent to j modulo N.  The
 skip in clean_windows can break this: an operation soon after a window boundary
 may find a slot that still carries the previous lap.  `Guard` is the condition,
 visible before the call, under which it does not.
 */
module WindowSums {
  import opened Rings

  // ---------------------------------------------------------------- windows

  /** The window in (c-n, c] that uses slot j. */
  function WindowOf(c: int, n: int, j: int): (w: int)
    requires n > 0
    ensures c - n < w <= c
  {
    c - Mod(c - j, n)
  }

  lemma ModUnique(a: int, n: int, q: int, m: int)
    requires n > 0 && a == n * q + m && 0 <= m < n
    ensures a % n == m && a / n == q
  {
    var d := a / n - q;
    assert a == n * (a / n) + a % n;
    assert n * d == m - a % n;
    assert d >= 1 ==> n * d >= n;
    assert d <= -1 ==> n * d <= -n;
  }

  /** It is the only one. */
  lemma WindowOfUnique(c: int, n: int, j: int, w: int)
    requires 0 <= j < n && c - n < w <= c && Mod(w, n) == j
    ensures WindowOf(c, n, j) == w
  {
    var q := w / n;
    assert w == n * q + j;
    ModUnique(c - j, n, q, c - w);
  }

  lemma WindowOfMod(c: int, n: int, j: int)
    requires 0 <= j < n
    ensures Mod(WindowOf(c, n, j), n) == j
  {
    var q := (c - j) / n;
    assert c - j == n * q + (c - j) % n;
    ModUnique(WindowOf(c, n, j), n, q, j);
  }

  lemma QuotientStep(v: int, w: int, n: int)
    requires n > 0 && Mod(v, n) == Mod(w, n) && v < w
    ensures w >= v + n
  {
    var p, q := v / n, w / n;
    assert v == n * p + Mod(v, n) && w == n * q + Mod(w, n);
    if q <= p {
      if q < p { MulStep(n, q, p); }
    } else {
      MulStep(n, p, q);
    }
  }

  /** Moving on to a later window either keeps a slot's window or moves it past everything seen so far. */
  lemma WindowOfAdvance(c: int, d: int, n: int, j: int)
    requires 0 <= j < n && c <= d
    ensures WindowOf(d, n, j) == WindowOf(c, n, j) || (WindowOf(d, n, j) > c && WindowOf(d, n, j) >= WindowOf(c, n, j) + n)
  {
    var v, w := WindowOf(c, n, j), WindowOf(d, n, j);
    WindowOfMod(c, n, j);
    WindowOfMod(d, n, j);
    if w <= c {
      if w > c - n { WindowOfUnique(c, n, j, w); }
    } else {
      hide WindowOf;
      QuotientStep(v, w, n);
    }
  }

  /** One step on, only the slot of the new window changes hands. */
  lemma WindowOfNext(c: int, n: int, j: int)
    requires 0 <= j < n
    ensures if Mod(c + 1, n) == j then WindowOf(c + 1, n, j) == c + 1 && WindowOf(c, n, j) == c + 1 - n
            else WindowOf(c + 1, n, j) == WindowOf(c, n, j)
  {
    if Mod(c + 1, n) == j {
      WindowOfUnique(c + 1, n, j, c + 1);
      var q := (c + 1) / n;
      assert c + 1 == n * q + j;
      assert c + 1 - n == n * (q - 1) + j;
      ModUnique(c + 1 - n, n, q - 1, j);
      WindowOfUnique(c, n, j, c + 1 - n);
    } else {
      WindowOfMod(c + 1, n, j);
      WindowOfUnique(c, n, j, WindowOf(c + 1, n, j));
    }
  }

  // ---------------------------------------------------------------- exactness

  /** The writes of one window, in order. */
  function Filter<V>(hist: Log<V>, start: int, size: int, w: int): (l: Log<V>)
    requires size > 0
  {
    if hist == [] then []
    else
      var last := hist[|hist| - 1];
      Filter(hist[..|hist| - 1], start, size, w) + if Window(start, size, last.time) == w then [last] else []
  }

  /** Every write happened at or after the start and not after window `c`. */
  ghost predicate HistOk<V>(hist: Log<V>, start: int, size: int, c: int)
    requires size > 0
  {
    forall i | 0 <= i < |hist| :: start <= hist[i].time && Window(start, size, hist[i].time) <= c
  }

  lemma {:induction false} FilterRange<V>(hist: Log<V>, start: int, size: int, c: int, w: int)
    requires size > 0 && HistOk(hist, start, size, c)
    ensures w > c ==> Filter(hist, start, size, w) == []
    ensures w < 0 ==> Filter(hist, start, size, w) == []
  {
    if hist != [] {
      FilterRange(hist[..|hist| - 1], start, size, c, w);
    }
  }

  ghost predicate SlotExact<V>(s: Slot<Log<V>>, hist: Log<V>, start: int, size: int, w: int)
    requires size > 0
  {
    && s.val == Filter(hist, start, size, w)
    && s.stamp == if s.val == [] then 0 else start + size * w
  }

  ghost predicate Exact<V>(r: Ring<Log<V>>, hist: Log<V>, c: int)
    requires RingOk(r)
  {
    forall j | 0 <= j < |r.slots| :: SlotExact(r.slots[j], hist, r.start, r.size, WindowOf(c, |r.slots|, j))
  }

  /** The last scan is due, or the slot about to be used is empty or already belongs to this window. */
  predicate Guard<M>(r: Ring<M>, now: int)
    requires RingOk(r)
  {
    || !Skips(r, now)
    || r.slots[Current(r, now)].stamp == 0
    || r.slots[Current(r, now)].stamp == WindowStart(r.start, r.size, now)
  }

  lemma StampIsPositive<V>(s: Slot<Log<V>>, hist: Log<V>, start: int, size: int, c: int, w: int)
    requires size > 0 && start > 0 && HistOk(hist, start, size, c) && SlotExact(s, hist, start, size, w)
    ensures s.stamp != 0 <==> s.val != []
    ensures s.val != [] ==> s.stamp > 0 && 0 <= w <= c
  {
    FilterRange(hist, start, size, c, w);
    assert w >= 0 ==> size * w >= 0;
  }

  /** A slot is expired by its stamp exactly when its window has left the last n windows. */
  lemma ExpiryIsAligned(start: int, size: int, now: int, n: int, w: int)
    requires size > 0 && n > 0
    ensures now - (start + size * w) >= size * n <==> Window(start, size, now) >= w + n
  {
    var c := Window(start, size, now);
    assert now - start == size * c + (now - start) % size;
    var d := c - w - n;
    assert now - (start + size * w) - size * n == size * d + (now - start) % size;
    assert d >= 0 ==> size * d >= 0;
    assert d <= -1 ==> size * d <= -size;
  }

  lemma SweptExact<V>(s: Slot<Log<V>>, hist: Log<V>, start: int, size: int, c: int, now: int, n: int, j: int)
    requires size > 0 && start > 0 && 0 <= j < n && HistOk(hist, start, size, c) && c <= Window(start, size, now)
    requires SlotExact(s, hist, start, size, WindowOf(c, n, j))
    ensures SlotExact(Swept(s, now, size * n, (l: Log<V>) => []), hist, start, size, WindowOf(Window(start, size, now), n, j))
  {
    var d := Window(start, size, now);
    var v, w := WindowOf(c, n, j), WindowOf(d, n, j);
    StampIsPositive(s, hist, start, size, c, v);
    WindowOfAdvance(c, d, n, j);
    ExpiryIsAligned(start, size, now, n, v);
    FilterRange(hist, start, size, c, w);
  }

  /** A scan makes the ring exact for the window of `now`. */
  lemma ScanExact<V>(r: Ring<Log<V>>, hist: Log<V>, c: int, now: int)
    requires RingOk(r) && Exact(r, hist, c) && HistOk(hist, r.start, r.size, c)
    requires c <= Window(r.start, r.size, now) && !Skips(r, now)
    ensures Exact(CleanLog(r, now), hist, Window(r.start, r.size, now))
  {
    forall j | 0 <= j < |r.slots|
      ensures SlotExact(CleanLog(r, now).slots[j], hist, r.start, r.size, WindowOf(Window(r.start, r.size, now), |r.slots|, j))
    {
      SweptExact(r.slots[j], hist, r.start, r.size, c, now, |r.slots|, j);
    }
  }

  lemma WindowBounds(start: int, size: int, t: int)
    requires size > 0
    ensures start + size * Window(start, size, t) <= t < start + size * Window(start, size, t) + size
  {
  }

  lemma {:induction false} MulStep(size: int, a: int, b: int)
    requires size > 0 && a < b
    ensures size * a + size <= size * b
    decreases b - a
  {
    assert size * b == size * (b - 1) + size;
    if a < b - 1 {
      MulStep(size, a, b - 1);
    }
  }

  /** Within one window size, at most one boundary is crossed. */
  lemma NextWindow(start: int, size: int, t: int, now: int)
    requires size > 0 && t <= now < t + size
    ensures Window(start, size, t) <= Window(start, size, now) <= Window(start, size, t) + 1
  {
    var c, d := Window(start, size, t), Window(start, size, now);
    WindowBounds(start, size, t);
    WindowBounds(start, size, now);
    if d < c { MulStep(size, d, c); }
    if c + 1 < d { MulStep(size, c + 1, d); MulStep(size, c, c + 1); }
  }

  /** A skipped scan leaves the ring exact precisely when the new window's slot is free. */
  lemma SkipExact<V>(r: Ring<Log<V>>, hist: Log<V>, c: int, now: int)
    requires RingOk(r) && Exact(r, hist, c) && HistOk(hist, r.start, r.size, c) && r.start <= now
    requires Window(r.start, r.size, now) == c || Window(r.start, r.size, now) == c + 1
    ensures Exact(r, hist, Window(r.start, r.size, now))
            <==> r.slots[Current(r, now)].stamp == 0 || r.slots[Current(r, now)].stamp == WindowStart(r.start, r.size, now)
  {
    hide Window, WindowOf, Mod, Filter, WindowStart;
    var d, n, i := Window(r.start, r.size, now), |r.slots|, Current(r, now);
    WindowStartBounds(r.start, r.size, now);
    WindowOfCurrent(d, n);
    assert SlotExact(r.slots[i], hist, r.start, r.size, WindowOf(c, n, i));
    StampIsPositive(r.slots[i], hist, r.start, r.size, c, WindowOf(c, n, i));
    if d == c + 1 {
      FilterRange(hist, r.start, r.size, c, d);
      forall j | 0 <= j < n
        ensures j != i ==> WindowOf(d, n, j) == WindowOf(c, n, j)
        ensures j == i ==> WindowOf(d, n, j) == d && WindowOf(c, n, j) == d - n
      {
        WindowOfNext(c, n, j);
      }
      StampDiffers(r.size, d, n);
      assert SlotExact(r.slots[i], hist, r.start, r.size, WindowOf(d, n, i)) <==> r.slots[i].stamp == 0;
    }
  }

  lemma WindowOfCurrent(d: int, n: int)
    requires n > 0
    ensures WindowOf(d, n, Mod(d, n)) == d
  {
    WindowOfUnique(d, n, Mod(d, n), d);
  }

  lemma StampDiffers(size: int, d: int, n: int)
    requires size > 0 && n > 0
    ensures size * (d - n) < size * d
  {
    MulStep(size, d - n, d);
  }

  /**
   From an exact ring, cleaning at `now` gives an exact ring if and only if the guard holds
   before the call; `t` is the time of the previous operation.
   */
  lemma CleanExact<V>(r: Ring<Log<V>>, hist: Log<V>, t: int, now: int)
    requires RingOk(r) && r.cleaned <= t <= now && r.start <= t
    requires Exact(r, hist, Window(r.start, r.size, t)) && HistOk(hist, r.start, r.size, Window(r.start, r.size, t))
    ensures Exact(CleanLog(r, now), hist, Window(r.start, r.size, now)) <==> Guard(r, now)
  {
    var c := Window(r.start, r.size, t);
    if Skips(r, now) {
      NextWindow(r.start, r.size, t, now);
      SkipExact(r, hist, c, now);
    } else {
      WindowMonotone(r.start, r.size, t, now);
      ScanExact(r, hist, c, now);
    }
  }

  lemma WindowMonotone(start: int, size: int, t: int, now: int)
    requires size > 0 && t <= now
    ensures Window(start, size, t) <= Window(start, size, now)
  {
    WindowBounds(start, size, t);
    WindowBounds(start, size, now);
    if Window(start, size, now) < Window(start, size, t) { MulStep(size, Window(start, size, now), Window(start, size, t)); }
  }

  lemma FilterAppend<V>(hist: Log<V>, start: int, size: int, e: Event<V>, w: int)
    requires size > 0
    ensures Filter(hist + [e], start, size, w)
         == Filter(hist, start, size, w) + if Window(start, size, e.time) == w then [e] else []
  {
    assert (hist + [e])[..|hist|] == hist;
  }

  /** A guarded write keeps the ring exact, with the write in the history. */
  lemma PutExact<V>(r: Ring<Log<V>>, hist: Log<V>, t: int, now: int, v: V)
    requires RingOk(r) && r.cleaned <= t <= now && r.start <= t && Guard(r, now)
    requires Exact(r, hist, Window(r.start, r.size, t)) && HistOk(hist, r.start, r.size, Window(r.start, r.size, t))
    ensures Exact(PutLog(r, now, v), hist + [Event(now, v)], Window(r.start, r.size, now))
    ensures HistOk(hist + [Event(now, v)], r.start, r.size, Window(r.start, r.size, now))
  {
    CleanExact(r, hist, t, now);
    WindowMonotone(r.start, r.size, t, now);
    WindowStartBounds(r.start, r.size, now);
    var c, d, e := CleanLog(r, now), Window(r.start, r.size, now), Event(now, v);
    var n, i := |c.slots|, Current(c, now);
    WindowOfUnique(d, n, i, d);
    StampIsPositive(c.slots[i], hist, r.start, r.size, d, d);
    forall j | 0 <= j < n
      ensures SlotExact(PutLog(r, now, v).slots[j], hist + [e], r.start, r.size, WindowOf(d, n, j))
    {
      FilterAppend(hist, r.start, r.size, e, WindowOf(d, n, j));
      WindowOfMod(d, n, j);
    }
  }

  // ---------------------------------------------------------------- runs

  /** The writes since the last reset. */
  function HistAfter<V>(hist: Log<V>, now: int, op: Op<V>): (h: Log<V>)
  {
    match op
    case Put(v) => hist + [Event(now, v)]
    case Read => hist
    case ResetAll => []
    case Load(_, _) => hist
  }

  /** Each operation that cleans meets the guard on the ring it finds. */
  ghost predicate AllGuarded<V>(r: Ring<Log<V>>, t: int, ops: seq<(int, Op<V>)>)
    requires RingOk(r) && RunOk(r, t, ops)
    decreases |ops|
  {
    ops == [] ||
    ((ops[0].1.ResetAll? || Guard(r, ops[0].0)) && AllGuarded(Step(r, ops[0].0, ops[0].1), ops[0].0, ops[1..]))
  }

  /** Each operation that cleans works on an exact ring. */
  ghost predicate AllExact<V>(r: Ring<Log<V>>, hist: Log<V>, t: int, ops: seq<(int, Op<V>)>)
    requires RingOk(r) && RunOk(r, t, ops)
    decreases |ops|
  {
    ops == [] ||
    ((ops[0].1.ResetAll? || Exact(CleanLog(r, ops[0].0), hist, Window(r.start, r.size, ops[0].0))) &&
     AllExact(Step(r, ops[0].0, ops[0].1), HistAfter(hist, ops[0].0, ops[0].1), ops[0].0, ops[1..]))
  }

  predicate NoLoad<V>(ops: seq<(int, Op<V>)>)
  {
    forall i | 0 <= i < |ops| :: !ops[i].1.Load?
  }

  /** The ring is exact and was last touched at `t`. */
  ghost predicate Tracks<V>(r: Ring<Log<V>>, hist: Log<V>, t: int)
  {
    && RingOk(r) && r.cleaned <= t && r.start <= t
    && HistOk(hist, r.start, r.size, Window(r.start, r.size, t)) && Exact(r, hist, Window(r.start, r.size, t))
  }

  lemma StepTracks<V>(r: Ring<Log<V>>, hist: Log<V>, t: int, now: int, op: Op<V>)
    requires Tracks(r, hist, t) && t <= now && !op.Load? && OpOk(r, now, op)
    requires op.ResetAll? || Guard(r, now)
    ensures Tracks(Step(r, now, op), HistAfter(hist, now, op), now)
  {
    match op
    case Put(v) => PutExact(r, hist, t, now, v);
    case Read =>
      CleanExact(r, hist, t, now);
      WindowMonotone(r.start, r.size, t, now);
    case ResetAll =>
  }

  /** Over whole runs: every operation works on an exact ring if and only if every operation meets the guard. */
  lemma {:induction false} RunExact<V>(r: Ring<Log<V>>, hist: Log<V>, t: int, ops: seq<(int, Op<V>)>)
    requires Tracks(r, hist, t) && RunOk(r, t, ops) && NoLoad(ops)
    ensures AllGuarded(r, t, ops) <==> AllExact(r, hist, t, ops)
    decreases |ops|
  {
    if ops != [] {
      var (now, op) := ops[0];
      if !op.ResetAll? {
        CleanExact(r, hist, t, now);
      }
      if op.ResetAll? || Guard(r, now) {
        StepTracks(r, hist, t, now, op);
        RunExact(Step(r, now, op), HistAfter(hist, now, op), now, ops[1..]);
      }
    }
  }

  function HistOf<V>(hist: Log<V>, ops: seq<(int, Op<V>)>): (h: Log<V>)
    decreases |ops|
  {
    if ops == [] then hist else HistOf(HistAfter(hist, ops[0].0, ops[0].1), ops[1..])
  }

  /** Scanning, or staying in the window of the last scan, is enough to meet the guard. */
  lemma ScheduleMeetsGuard<V>(r: Ring<Log<V>>, hist: Log<V>, t: int, now: int)
    requires Tracks(r, hist, t) && t <= now
    requires !Skips(r, now) || Window(r.start, r.size, r.cleaned) == Window(r.start, r.size, now)
    ensures Guard(r, now)
  {
    if Skips(r, now) {
      WindowMonotone(r.start, r.size, r.cleaned, t);
      WindowMonotone(r.start, r.size, t, now);
      SkipExact(r, hist, Window(r.start, r.size, t), now);
    }
  }

  // ---------------------------------------------------------------- integer fields

  /** What an integer member holds after a log of signed additions. */
  function Total(l: Log<int>): (n: int)
  {
    if l == [] then 0 else Total(l[..|l| - 1]) + l[|l| - 1].val
  }

  lemma TotalAppend(l: Log<int>, e: Event<int>)
    ensures Total(l + [e]) == Total(l) + e.val
  {
    assert (l + [e])[..|l|] == l;
  }

  /** Adds minus subs in the windows (lo, hi]. */
  function TotalIn(hist: Log<int>, start: int, size: int, lo: int, hi: int): (n: int)
    requires size > 0
  {
    if hist == [] then 0
    else
      var last := hist[|hist| - 1];
      TotalIn(hist[..|hist| - 1], start, size, lo, hi) + if lo < Window(start, size, last.time) <= hi then last.val else 0
  }

  /** The totals of the windows held by the first k slots. */
  function SlotTotals(hist: Log<int>, start: int, size: int, c: int, n: int, k: nat): (t: int)
    requires size > 0 && n > 0
  {
    if k == 0 then 0
    else SlotTotals(hist, start, size, c, n, k - 1) + Total(Filter(hist, start, size, WindowOf(c, n, k - 1)))
  }

  /** One more write adds to the slot of its window, if that window is among the last n, and to no other. */
  lemma OneSlot(hist: Log<int>, start: int, size: int, c: int, n: int, e: Event<int>, j: nat)
    requires size > 0 && j < n
    ensures var w, v := Window(start, size, e.time), WindowOf(c, n, j);
            Total(Filter(hist + [e], start, size, v))
            == Total(Filter(hist, start, size, v)) + if c - n < w <= c && Mod(w, n) == j then e.val else 0
  {
    var w, v := Window(start, size, e.time), WindowOf(c, n, j);
    FilterAppend(hist, start, size, e, v);
    WindowOfMod(c, n, j);
    if c - n < w <= c && Mod(w, n) == j {
      WindowOfUnique(c, n, j, w);
    }
    if v == w {
      TotalAppend(Filter(hist, start, size, w), e);
    } else {
      assert Filter(hist, start, size, v) + [] == Filter(hist, start, size, v);
    }
  }

  lemma {:induction false} SlotTotalsAppend(hist: Log<int>, start: int, size: int, c: int, n: int, e: Event<int>, k: nat)
    requires size > 0 && k <= n && n > 0
    ensures var w := Window(start, size, e.time);
            SlotTotals(hist + [e], start, size, c, n, k)
            == SlotTotals(hist, start, size, c, n, k) + if c - n < w <= c && Mod(w, n) < k then e.val else 0
  {
    hide WindowOf, Filter, Window, Mod;
    if k > 0 {
      SlotTotalsAppend(hist, start, size, c, n, e, k - 1);
      OneSlot(hist, start, size, c, n, e, k - 1);
    }
  }

  lemma {:induction false} SlotTotalsAll(hist: Log<int>, start: int, size: int, c: int, n: int)
    requires size > 0 && n > 0
    ensures SlotTotals(hist, start, size, c, n, n) == TotalIn(hist, start, size, c - n, c)
  {
    hide Window, WindowOf, Mod, Filter, SlotTotals;
    if hist == [] {
      SlotTotalsEmpty(start, size, c, n, n);
    } else {
      var rest, e := hist[..|hist| - 1], hist[|hist| - 1];
      SlotTotalsAll(rest, start, size, c, n);
      assert rest + [e] == hist;
      SlotTotalsAppend(rest, start, size, c, n, e, n);
    }
  }

  lemma {:induction false} SlotTotalsEmpty(start: int, size: int, c: int, n: int, k: nat)
    requires size > 0 && n > 0
    ensures SlotTotals([], start, size, c, n, k) == 0
  {
    if k > 0 {
      SlotTotalsEmpty(start, size, c, n, k - 1);
    }
  }

  /** TWStatsMemberInt::sum */
  function SumSlots(slots: seq<Slot<int>>): (n: int)
  {
    if slots == [] then 0 else SumSlots(slots[..|slots| - 1]) + slots[|slots| - 1].val
  }

  function TotalOf(i: nat, l: Log<int>): (n: int)
  {
    Total(l)
  }

  lemma {:induction false} SumIsSlotTotals(r: Ring<Log<int>>, hist: Log<int>, c: int, k: nat)
    requires RingOk(r) && Exact(r, hist, c) && k <= |r.slots|
    ensures SumSlots(MapRing(r, TotalOf).slots[..k]) == SlotTotals(hist, r.start, r.size, c, |r.slots|, k)
  {
    hide Window, WindowOf, Mod, Filter, Total;
    if k > 0 {
      SumIsSlotTotals(r, hist, c, k - 1);
      var m := MapRing(r, TotalOf).slots;
      assert m[..k][..k - 1] == m[..k - 1];
      assert m[k - 1].val == TotalOf(k - 1, r.slots[k - 1].val);
      assert SlotExact(r.slots[k - 1], hist, r.start, r.size, WindowOf(c, |r.slots|, k - 1));
    }
  }

  /** get_windows: the current slot first, then backwards around the ring. */
  function WindowValues<M>(r: Ring<M>, now: int, get: M -> int): (l: seq<int>)
    requires RingOk(r)
  {
    seq(|r.slots|, k requires 0 <= k < |r.slots| => get(r.slots[Mod(Current(r, now) + |r.slots| - k, |r.slots|)].val))
  }

  lemma WindowValue<M>(r: Ring<M>, now: int, get: M -> int, k: nat)
    requires RingOk(r) && k < |r.slots|
    ensures var n, d := |r.slots|, Window(r.start, r.size, now);
            |WindowValues(r, now, get)| == n && WindowValues(r, now, get)[k] == get(r.slots[Mod(d - k, n)].val)
  {
    hide Window, WindowOf;
    var n, d := |r.slots|, Window(r.start, r.size, now);
    BackwardsSlot(d, n, k);
    assert Mod(Current(r, now) + n - k, n) == Mod(d - k, n);
  }

  lemma BackwardsSlot(d: int, n: int, k: int)
    requires n > 0 && 0 <= k < n
    ensures Mod(Mod(d, n) + n - k, n) == Mod(d - k, n) && WindowOf(d, n, Mod(d - k, n)) == d - k
  {
    var q, m := (d - k) / n, (d - k) % n;
    assert d - k == n * q + m;
    var p := d / n;
    assert d == n * p + d % n;
    assert d % n + n - k == n * (q - p + 1) + m;
    ModUnique(d % n + n - k, n, q - p + 1, m);
    WindowOfUnique(d, n, m, d - k);
  }

  /** The totals of the last n windows, newest first. */
  function WindowTotals(hist: Log<int>, start: int, size: int, d: int, n: nat): (l: seq<int>)
    requires size > 0
  {
    seq(n, k => Total(Filter(hist, start, size, d - k)))
  }

  function Zero(i: int): (z: int)
  {
    0
  }

  function Same(i: int): (z: int)
  {
    i
  }

  /** The integer ring runs in step with the log ring. */
  function IntStep(r: Ring<int>, now: int, op: Op<int>): (c: Ring<int>)
    requires RingOk(r)
    ensures RingOk(c)
  {
    match op
    case Put(v) => Write(r, now, (i: int) => i + v, Zero)
    case Read => Clean(r, now, Zero)
    case ResetAll => Reset(r, Zero)
    case Load(_, _) => r
  }

  function IntRun(r: Ring<int>, ops: seq<(int, Op<int>)>): (c: Ring<int>)
    requires RingOk(r)
    ensures RingOk(c)
    decreases |ops|
  {
    if ops == [] then r else IntRun(IntStep(r, ops[0].0, ops[0].1), ops[1..])
  }

  lemma IntStepIsTotal(r: Ring<Log<int>>, now: int, op: Op<int>)
    requires RingOk(r) && !op.Load? && OpOk(r, now, op)
    ensures MapRing(Step(r, now, op), TotalOf) == IntStep(MapRing(r, TotalOf), now, op)
    ensures MapRing(CleanLog(r, now), TotalOf) == Clean(MapRing(r, TotalOf), now, Zero)
  {
    var ea := (l: Log<int>) => [];
    CleanNatural(r, now, TotalOf, ea, Zero);
    if op.Put? {
      var fa, fb := (l: Log<int>) => l + [Event(now, op.val)], (i: int) => i + op.val;
      forall i: nat, l
        ensures TotalOf(i, fa(l)) == fb(TotalOf(i, l))
      {
        TotalAppend(l, Event(now, op.val));
      }
      WriteNatural(r, now, TotalOf, fa, fb, ea, Zero);
    }
  }

  lemma {:induction false} IntRunIsTotal(r: Ring<Log<int>>, t: int, ops: seq<(int, Op<int>)>)
    requires RingOk(r) && RunOk(r, t, ops) && NoLoad(ops)
    ensures MapRing(Run(r, t, ops), TotalOf) == IntRun(MapRing(r, TotalOf), ops)
    decreases |ops|
  {
    if ops != [] {
      IntStepIsTotal(r, ops[0].0, ops[0].1);
      IntRunIsTotal(Step(r, ops[0].0, ops[0].1), ops[0].0, ops[1..]);
    }
  }

  /** On an exact ring the members' sum and the window list are the totals of the last n windows. */
  lemma ExactReads(c: Ring<Log<int>>, hist: Log<int>, now: int)
    requires RingOk(c) && Exact(c, hist, Window(c.start, c.size, now))
    ensures var d, n, m := Window(c.start, c.size, now), |c.slots|, MapRing(c, TotalOf);
            && SumSlots(m.slots) == TotalIn(hist, c.start, c.size, d - n, d)
            && WindowValues(m, now, Same) == WindowTotals(hist, c.start, c.size, d, n)
  {
    hide Mod, Window, WindowOf, WindowValues, Filter, TotalIn, SumSlots;
    var d, n, m := Window(c.start, c.size, now), |c.slots|, MapRing(c, TotalOf);
    SumIsSlotTotals(c, hist, d, n);
    assert m.slots[..n] == m.slots;
    SlotTotalsAll(hist, c.start, c.size, d, n);
    var a, b := WindowValues(m, now, Same), WindowTotals(hist, c.start, c.size, d, n);
    WindowValue(m, now, Same, 0);
    forall k | 0 <= k < n
      ensures a[k] == b[k]
    {
      BackwardsSlot(d, n, k);
      WindowValue(m, now, Same, k);
      assert SlotExact(c.slots[Mod(d - k, n)], hist, c.start, c.size, WindowOf(d, n, Mod(d - k, n)));
    }
  }

  lemma NewTracks<V>(n: nat, size: int, start: int)
    requires n > 0 && size > 0 && start > 0
    ensures Tracks(NewRing<V>(n, size, start), [], start)
  {
  }

  lemma {:induction false} RunShape<V>(r: Ring<Log<V>>, t: int, ops: seq<(int, Op<V>)>)
    requires RingOk(r) && RunOk(r, t, ops) && NoLoad(ops)
    ensures var c := Run(r, t, ops); |c.slots| == |r.slots| && c.size == r.size && c.start == r.start
    decreases |ops|
  {
    if ops != [] {
      RunShape(Step(r, ops[0].0, ops[0].1), ops[0].0, ops[1..]);
    }
  }

  /**
   Without the guard the sum is wrong both ways.  Two windows of ten seconds from time 100:
   5 is added at 100, a read at 119 scans, 7 is added at 120 without a scan.  A read at 121
   still counts the 5, whose window has left the ring; a read at 129 has lost the 7 as well.
   */
  lemma UnguardedSumIsWrong()
    ensures var r := IntRun(TwoSlots(0, 0, 0), [(100, Put(5)), (119, Read), (120, Put(7))]);
            && SumSlots(Clean(r, 121, Zero).slots) == 12
            && SumSlots(Clean(r, 129, Zero).slots) == 0
    ensures var hist := HistOf([], [(100, Put(5)), (119, Read), (120, Put(7))]);
            && TotalIn(hist, 100, 10, Window(100, 10, 121) - 2, Window(100, 10, 121)) == 7
            && TotalIn(hist, 100, 10, Window(100, 10, 129) - 2, Window(100, 10, 129)) == 7
  {
    hide IntRun, Clean, HistOf;
    UnguardedRun();
    SumOfTwo(Slot(100, 12), Slot(0, 0));
    SumOfTwo(Slot(0, 0), Slot(0, 0));
    var hist := [Event(100, 5), Event(120, 7)];
    assert hist[..1] == [Event(100, 5)] && hist[..1][..0] == [];
  }

  lemma SumOfTwo(a: Slot<int>, b: Slot<int>)
    ensures SumSlots([a, b]) == a.val + b.val
  {
    assert [a, b][..1] == [a] && [a][..0] == [];
    assert SumSlots([a]) == a.val;
  }

  lemma ScanTwo(a: Slot<int>, b: Slot<int>, size: int, start: int, cleaned: int, now: int)
    requires size > 0 && start > 0 && now - cleaned >= size
    ensures Clean(Ring([a, b], size, start, cleaned), now, Zero)
         == Ring([Swept(a, now, size * 2, Zero), Swept(b, now, size * 2, Zero)], size, start, now)
  {
    var e := [Swept(a, now, size * 2, Zero), Swept(b, now, size * 2, Zero)];
    var c := Clean(Ring([a, b], size, start, cleaned), now, Zero);
    assert |c.slots| == 2 && c.slots[0] == e[0] && c.slots[1] == e[1];
    assert c.slots == e;
  }

  lemma PutInFirst(r: Ring<int>, a: Slot<int>, b: Slot<int>, cleaned: int, now: int, v: int)
    requires RingOk(r) && Clean(r, now, Zero) == Ring([a, b], r.size, r.start, cleaned)
    requires Mod(Window(r.start, r.size, now), 2) == 0
    ensures IntStep(r, now, Put(v))
         == Ring([Slot(if a.stamp == 0 then WindowStart(r.start, r.size, now) else a.stamp, a.val + v), b], r.size, r.start, cleaned)
  {
    hide Clean, Window, Mod, WindowStart;
    var s := Slot(if a.stamp == 0 then WindowStart(r.start, r.size, now) else a.stamp, a.val + v);
    assert [a, b][0 := s] == [s, b];
  }

  function TwoSlots(stamp: int, val: int, cleaned: int): (r: Ring<int>)
    ensures RingOk(r)
  {
    Ring([Slot(stamp, val), Slot(0, 0)], 10, 100, cleaned)
  }

  lemma FirstClean()
    ensures Clean(TwoSlots(0, 0, 0), 100, Zero) == TwoSlots(0, 0, 100)
  {
    hide Clean;
    ScanTwo(Slot(0, 0), Slot(0, 0), 10, 100, 0, 100);
  }

  lemma FirstStep()
    ensures IntStep(TwoSlots(0, 0, 0), 100, Put(5)) == TwoSlots(100, 5, 100)
  {
    hide Clean, Write;
    FirstClean();
    PutInFirst(TwoSlots(0, 0, 0), Slot(0, 0), Slot(0, 0), 100, 100, 5);
  }

  lemma SecondStep()
    ensures IntStep(TwoSlots(100, 5, 100), 119, Read) == TwoSlots(100, 5, 119)
  {
    hide Clean;
    ScanTwo(Slot(100, 5), Slot(0, 0), 10, 100, 100, 119);
  }

  lemma ThirdStep()
    ensures IntStep(TwoSlots(100, 5, 119), 120, Put(7)) == TwoSlots(100, 12, 119)
  {
    hide Write;
    PutInFirst(TwoSlots(100, 5, 119), Slot(100, 5), Slot(0, 0), 119, 120, 7);
  }

  lemma ThreeSteps(r: Ring<int>, a: (int, Op<int>), b: (int, Op<int>), c: (int, Op<int>))
    requires RingOk(r)
    ensures IntRun(r, [a, b, c]) == IntStep(IntStep(IntStep(r, a.0, a.1), b.0, b.1), c.0, c.1)
    ensures HistOf([], [a, b, c]) == HistAfter(HistAfter(HistAfter([], a.0, a.1), b.0, b.1), c.0, c.1)
  {
    hide IntStep, HistAfter;
    assert [a, b, c][1..] == [b, c] && [b, c][1..] == [c] && [c][1..] == [];
    var r1, h1 := IntStep(r, a.0, a.1), HistAfter([], a.0, a.1);
    var r2, h2 := IntStep(r1, b.0, b.1), HistAfter(h1, b.0, b.1);
    assert IntRun(r2, [c]) == IntStep(r2, c.0, c.1) && HistOf(h2, [c]) == HistAfter(h2, c.0, c.1);
    assert IntRun(r1, [b, c]) == IntRun(r2, [c]) && HistOf(h1, [b, c]) == HistOf(h2, [c]);
  }

  lemma UnguardedRun()
    ensures var ops: seq<(int, Op<int>)> := [(100, Put(5)), (119, Read), (120, Put(7))];
            var r := IntRun(TwoSlots(0, 0, 0), ops);
            && Clean(r, 121, Zero).slots == [Slot(100, 12), Slot(0, 0)]
            && Clean(r, 129, Zero).slots == [Slot(0, 0), Slot(0, 0)]
            && HistOf([], ops) == [Event(100, 5), Event(120, 7)]
  {
    hide Clean, IntStep, IntRun, HistOf;
    ThreeSteps(TwoSlots(0, 0, 0), (100, Put(5)), (119, Read), (120, Put(7)));
    FirstStep();
    SecondStep();
    ThirdStep();
    LastReads();
  }

  lemma LastReads()
    ensures Clean(TwoSlots(100, 12, 119), 121, Zero).slots == [Slot(100, 12), Slot(0, 0)]
    ensures Clean(TwoSlots(100, 12, 119), 129, Zero).slots == [Slot(0, 0), Slot(0, 0)]
  {
    ScanTwo(Slot(100, 12), Slot(0, 0), 10, 100, 119, 129);
  }
}
