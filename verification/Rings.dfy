/**
 The ring of time windows behind every statistics field (TWStatsEntry).

 A slot holds the start time of the window it was first written in and a member
 value of any type.  The clock is an argument of each operation.  The operations
 are functions on a value `Ring`; the class in StatsEntries runs them in place on
 an array.
 */
module Rings {

  datatype Slot<M> = Slot(stamp: int, val: M)

  datatype Ring<M> = Ring(slots: seq<Slot<M>>, size: int, start: int, cleaned: int)

  predicate RingOk<M>(r: Ring<M>)
  {
    |r.slots| > 0 && r.size > 0 && r.start > 0
  }

  function Mod(a: int, n: int): (m: int)
    requires n > 0
    ensures 0 <= m < n
  {
    a % n
  }

  /** Index of the window that contains `now`, counted from the start time. */
  function Window(start: int, size: int, now: int): (w: int)
    requires size > 0
  {
    (now - start) / size
  }

  /** current_window */
  function Current<M>(r: Ring<M>, now: int): (i: nat)
    requires RingOk(r)
    ensures i < |r.slots|
  {
    Mod(Window(r.start, r.size, now), |r.slots|)
  }

  /** The stamp update_write_timestamp gives: the start of the window of `now`. */
  function WindowStart(start: int, size: int, now: int): (t: int)
    requires size > 0
  {
    now - (now - start) % size
  }

  predicate Expired<M>(s: Slot<M>, now: int, span: int)
  {
    s.stamp != 0 && now - s.stamp >= span
  }

  function Skips<M>(r: Ring<M>, now: int): (b: bool)
  {
    now - r.cleaned < r.size
  }

  function Swept<M>(s: Slot<M>, now: int, span: int, erase: M -> M): (t: Slot<M>)
  {
    if Expired(s, now, span) then Slot(0, erase(s.val)) else s
  }

  /** clean_windows: does nothing within one window size of the last scan. */
  function Clean<M>(r: Ring<M>, now: int, erase: M -> M): (c: Ring<M>)
    requires RingOk(r)
    ensures RingOk(c) && |c.slots| == |r.slots| && c.size == r.size && c.start == r.start
  {
    if Skips(r, now) then r
    else r.(slots := seq(|r.slots|, i requires 0 <= i < |r.slots| => Swept(r.slots[i], now, r.size * |r.slots|, erase)),
            cleaned := now)
  }

  /** add and sub: clean, change the current member, stamp the slot if it has no stamp. */
  function Write<M>(r: Ring<M>, now: int, f: M -> M, erase: M -> M): (c: Ring<M>)
    requires RingOk(r)
    ensures RingOk(c) && |c.slots| == |r.slots| && c.size == r.size && c.start == r.start
  {
    var c := Clean(r, now, erase);
    var i := Current(c, now);
    var s := c.slots[i];
    c.(slots := c.slots[i := Slot(if s.stamp == 0 then WindowStart(r.start, r.size, now) else s.stamp, f(s.val))])
  }

  /** A read whose member function changes the member: the slot gets no stamp. */
  function Touch<M>(r: Ring<M>, now: int, f: M -> M, erase: M -> M): (c: Ring<M>)
    requires RingOk(r)
    ensures RingOk(c) && |c.slots| == |r.slots| && c.size == r.size && c.start == r.start
  {
    var c := Clean(r, now, erase);
    var i := Current(c, now);
    c.(slots := c.slots[i := Slot(c.slots[i].stamp, f(c.slots[i].val))])
  }

  /** The same for a read of every window. */
  function TouchAll<M>(r: Ring<M>, now: int, f: M -> M, erase: M -> M): (c: Ring<M>)
    requires RingOk(r)
    ensures RingOk(c) && |c.slots| == |r.slots| && c.size == r.size && c.start == r.start
  {
    var c := Clean(r, now, erase);
    c.(slots := seq(|c.slots|, i requires 0 <= i < |c.slots| => Slot(c.slots[i].stamp, f(c.slots[i].val))))
  }

  function Reset<M>(r: Ring<M>, erase: M -> M): (c: Ring<M>)
    requires RingOk(r)
    ensures RingOk(c) && |c.slots| == |r.slots| && c.size == r.size && c.start == r.start
  {
    r.(slots := seq(|r.slots|, i requires 0 <= i < |r.slots| => Slot(0, erase(r.slots[i].val))))
  }

  /** restore: the first slots are overwritten and the next operation is due to scan. */
  function Restore<M>(r: Ring<M>, slots: seq<Slot<M>>, start: int): (c: Ring<M>)
    requires RingOk(r) && |slots| <= |r.slots| && start > 0
    ensures RingOk(c) && |c.slots| == |r.slots| && c.size == r.size && c.start == start
  {
    Ring(slots + r.slots[|slots|..], r.size, start, 0)
  }

  // ---------------------------------------------------------------- naturality

  /** Reads every slot through `h`, which may depend on the slot's index. */
  function MapRing<A, B>(r: Ring<A>, h: (nat, A) -> B): (m: Ring<B>)
    ensures |m.slots| == |r.slots|
  {
    Ring(seq(|r.slots|, i requires 0 <= i < |r.slots| => Slot(r.slots[i].stamp, h(i, r.slots[i].val))), r.size, r.start, r.cleaned)
  }

  /** Cleaning and resetting do not look at the member, so they commute with any reading of it. */
  lemma CleanNatural<A(!new), B>(r: Ring<A>, now: int, h: (nat, A) -> B, ea: A -> A, eb: B -> B)
    requires RingOk(r)
    requires forall i: nat, a :: h(i, ea(a)) == eb(h(i, a))
    ensures MapRing(Clean(r, now, ea), h) == Clean(MapRing(r, h), now, eb)
    ensures MapRing(Reset(r, ea), h) == Reset(MapRing(r, h), eb)
  {
    var m := MapRing(r, h);
    assert MapRing(Clean(r, now, ea), h).slots == Clean(m, now, eb).slots;
    var a, b := MapRing(Reset(r, ea), h), Reset(m, eb);
    forall i | 0 <= i < |r.slots|
      ensures a.slots[i] == b.slots[i]
    {
      assert a.slots[i].val == h(i, ea(r.slots[i].val));
    }
    assert a.slots == b.slots;
  }

  /** So does writing, for matching changes of the member. */
  lemma WriteNatural<A(!new), B>(r: Ring<A>, now: int, h: (nat, A) -> B, fa: A -> A, fb: B -> B, ea: A -> A, eb: B -> B)
    requires RingOk(r)
    requires forall i: nat, a :: h(i, ea(a)) == eb(h(i, a))
    requires forall i: nat, a :: h(i, fa(a)) == fb(h(i, a))
    ensures MapRing(Write(r, now, fa, ea), h) == Write(MapRing(r, h), now, fb, eb)
  {
    CleanNatural(r, now, h, ea, eb);
    assert MapRing(Write(r, now, fa, ea), h).slots == Write(MapRing(r, h), now, fb, eb).slots;
  }

  lemma TouchNatural<A(!new), B>(r: Ring<A>, now: int, h: (nat, A) -> B, fa: A -> A, fb: B -> B, ea: A -> A, eb: B -> B)
    requires RingOk(r)
    requires forall i: nat, a :: h(i, ea(a)) == eb(h(i, a))
    requires forall i: nat, a :: h(i, fa(a)) == fb(h(i, a))
    ensures MapRing(Touch(r, now, fa, ea), h) == Touch(MapRing(r, h), now, fb, eb)
    ensures MapRing(TouchAll(r, now, fa, ea), h) == TouchAll(MapRing(r, h), now, fb, eb)
  {
    hide Mod, Window;
    CleanNatural(r, now, h, ea, eb);
    assert MapRing(Touch(r, now, fa, ea), h).slots == Touch(MapRing(r, h), now, fb, eb).slots;
    var a, b := MapRing(TouchAll(r, now, fa, ea), h), TouchAll(MapRing(r, h), now, fb, eb);
    forall i | 0 <= i < |r.slots|
      ensures a.slots[i] == b.slots[i]
    {
      assert a.slots[i].val == h(i, fa(Clean(r, now, ea).slots[i].val));
    }
    assert a.slots == b.slots;
  }

  // ---------------------------------------------------------------- logs of writes

  /** A write and when it happened. */
  datatype Event<V> = Event(time: int, val: V)

  /** The free member: it remembers every write since it was last erased. */
  type Log<V> = seq<Event<V>>

  /** What was written, without the times. */
  function Vals<V>(l: Log<V>): (v: seq<V>)
    ensures |v| == |l|
  {
    seq(|l|, i requires 0 <= i < |l| => l[i].val)
  }

  datatype Op<V> =
    | Put(val: V)
    | Read
    | ResetAll
    | Load(slots: seq<Slot<Log<V>>>, start: int)  // restore a dump

  function CleanLog<V>(r: Ring<Log<V>>, now: int): (c: Ring<Log<V>>)
    requires RingOk(r)
    ensures RingOk(c) && |c.slots| == |r.slots| && c.size == r.size && c.start == r.start
  {
    Clean(r, now, (l: Log<V>) => [])
  }

  function PutLog<V>(r: Ring<Log<V>>, now: int, v: V): (c: Ring<Log<V>>)
    requires RingOk(r)
    ensures RingOk(c) && |c.slots| == |r.slots| && c.size == r.size && c.start == r.start
  {
    Write(r, now, (l: Log<V>) => l + [Event(now, v)], (l: Log<V>) => [])
  }

  /** A restore needs a start time and no more windows than there are; other operations need a clock past the start. */
  ghost predicate OpOk<V>(r: Ring<Log<V>>, now: int, op: Op<V>)
  {
    match op
    case Load(slots, start) => |slots| <= |r.slots| && 0 < start
    case _ => r.start <= now
  }

  ghost function Step<V>(r: Ring<Log<V>>, now: int, op: Op<V>): (c: Ring<Log<V>>)
    requires RingOk(r) && OpOk(r, now, op)
    ensures RingOk(c) && |c.slots| == |r.slots| && c.size == r.size
  {
    match op
    case Put(v) => PutLog(r, now, v)
    case Read => CleanLog(r, now)
    case ResetAll => Reset(r, (l: Log<V>) => [])
    case Load(slots, start) => Restore(r, slots, start)
  }

  // ---------------------------------------------------------------- runs

  function NewRing<V>(n: nat, size: int, start: int): (r: Ring<Log<V>>)
    requires n > 0 && size > 0 && start > 0
    ensures RingOk(r) && |r.slots| == n
  {
    Ring(seq(n, _ => Slot(0, [])), size, start, 0)
  }

  /** Operations with their times, on a clock that does not go back. */
  ghost predicate RunOk<V>(r: Ring<Log<V>>, t: int, ops: seq<(int, Op<V>)>)
    requires RingOk(r)
    decreases |ops|
  {
    ops == [] ||
    (t <= ops[0].0 && 0 <= ops[0].0 && OpOk(r, ops[0].0, ops[0].1) &&
     RunOk(Step(r, ops[0].0, ops[0].1), ops[0].0, ops[1..]))
  }

  ghost function Run<V>(r: Ring<Log<V>>, t: int, ops: seq<(int, Op<V>)>): (c: Ring<Log<V>>)
    requires RingOk(r) && RunOk(r, t, ops)
    ensures RingOk(c)
    decreases |ops|
  {
    if ops == [] then r else Run(Step(r, ops[0].0, ops[0].1), ops[0].0, ops[1..])
  }

  function LastTime<V>(t: int, ops: seq<(int, Op<V>)>): (u: int)
  {
    if ops == [] then t else ops[|ops| - 1].0
  }

  // ---------------------------------------------------------------- staleness, in every run

  /**
   A slot whose stamp is at most `skew` ahead of the clock, with nothing in it unless it is
   stamped, and no write that is older than the stamp by more than `skew`.
   */
  ghost predicate SlotOk<V>(s: Slot<Log<V>>, now: int, skew: nat)
  {
    && 0 <= s.stamp <= now + skew
    && (s.stamp == 0 ==> s.val == [])
    && (forall i | 0 <= i < |s.val| :: s.stamp - skew <= s.val[i].time)
  }

  /** What every operation keeps, `t` being the time of the last one. */
  ghost predicate Fresh<V>(r: Ring<Log<V>>, t: int, skew: nat)
  {
    && RingOk(r) && r.cleaned <= t
    && forall i | 0 <= i < |r.slots| ::
         SlotOk(r.slots[i], t, skew) && (r.slots[i].stamp != 0 ==> r.slots[i].stamp > r.cleaned - r.size * |r.slots|)
  }

  lemma CleanFresh<V>(r: Ring<Log<V>>, t: int, now: int, skew: nat)
    requires Fresh(r, t, skew) && t <= now
    ensures Fresh(CleanLog(r, now), now, skew)
  {
  }

  lemma WindowStartBounds(start: int, size: int, now: int)
    requires size > 0 && start <= now
    ensures start <= WindowStart(start, size, now) <= now < WindowStart(start, size, now) + size
    ensures WindowStart(start, size, now) == start + size * Window(start, size, now)
  {
  }

  lemma PutFresh<V>(r: Ring<Log<V>>, t: int, now: int, v: V, skew: nat)
    requires Fresh(r, t, skew) && t <= now && r.start <= now
    ensures Fresh(PutLog(r, now, v), now, skew)
  {
    CleanFresh(r, t, now, skew);
    var c := CleanLog(r, now);
    WindowStartBounds(r.start, r.size, now);
    SpanAtLeastOne(r.size, |r.slots|);
    assert forall i | 0 <= i < |r.slots| && i != Current(c, now) :: PutLog(r, now, v).slots[i] == c.slots[i];
  }

  lemma SpanAtLeastOne(size: int, n: int)
    requires size > 0 && n > 0
    ensures size * n >= size
  {
  }

  /** What a peer sends is fresh by the local clock, up to `skew`. */
  ghost predicate LoadOk<V>(now: int, op: Op<V>, skew: nat)
  {
    op.Load? ==> forall i | 0 <= i < |op.slots| :: SlotOk(op.slots[i], now, skew)
  }

  lemma StepFresh<V>(r: Ring<Log<V>>, t: int, now: int, op: Op<V>, skew: nat)
    requires Fresh(r, t, skew) && t <= now && OpOk(r, now, op) && LoadOk(now, op, skew) && 0 <= now
    ensures Fresh(Step(r, now, op), now, skew)
  {
    SpanAtLeastOne(r.size, |r.slots|);
    match op
    case Put(v) => PutFresh(r, t, now, v, skew);
    case Read => CleanFresh(r, t, now, skew);
    case ResetAll =>
    case Load(slots, start) =>
  }

  ghost predicate LoadsOk<V>(ops: seq<(int, Op<V>)>, skew: nat)
  {
    forall i | 0 <= i < |ops| :: LoadOk(ops[i].0, ops[i].1, skew)
  }

  lemma {:induction false} RunFresh<V>(r: Ring<Log<V>>, t: int, ops: seq<(int, Op<V>)>, skew: nat)
    requires Fresh(r, t, skew) && RunOk(r, t, ops) && LoadsOk(ops, skew)
    ensures Fresh(Run(r, t, ops), LastTime(t, ops), skew) && |Run(r, t, ops).slots| == |r.slots| && Run(r, t, ops).size == r.size
    decreases |ops|
  {
    hide SlotOk, LoadOk, OpOk;
    if ops != [] {
      StepFresh(r, t, ops[0].0, ops[0].1, skew);
      RunFresh(Step(r, ops[0].0, ops[0].1), ops[0].0, ops[1..], skew);
    }
  }

  /** After the operations, a read at `now` counts the k-th write of slot i. */
  ghost predicate Counts<V>(r: Ring<Log<V>>, t: int, skew: nat, ops: seq<(int, Op<V>)>, now: int, i: nat, k: nat)
    requires RingOk(r)
  {
    && RunOk(r, t, ops) && LoadsOk(ops, skew) && LastTime(t, ops) <= now
    && var c := CleanLog(Run(r, t, ops), now);
       i < |c.slots| && k < |c.slots[i].val|
  }

  ghost function AgeOf<V>(r: Ring<Log<V>>, t: int, skew: nat, ops: seq<(int, Op<V>)>, now: int, i: nat, k: nat): (a: int)
    requires RingOk(r) && Counts(r, t, skew, ops, now, i, k)
  {
    now - CleanLog(Run(r, t, ops), now).slots[i].val[k].time
  }

  /** Whatever operations follow, no read counts a write aged (N+1)*W + skew seconds or more. */
  ghost predicate NeverStale<V(!new)>(r: Ring<Log<V>>, t: int, skew: nat)
    requires RingOk(r)
  {
    forall ops, now, i, k | Counts(r, t, skew, ops, now, i, k) ::
      AgeOf(r, t, skew, ops, now, i, k) < (|r.slots| + 1) * r.size + skew
  }

  lemma FreshAge<V>(r: Ring<Log<V>>, t: int, skew: nat, ops: seq<(int, Op<V>)>, now: int, i: nat, k: nat)
    requires Fresh(r, t, skew) && Counts(r, t, skew, ops, now, i, k)
    ensures AgeOf(r, t, skew, ops, now, i, k) < (|r.slots| + 1) * r.size + skew
  {
    hide Run, RunOk, LoadsOk, SlotOk, CleanLog;
    RunFresh(r, t, ops, skew);
    var u := Run(r, t, ops);
    ReadAge(u, LastTime(t, ops), now, skew, i, k);
  }

  lemma ReadAge<V>(u: Ring<Log<V>>, t: int, now: int, skew: nat, i: nat, k: nat)
    requires Fresh(u, t, skew) && t <= now && i < |CleanLog(u, now).slots| && k < |CleanLog(u, now).slots[i].val|
    ensures now - CleanLog(u, now).slots[i].val[k].time < (|u.slots| + 1) * u.size + skew
  {
    CleanFresh(u, t, now, skew);
    var c := CleanLog(u, now);
    assert SlotOk(c.slots[i], now, skew);
    assert (|u.slots| + 1) * u.size == u.size * |u.slots| + u.size;
  }

  lemma FreshNeverStale<V(!new)>(r: Ring<Log<V>>, t: int, skew: nat)
    requires Fresh(r, t, skew)
    ensures NeverStale(r, t, skew)
  {
    forall ops, now, i, k | Counts(r, t, skew, ops, now, i, k)
      ensures AgeOf(r, t, skew, ops, now, i, k) < (|r.slots| + 1) * r.size + skew
    {
      FreshAge(r, t, skew, ops, now, i, k);
    }
  }

  /**
   The staleness bound over whole runs: after any operations on a new entry, restores
   included, whatever a read at `now` finds in a slot is younger than (N+1)*W seconds, or
   that much and `skew` if restored stamps may be so far ahead of the local clock.
   */
  lemma StalenessBound<V(!new)>(n: nat, size: int, start: int, skew: nat)
    requires n > 0 && size > 0 && start > 0
    ensures NeverStale(NewRing<V>(n, size, start), start, skew)
  {
    SpanAtLeastOne(size, n);
    FreshNeverStale(NewRing<V>(n, size, start), start, skew);
  }

  /**
   The skew is needed.  One window of ten seconds from 100: a restore at 100 brings a stamp
   of 200, a write at 100 goes to that slot, and a read at 205 still counts it.
   */
  lemma StampAheadIsStale()
    ensures var r, ops := NewRing<int>(1, 10, 100), [(100, Load([Slot(200, [])], 100)), (100, Put(5))];
            Counts(r, 100, 100, ops, 205, 0, 0) && AgeOf(r, 100, 100, ops, 205, 0, 0) == 105
  {
    hide CleanLog, PutLog, Run, RunOk;
    var r, ops: seq<(int, Op<int>)> := NewRing<int>(1, 10, 100), [(100, Load([Slot(200, [])], 100)), (100, Put(5))];
    var a := Ring([Slot(200, [])], 10, 100, 0);
    assert Step(r, 100, ops[0].1) == a;
    StampAheadPut();
    TwoOps(r, 100, ops[0], ops[1]);
  }

  lemma StampAheadPut()
    ensures var b := Ring([Slot(200, [Event(100, 5)])], 10, 100, 100);
            && PutLog(Ring([Slot(200, [])], 10, 100, 0), 100, 5) == b
            && CleanLog(b, 205).slots[0] == b.slots[0]
  {
    var a: Ring<Log<int>> := Ring([Slot(200, [])], 10, 100, 0);
    var none: Log<int> := [];
    assert none + [Event(100, 5)] == [Event(100, 5)];
    var c := CleanLog(a, 100);
    assert c.slots[0] == Slot(200, none) && Current(c, 100) == 0;
  }

  lemma TwoOps<V>(r: Ring<Log<V>>, t: int, a: (int, Op<V>), b: (int, Op<V>))
    requires RingOk(r) && t <= a.0 <= b.0 && 0 <= a.0 && OpOk(r, a.0, a.1) && OpOk(Step(r, a.0, a.1), b.0, b.1)
    ensures RunOk(r, t, [a, b]) && Run(r, t, [a, b]) == Step(Step(r, a.0, a.1), b.0, b.1)
  {
    hide Step, OpOk;
    var s := Step(r, a.0, a.1);
    assert [a, b][1..] == [b] && [b][1..] == [];
    assert RunOk(Step(s, b.0, b.1), b.0, []) && RunOk(s, a.0, [b]);
    assert Run(s, a.0, [b]) == Step(s, b.0, b.1);
  }

  // ---------------------------------------------------------------- reads that write

  /** A read that adds v to the current window's log. */
  function Peek<V>(r: Ring<Log<V>>, now: int, v: V): (c: Ring<Log<V>>)
    requires RingOk(r)
    ensures RingOk(c) && |c.slots| == |r.slots| && c.size == r.size
  {
    Touch(r, now, (l: Log<V>) => l + [Event(now, v)], (l: Log<V>) => [])
  }

  /** A read that adds v to every window's log. */
  function PeekAll<V>(r: Ring<Log<V>>, now: int, v: V): (c: Ring<Log<V>>)
    requires RingOk(r)
    ensures RingOk(c) && |c.slots| == |r.slots| && c.size == r.size
  {
    TouchAll(r, now, (l: Log<V>) => l + [Event(now, v)], (l: Log<V>) => [])
  }

  /** An unstamped slot keeps what is in it for ever. */
  lemma UnstampedIsStale<V(!new)>(r: Ring<Log<V>>, t: int, skew: nat, i: nat, k: nat)
    requires RingOk(r) && i < |r.slots| && k < |r.slots[i].val| && r.slots[i].stamp == 0
    ensures !NeverStale(r, t, skew)
  {
    var bound, time := (|r.slots| + 1) * r.size + skew, r.slots[i].val[k].time;
    SpanAtLeastOne(r.size, |r.slots| + 1);
    var later := (if t < time then time else t) + bound;
    assert Run(r, t, []) == r && CleanLog(r, later).slots[i] == r.slots[i];
    assert Counts(r, t, skew, [], later, i, k);
    assert AgeOf(r, t, skew, [], later, i, k) >= bound;
  }

  /** The staleness bound survives such a read if and only if the current slot is stamped. */
  lemma PeekNeverStaleIff<V(!new)>(r: Ring<Log<V>>, t: int, now: int, v: V, skew: nat)
    requires Fresh(r, t, skew) && t <= now
    ensures NeverStale(Peek(r, now, v), now, skew) <==> CleanLog(r, now).slots[Current(r, now)].stamp != 0
  {
    hide NeverStale, Mod, Window;
    CleanFresh(r, t, now, skew);
    var c, p, i := CleanLog(r, now), Peek(r, now, v), Current(r, now);
    assert p.slots[i] == Slot(c.slots[i].stamp, c.slots[i].val + [Event(now, v)]);
    if c.slots[i].stamp == 0 {
      UnstampedIsStale(p, now, skew, i, |c.slots[i].val|);
    } else {
      assert Fresh(p, now, skew);
      FreshNeverStale(p, now, skew);
    }
  }

  /** And one that changes every member, if and only if every slot is. */
  lemma PeekAllNeverStaleIff<V(!new)>(r: Ring<Log<V>>, t: int, now: int, v: V, skew: nat)
    requires Fresh(r, t, skew) && t <= now
    ensures NeverStale(PeekAll(r, now, v), now, skew)
       <==> forall i | 0 <= i < |r.slots| :: CleanLog(r, now).slots[i].stamp != 0
  {
    hide NeverStale, Mod, Window;
    CleanFresh(r, t, now, skew);
    var c, p := CleanLog(r, now), PeekAll(r, now, v);
    if i :| 0 <= i < |r.slots| && c.slots[i].stamp == 0 {
      UnstampedIsStale(p, now, skew, i, |c.slots[i].val|);
    } else {
      assert Fresh(p, now, skew);
      FreshNeverStale(p, now, skew);
    }
  }
}
