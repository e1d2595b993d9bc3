/**
 Which restored dumps keep the staleness bound.  A restore takes the peer's stamps as they
 are, so a stamp ahead of the clock keeps old writes alive; the condition here says exactly
 which slots do no harm, whatever operations follow.
 */
module Restores {

  import opened Rings

  /**
   A slot that can be left as it is at time `t`: it is empty if it has no stamp, the next scan
   clears it, or its stamp is ahead of the clock and of every write in it by no more than
   skew + 1 seconds.
   */
  ghost predicate Harmless<V>(s: Slot<Log<V>>, t: int, span: int, skew: nat)
  {
    if s.stamp == 0 then s.val == [] else t - s.stamp >= span || Close(s, t, skew)
  }

  ghost predicate Close<V>(s: Slot<Log<V>>, t: int, skew: nat)
  {
    s.stamp <= t + skew + 1 && forall k | 0 <= k < |s.val| :: s.stamp <= s.val[k].time + skew + 1
  }

  // ---------------------------------------------------------------- harmless slots keep the bound

  /** Harmless, and if the slot has expired the next operation scans. */
  ghost predicate Sound<V>(r: Ring<Log<V>>, s: Slot<Log<V>>, t: int, skew: nat)
  {
    var span := r.size * |r.slots|;
    if s.stamp == 0 then s.val == []
    else (t - s.stamp >= span && t - r.cleaned >= r.size) || (Close(s, t, skew) && s.stamp > r.cleaned - span)
  }

  /** What every operation keeps, `t` being the time of the last one. */
  ghost predicate AllSound<V>(r: Ring<Log<V>>, t: int, skew: nat)
  {
    && RingOk(r) && 0 <= r.cleaned <= t && r.size * |r.slots| <= t
    && forall i | 0 <= i < |r.slots| :: Sound(r, r.slots[i], t, skew)
  }

  lemma CleanSound<V>(r: Ring<Log<V>>, t: int, now: int, skew: nat)
    requires AllSound(r, t, skew) && t <= now
    ensures AllSound(CleanLog(r, now), now, skew)
    ensures forall i | 0 <= i < |r.slots| ::
      var s := CleanLog(r, now).slots[i];
      s.stamp == 0 || (Close(s, now, skew) && s.stamp > CleanLog(r, now).cleaned - r.size * |r.slots|)
  {
    SpanAtLeastOne(r.size, |r.slots|);
  }

  lemma PutSound<V>(r: Ring<Log<V>>, t: int, now: int, v: V, skew: nat)
    requires AllSound(r, t, skew) && t <= now && r.start <= now
    ensures AllSound(PutLog(r, now, v), now, skew)
  {
    hide Mod, Window;
    CleanSound(r, t, now, skew);
    var c, p := CleanLog(r, now), PutLog(r, now, v);
    WindowStartBounds(r.start, r.size, now);
    SpanAtLeastOne(r.size, |r.slots|);
    var i := Current(c, now);
    assert forall j | 0 <= j < |r.slots| && j != i :: p.slots[j] == c.slots[j];
    assert p.slots[i].val == c.slots[i].val + [Event(now, v)];
    assert Close(p.slots[i], now, skew);
  }

  lemma LoadSound<V>(r: Ring<Log<V>>, t: int, now: int, slots: seq<Slot<Log<V>>>, start: int, skew: nat)
    requires AllSound(r, t, skew) && t <= now && |slots| <= |r.slots| && start > 0
    requires forall i | 0 <= i < |slots| :: SlotOk(slots[i], now, skew)
    ensures AllSound(Restore(r, slots, start), now, skew)
  {
    SpanAtLeastOne(r.size, |r.slots|);
    var c := Restore(r, slots, start);
    forall i | 0 <= i < |c.slots|
      ensures Sound(c, c.slots[i], now, skew)
    {
      if i < |slots| {
        assert SlotOk(slots[i], now, skew);
      } else {
        assert Sound(r, r.slots[i], t, skew);
      }
    }
  }

  lemma {:induction false} StepSound<V>(r: Ring<Log<V>>, t: int, now: int, op: Op<V>, skew: nat)
    requires AllSound(r, t, skew) && t <= now && OpOk(r, now, op) && LoadOk(now, op, skew)
    ensures AllSound(Step(r, now, op), now, skew)
  {
    hide Sound;
    match op
    case Put(v) => PutSound(r, t, now, v, skew);
    case Read => CleanSound(r, t, now, skew);
    case ResetAll => ResetSound(r, t, now, skew);
    case Load(slots, start) => LoadSound(r, t, now, slots, start, skew);
  }

  lemma ResetSound<V>(r: Ring<Log<V>>, t: int, now: int, skew: nat)
    requires AllSound(r, t, skew) && t <= now
    ensures AllSound(Reset(r, (l: Log<V>) => []), now, skew)
  {
  }

  lemma {:induction false} RunSound<V>(r: Ring<Log<V>>, t: int, ops: seq<(int, Op<V>)>, skew: nat)
    requires AllSound(r, t, skew) && RunOk(r, t, ops) && LoadsOk(ops, skew)
    ensures AllSound(Run(r, t, ops), LastTime(t, ops), skew) && |Run(r, t, ops).slots| == |r.slots| && Run(r, t, ops).size == r.size
    decreases |ops|
  {
    hide Sound, LoadOk, OpOk;
    if ops != [] {
      StepSound(r, t, ops[0].0, ops[0].1, skew);
      RunSound(Step(r, ops[0].0, ops[0].1), ops[0].0, ops[1..], skew);
    }
  }

  lemma SoundAge<V>(u: Ring<Log<V>>, t: int, now: int, skew: nat, i: nat, k: nat)
    requires AllSound(u, t, skew) && t <= now && i < |CleanLog(u, now).slots| && k < |CleanLog(u, now).slots[i].val|
    ensures now - CleanLog(u, now).slots[i].val[k].time < (|u.slots| + 1) * u.size + skew
  {
    hide Close;
    CleanSound(u, t, now, skew);
    var c := CleanLog(u, now);
    assert c.slots[i].stamp != 0 && Close(c.slots[i], now, skew);
    CloseWrite(c.slots[i], now, skew, k);
    assert now - c.cleaned < u.size;
    assert (|u.slots| + 1) * u.size == u.size * |u.slots| + u.size;
  }

  lemma CloseWrite<V>(s: Slot<Log<V>>, t: int, skew: nat, k: nat)
    requires Close(s, t, skew) && k < |s.val|
    ensures s.stamp <= s.val[k].time + skew + 1
  {
  }

  lemma SoundNeverStale<V(!new)>(r: Ring<Log<V>>, t: int, skew: nat)
    requires AllSound(r, t, skew)
    ensures NeverStale(r, t, skew)
  {
    hide Sound, Run, RunOk, LoadsOk, CleanLog;
    forall ops, now, i, k | Counts(r, t, skew, ops, now, i, k)
      ensures AgeOf(r, t, skew, ops, now, i, k) < (|r.slots| + 1) * r.size + skew
    {
      RunSound(r, t, ops, skew);
      SoundAge(Run(r, t, ops), LastTime(t, ops), now, skew, i, k);
    }
  }

  // ---------------------------------------------------------------- other slots break it

  /** A slot with a stamp is still there at the end of its span, and until the scan after that. */
  lemma KeptToTheEnd<V>(r: Ring<Log<V>>, i: nat)
    requires RingOk(r) && i < |r.slots| && r.slots[i].stamp != 0
    ensures var end := r.slots[i].stamp + r.size * |r.slots| - 1;
            end - r.cleaned >= r.size ==> CleanLog(CleanLog(r, end), end + r.size - 1).slots[i] == r.slots[i]
  {
  }

  /** A write much older than the stamp of its slot is counted too long. */
  lemma OldWriteIsStale<V(!new)>(r: Ring<Log<V>>, t: int, skew: nat, i: nat, k: nat)
    requires RingOk(r) && r.cleaned == 0 && r.size * |r.slots| <= t && i < |r.slots| && k < |r.slots[i].val|
    requires r.slots[i].stamp != 0 && t - r.slots[i].stamp < r.size * |r.slots|
    requires r.slots[i].stamp > r.slots[i].val[k].time + skew + 1
    ensures !NeverStale(r, t, skew)
  {
    hide CleanLog, Run, RunOk;
    SpanAtLeastOne(r.size, |r.slots|);
    var end := r.slots[i].stamp + r.size * |r.slots| - 1;
    var a, b: (int, Op<V>) := (t, Load([], 1)), (end, Read);
    var c := Step(r, t, a.1);
    assert c == r.(start := 1);
    TwoOps(r, t, a, b);
    KeptToTheEnd(c, i);
    var ops, now := [a, b], end + r.size - 1;
    assert Counts(r, t, skew, ops, now, i, k);
    assert (|r.slots| + 1) * r.size == r.size * |r.slots| + r.size;
    assert AgeOf(r, t, skew, ops, now, i, k) >= (|r.slots| + 1) * r.size + skew;
  }

  /** A start time that makes slot i the current one. */
  lemma StartFor(t: int, size: int, n: nat, i: nat)
    requires size > 0 && i < n && size * n <= t
    ensures t - size * i > 0 && Mod(Window(t - size * i, size, t), n) == i
  {
    Product(size, n, i);
    Quotient(size, i);
    Remainder(i, n);
  }

  lemma Product(size: int, n: nat, i: nat)
    requires size > 0 && i < n
    ensures size * i + size <= size * n
  {
    assert size * n == size * i + size * (n - i);
    SpanAtLeastOne(size, n - i);
  }

  lemma Quotient(size: int, i: nat)
    requires size > 0
    ensures (size * i) / size == i
  {
    var q := (size * i) / size;
    assert size * i < size * q + size;
    if q < i {
      Product(size, i, q);
    }
  }

  lemma Remainder(i: nat, n: nat)
    requires i < n
    ensures Mod(i, n) == i
  {
  }

  lemma PutAt<V>(c: Ring<Log<V>>, t: int, v: V, i: nat)
    requires RingOk(c) && c.cleaned == 0 && c.size <= t && Current(c, t) == i
    requires c.slots[i].stamp != 0 && t - c.slots[i].stamp < c.size * |c.slots|
    ensures var p := PutLog(c, t, v);
            p.cleaned == t && p.slots[i] == Slot(c.slots[i].stamp, c.slots[i].val + [Event(t, v)])
  {
    hide Mod, Window;
  }

  lemma ThreeOps<V>(r: Ring<Log<V>>, t: int, a: (int, Op<V>), b: (int, Op<V>), d: (int, Op<V>))
    requires RingOk(r) && t <= a.0 <= b.0 <= d.0 && 0 <= a.0 && OpOk(r, a.0, a.1) && OpOk(Step(r, a.0, a.1), b.0, b.1)
    requires OpOk(Step(Step(r, a.0, a.1), b.0, b.1), d.0, d.1)
    ensures RunOk(r, t, [a, b, d]) && Run(r, t, [a, b, d]) == Step(Step(Step(r, a.0, a.1), b.0, b.1), d.0, d.1)
  {
    hide Step, OpOk;
    assert [a, b, d][1..] == [b, d];
    TwoOps(Step(r, a.0, a.1), a.0, b, d);
  }

  /** A stamp far ahead of the clock keeps the next write to its slot too long. */
  lemma StampAheadKeeps<V(!new)>(r: Ring<Log<V>>, t: int, skew: nat, i: nat, v: V)
    requires RingOk(r) && r.cleaned == 0 && r.size * |r.slots| <= t && i < |r.slots|
    requires r.slots[i].stamp > t + skew + 1
    ensures !NeverStale(r, t, skew)
  {
    hide CleanLog, PutLog, Run, RunOk, Mod, Window;
    SpanAtLeastOne(r.size, |r.slots|);
    StartFor(t, r.size, |r.slots|, i);
    var end := r.slots[i].stamp + r.size * |r.slots| - 1;
    var a, b, d: (int, Op<V>) := (t, Load([], t - r.size * i)), (t, Put(v)), (end, Read);
    var c := Step(r, t, a.1);
    assert c == r.(start := t - r.size * i);
    PutAt(c, t, v, i);
    var p := Step(c, t, b.1);
    ThreeOps(r, t, a, b, d);
    KeptToTheEnd(p, i);
    var ops, now, k := [a, b, d], end + r.size - 1, |r.slots[i].val|;
    assert Counts(r, t, skew, ops, now, i, k);
    assert (|r.slots| + 1) * r.size == r.size * |r.slots| + r.size;
    assert AgeOf(r, t, skew, ops, now, i, k) >= (|r.slots| + 1) * r.size + skew;
  }

  // ---------------------------------------------------------------- main result

  lemma HarmIsStale<V(!new)>(r: Ring<Log<V>>, t: int, skew: nat, i: nat, v: V)
    requires RingOk(r) && r.cleaned == 0 && r.size * |r.slots| <= t && i < |r.slots|
    requires !Harmless(r.slots[i], t, r.size * |r.slots|, skew)
    ensures !NeverStale(r, t, skew)
  {
    hide NeverStale;
    var s := r.slots[i];
    if s.stamp == 0 {
      UnstampedIsStale(r, t, skew, i, 0);
    } else if s.stamp > t + skew + 1 {
      StampAheadKeeps(r, t, skew, i, v);
    } else {
      var k :| 0 <= k < |s.val| && s.stamp > s.val[k].time + skew + 1;
      OldWriteIsStale(r, t, skew, i, k);
    }
  }

  /**
   A restore at time `t` keeps the staleness bound, whatever operations and later restores
   follow, if and only if every slot is harmless: those the dump brings and those it leaves.
   */
  lemma RestoreNeverStaleIff<V(!new)>(r: Ring<Log<V>>, slots: seq<Slot<Log<V>>>, start: int, t: int, skew: nat, v: V)
    requires RingOk(r) && |slots| <= |r.slots| && start > 0 && r.size * |r.slots| <= t
    ensures var c := Restore(r, slots, start);
            NeverStale(c, t, skew) <==> forall i | 0 <= i < |c.slots| :: Harmless(c.slots[i], t, r.size * |r.slots|, skew)
  {
    hide NeverStale, Harmless;
    var c := Restore(r, slots, start);
    if i :| 0 <= i < |c.slots| && !Harmless(c.slots[i], t, r.size * |r.slots|, skew) {
      HarmIsStale(c, t, skew, i, v);
    } else {
      AllHarmless(c, t, skew);
      SoundNeverStale(c, t, skew);
    }
  }

  lemma AllHarmless<V>(c: Ring<Log<V>>, t: int, skew: nat)
    requires RingOk(c) && c.cleaned == 0 && c.size * |c.slots| <= t
    requires forall i | 0 <= i < |c.slots| :: Harmless(c.slots[i], t, c.size * |c.slots|, skew)
    ensures AllSound(c, t, skew)
  {
    SpanAtLeastOne(c.size, |c.slots|);
  }
}
