/**
 TWStatsEntry in place: an array of slots updated by loops, each operation proved
 against the ring function of the same name.  The member type and its erase are
 parameters, as they are chosen by the field's type.
 */
module StatsEntries {
  import opened Rings
  import opened WindowSums

  class TWStatsEntry<M> {
    const stats: array<Slot<M>>
    const windowSize: int
    const erase: M -> M
    var startTime: int
    var lastCleaned: int

    function Value(): (r: Ring<M>)
      reads this, stats
    {
      Ring(stats[..], windowSize, startTime, lastCleaned)
    }

    ghost predicate Valid()
      reads this, stats
    {
      RingOk(Value())
    }

    constructor (members: seq<M>, windowSize: int, startTime: int, erase: M -> M)
      requires |members| > 0 && windowSize > 0 && startTime > 0
      ensures Valid() && fresh(stats) && this.erase == erase
      ensures Value() == Ring(seq(|members|, i requires 0 <= i < |members| => Slot(0, members[i])), windowSize, startTime, 0)
    {
      stats := new Slot<M>[|members|](i requires 0 <= i < |members| => Slot(0, members[i]));
      this.windowSize, this.startTime, this.erase := windowSize, startTime, erase;
      lastCleaned := 0;
    }

    /** Expires every slot whose window has left the ring, unless a scan was made less than a window size ago. */
    method CleanWindows(now: int)
      requires Valid()
      modifies this`lastCleaned, stats
      ensures Value() == Clean(old(Value()), now, erase)
    {
      var expireDiff := windowSize * stats.Length;
      if now - lastCleaned < windowSize {
        return;
      }
      ghost var was := stats[..];
      for i := 0 to stats.Length
        invariant forall j | 0 <= j < i :: stats[j] == Swept(was[j], now, expireDiff, erase)
        invariant forall j | i <= j < stats.Length :: stats[j] == was[j]
      {
        var lastWrite := stats[i].stamp;
        if lastWrite != 0 && now - lastWrite >= expireDiff {
          stats[i] := Slot(0, erase(stats[i].val));
        }
      }
      lastCleaned := now;
      assert stats[..] == Clean(old(Value()), now, erase).slots;
    }

    method CurrentWindow(now: int) returns (cw: nat)
      requires Valid()
      ensures cw == Current(Value(), now)
    {
      cw := Mod((now - startTime) / windowSize, stats.Length);
    }

    /** Stamps a slot on its first write since it was erased. */
    method UpdateWriteTimestamp(now: int, cw: nat)
      requires Valid() && cw < stats.Length
      modifies stats
      ensures stats[..] == old(stats[..])[cw := Slot(if old(stats[cw].stamp) == 0 then WindowStart(startTime, windowSize, now)
                                                     else old(stats[cw].stamp), old(stats[cw].val))]
    {
      if stats[cw].stamp == 0 {
        stats[cw] := stats[cw].(stamp := WindowStart(startTime, windowSize, now));
      }
    }

    /** add and sub, for the change of member `f`. */
    method Update(now: int, f: M -> M)
      requires Valid()
      modifies this`lastCleaned, stats
      ensures Value() == Write(old(Value()), now, f, erase)
    {
      CleanWindows(now);
      var cw := CurrentWindow(now);
      stats[cw] := stats[cw].(val := f(stats[cw].val));
      UpdateWriteTimestamp(now, cw);
    }

    /** get: the current window. */
    method Get(now: int, get: M -> int) returns (r: int)
      requires Valid()
      modifies this`lastCleaned, stats
      ensures Value() == Clean(old(Value()), now, erase)
      ensures r == get(Value().slots[Current(Value(), now)].val)
    {
      CleanWindows(now);
      var cw := CurrentWindow(now);
      r := get(stats[cw].val);
    }

    /** get_windows: newest first. */
    method GetWindows(now: int, get: M -> int) returns (l: seq<int>)
      requires Valid()
      modifies this`lastCleaned, stats
      ensures Value() == Clean(old(Value()), now, erase)
      ensures l == WindowValues(Value(), now, get)
    {
      CleanWindows(now);
      var cw := CurrentWindow(now);
      var n := stats.Length;
      l := [];
      var i := cw + n;
      while i > cw
        invariant cw <= i <= cw + n && |l| == cw + n - i
        invariant forall k | 0 <= k < |l| :: l[k] == get(stats[Mod(cw + n - k, n)].val)
      {
        l := l + [get(stats[Mod(i, n)].val)];
        i := i - 1;
      }
    }

    /** get of a member whose get changes it: `touch`, then `get`. */
    method GetTouching(now: int, get: M -> int, touch: M -> M) returns (r: int)
      requires Valid()
      modifies this`lastCleaned, stats
      ensures Value() == Touch(old(Value()), now, touch, erase)
      ensures r == get(Value().slots[Current(Value(), now)].val)
    {
      CleanWindows(now);
      var cw := CurrentWindow(now);
      stats[cw] := stats[cw].(val := touch(stats[cw].val));
      r := get(stats[cw].val);
    }

    /** The loop of get_windows for a member that its get changes: every slot exactly once. */
    method VisitSlots(cw: nat, get: M -> int, touch: M -> M) returns (l: seq<int>)
      requires Valid() && cw < stats.Length
      modifies stats
      ensures forall j | 0 <= j < stats.Length :: stats[j] == Slot(old(stats[j].stamp), touch(old(stats[j].val)))
      ensures |l| == stats.Length
      ensures forall k | 0 <= k < |l| :: l[k] == get(stats[Mod(cw + stats.Length - k, stats.Length)].val)
    {
      hide Mod, VisitOf;
      var n := stats.Length;
      ghost var was := stats[..];
      l := [];
      var i := cw + n;
      while i > cw
        invariant cw <= i <= cw + n && |l| == cw + n - i
        invariant forall j | 0 <= j < n ::
                    stats[j] == if VisitOf(cw, n, j) < |l| then Slot(was[j].stamp, touch(was[j].val)) else was[j]
        invariant forall k | 0 <= k < |l| :: l[k] == get(touch(was[Mod(cw + n - k, n)].val))
      {
        var j := Mod(i, n);
        assert i == cw + n - |l|;
        forall k | 0 <= k < n
          ensures j == k <==> VisitOf(cw, n, k) == |l|
        {
          VisitOnce(cw, n, |l|, k);
        }
        stats[j] := Slot(stats[j].stamp, touch(stats[j].val));
        l := l + [get(stats[j].val)];
        i := i - 1;
      }
      VisitAll(cw, n);
    }

    /** get_windows of such a member. */
    method GetWindowsTouching(now: int, get: M -> int, touch: M -> M) returns (l: seq<int>)
      requires Valid()
      modifies this`lastCleaned, stats
      ensures Value() == TouchAll(old(Value()), now, touch, erase)
      ensures l == WindowValues(Value(), now, get)
    {
      hide Window, Mod;
      CleanWindows(now);
      var cw := CurrentWindow(now);
      l := VisitSlots(cw, get, touch);
      assert stats[..] == TouchAll(old(Value()), now, touch, erase).slots;
      assert Current(Value(), now) == cw;
      assert l == WindowValues(Value(), now, get);
    }

    /** Erases every slot; this does not scan. */
    method ResetSlots()
      requires Valid()
      modifies stats
      ensures Value() == Reset(old(Value()), erase)
    {
      ghost var was := stats[..];
      for i := 0 to stats.Length
        invariant forall j | 0 <= j < i :: stats[j] == Slot(0, erase(was[j].val))
        invariant forall j | i <= j < stats.Length :: stats[j] == was[j]
      {
        stats[i] := Slot(0, erase(stats[i].val));
      }
      assert stats[..] == Reset(old(Value()), erase).slots;
    }

    method Dump() returns (slots: seq<Slot<M>>, start: int)
      requires Valid()
      ensures slots == Value().slots && start == Value().start
    {
      slots, start := [], startTime;
      for i := 0 to stats.Length
        invariant slots == stats[..i]
      {
        slots := slots + [stats[i]];
      }
    }

    method RestoreFrom(slots: seq<Slot<M>>, start: int)
      requires Valid() && |slots| <= stats.Length && start > 0
      modifies this`startTime, this`lastCleaned, stats
      ensures Value() == Restore(old(Value()), slots, start)
    {
      startTime, lastCleaned := start, 0;
      ghost var was := stats[..];
      for j := 0 to |slots|
        invariant startTime == start && lastCleaned == 0
        invariant forall k | 0 <= k < j :: stats[k] == slots[k]
        invariant forall k | j <= k < stats.Length :: stats[k] == was[k]
      {
        stats[j] := slots[j];
      }
      assert stats[..] == slots + was[|slots|..];
    }

    /** A dump restored into a peer's entry with as many windows makes it a copy that is due to scan. */
    method SendTo(peer: TWStatsEntry<M>)
      requires Valid() && peer.Valid() && peer != this && peer.stats != stats
      requires peer.stats.Length == stats.Length && peer.windowSize == windowSize
      modifies peer`startTime, peer`lastCleaned, peer.stats
      ensures peer.Value() == Value().(cleaned := 0) && Value() == old(Value())
    {
      var slots, start := Dump();
      peer.RestoreFrom(slots, start);
      assert slots + old(peer.stats[..])[|slots|..] == slots;
    }
  }

  /** The turn of get_windows' loop that visits slot j. */
  function VisitOf(cw: nat, n: nat, j: nat): (k: nat)
    requires n > 0 && j < n
  {
    Mod(cw + n - j, n)
  }

  lemma VisitOnce(cw: nat, n: nat, k: nat, j: nat)
    requires 0 <= k < n && j < n
    ensures Mod(cw + n - k, n) == j <==> VisitOf(cw, n, j) == k
  {
    var p, q := (cw + n - k) / n, (cw + n - j) / n;
    if Mod(cw + n - k, n) == j { ModUnique(cw + n - j, n, p, k); }
    if Mod(cw + n - j, n) == k { ModUnique(cw + n - k, n, q, j); }
  }

  lemma VisitAll(cw: nat, n: nat)
    requires n > 0
    ensures forall j | 0 <= j < n :: VisitOf(cw, n, j) < n
  {
  }

  /** TWStatsMemberInt::sum over the ring. */
  method SumInts(slots: seq<Slot<int>>) returns (count: int)
    ensures count == SumSlots(slots)
  {
    count := 0;
    for i := 0 to |slots|
      invariant count == SumSlots(slots[..i])
    {
      assert slots[..i + 1][..i] == slots[..i];
      count := count + slots[i].val;
    }
    assert slots[..|slots|] == slots;
  }
}
