/**
 Reads with a string: get(s) and get_windows(s) ask each member about s, and asking a
 HyperLogLog adds s to it.  When such a read changes the entry, and what that does to the
 age of what later reads count.
 */
module StringReads {

  import opened Basics
  import opened Rings
  import opened Members
  import H = HyperLogLogs
  import R = Replication

  /** The member after get(s). */
  ghost function AfterGet(env: Env, m: Member, s: string): (r: Member)
  {
    if m.HllM? then HllM(H.Add(m.h, env.hllHash(s))) else m
  }

  /** get(s) of an entry: the current window's member is asked. */
  ghost function GetString(env: Env, r: Entry, now: int, s: string): (c: Entry)
  {
    Touch(r, now, (m: Member) => AfterGet(env, m, s), Erased)
  }

  /** get_windows(s): every member is asked. */
  ghost function GetWindowsString(env: Env, r: Entry, now: int, s: string): (c: Entry)
  {
    TouchAll(r, now, (m: Member) => AfterGet(env, m, s), Erased)
  }

  // ---------------------------------------------------------------- when a read changes the entry

  /** The register of x already holds a rank as large as that of x. */
  ghost predicate Covers(h: H.Sketch, x: H.Hash)
    requires H.SketchOk(h)
  {
    H.RankByte(h.b, x) <= h.regs[H.Index(h.b, x)]
  }

  ghost predicate Unmoved(env: Env, m: Member, s: string)
  {
    m.HllM? ==> Covers(m.h, env.hllHash(s))
  }

  lemma AddChangesIff(h: H.Sketch, x: H.Hash)
    requires H.SketchOk(h)
    ensures H.Add(h, x) == h <==> Covers(h, x)
  {
    hide H.RankByte, H.Index, H.Pow2;
    var i := H.Index(h.b, x);
    var a := H.Add(h, x);
    assert a.regs[i] == H.Max(H.RankByte(h.b, x), h.regs[i]);
    if Covers(h, x) {
      assert a.regs == h.regs;
    }
  }

  lemma AskedIff(env: Env, m: Member, s: string)
    ensures AfterGet(env, m, s) == m <==> Unmoved(env, m, s)
  {
    hide H.Add, Covers;
    if m.HllM? {
      AddChangesIff(m.h, env.hllHash(s));
    }
  }

  /** A read of the current window leaves the entry as an ordinary read does, exactly if its sketch covers the string. */
  lemma GetStringIff(env: Env, r: Entry, now: int, s: string)
    ensures var c := Clean(r, now, Erased);
            GetString(env, r, now, s) == c <==> Unmoved(env, c.slots[Current(c, now)].val, s)
  {
    hide AfterGet, Unmoved, Mod, Window;
    var c := Clean(r, now, Erased);
    var i, g := Current(c, now), GetString(env, r, now, s);
    AskedIff(env, c.slots[i].val, s);
    assert g.slots[i] == Slot(c.slots[i].stamp, AfterGet(env, c.slots[i].val, s));
    if Unmoved(env, c.slots[i].val, s) {
      assert g.slots == c.slots;
    }
  }

  /** A read of all windows, exactly if every slot's sketch does. */
  lemma GetWindowsStringIff(env: Env, r: Entry, now: int, s: string)
    ensures var c := Clean(r, now, Erased);
            GetWindowsString(env, r, now, s) == c <==> forall i | 0 <= i < |c.slots| :: Unmoved(env, c.slots[i].val, s)
  {
    hide AfterGet, Unmoved;
    var c := Clean(r, now, Erased);
    var g := GetWindowsString(env, r, now, s);
    forall i | 0 <= i < |c.slots|
      ensures g.slots[i] == c.slots[i] <==> Unmoved(env, c.slots[i].val, s)
    {
      AskedIff(env, c.slots[i].val, s);
    }
    if forall i | 0 <= i < |c.slots| :: Unmoved(env, c.slots[i].val, s) {
      assert g.slots == c.slots;
    }
  }

  /** A new sketch covers nothing, so every string changes it. */
  lemma EmptyCoversNothing(b: nat, x: H.Hash)
    requires 4 <= b <= 30
    ensures !Covers(H.Empty(b), x)
  {
    H.RankFits(b, x);
    OneOrMore(H.Rank(b, x));
  }

  lemma OneOrMore(n: nat)
    requires 1 <= n <= 29
    ensures n as bv8 > 0
  {
  }

  /** What a read leaves in an unstamped slot, no later cleaning removes. */
  lemma ReadStays(env: Env, r: Entry, now: int, s: string, later: int)
    requires var c := Clean(r, now, Erased);
             var slot := c.slots[Current(c, now)];
             slot.stamp == 0 && !Unmoved(env, slot.val, s)
    ensures var i, g := Current(r, now), GetString(env, r, now, s);
            && g.slots[i].val != Clean(r, now, Erased).slots[i].val
            && Clean(g, later, Erased).slots[i] == g.slots[i]
  {
    hide AfterGet, Unmoved, Mod, Window;
    var c := Clean(r, now, Erased);
    AskedIff(env, c.slots[Current(c, now)].val, s);
  }

  // ---------------------------------------------------------------- the age of what is counted

  /** A HyperLogLog member as the fold of the changes it received. */
  ghost function HllOf(env: Env, b: nat): (h: (nat, Log<Change>) -> Member)
    requires 4 <= b <= 30
  {
    (i, l) => Fold(env, HllM(H.Empty(b)), Vals(l))
  }

  lemma {:induction false} FoldIsHll(env: Env, b: nat, vals: seq<Change>)
    requires 4 <= b <= 30
    ensures Fold(env, HllM(H.Empty(b)), vals).HllM?
  {
    hide H.Add, H.Empty;
    if vals != [] {
      FoldIsHll(env, b, vals[..|vals| - 1]);
    }
  }

  lemma BlankHll(b: nat)
    requires 4 <= b <= 30
    ensures Erased(HllM(H.Empty(b))) == HllM(H.Empty(b))
  {
  }

  lemma PeekIsGet(env: Env, b: nat, r: Ring<Log<Change>>, now: int, s: string)
    requires 4 <= b <= 30 && RingOk(r)
    ensures MapRing(Peek(r, now, R.AddStr(s)), HllOf(env, b)) == GetString(env, MapRing(r, HllOf(env, b)), now, s)
    ensures MapRing(PeekAll(r, now, R.AddStr(s)), HllOf(env, b)) == GetWindowsString(env, MapRing(r, HllOf(env, b)), now, s)
    ensures MapRing(CleanLog(r, now), HllOf(env, b)) == Clean(MapRing(r, HllOf(env, b)), now, Erased)
  {
    hide Fold, Touch, TouchAll, Clean, H.Add, H.Empty;
    var h, ea, fa := HllOf(env, b), (l: Log<Change>) => [], (l: Log<Change>) => l + [Event(now, R.AddStr(s))];
    var fb := (m: Member) => AfterGet(env, m, s);
    var init := HllM(H.Empty(b));
    BlankHll(b);
    forall i: nat, l
      ensures h(i, ea(l)) == Erased(h(i, l))
      ensures h(i, fa(l)) == fb(h(i, l))
    {
      ErasedFold(env, init, Vals(l));
      FoldNone(env, init);
      assert Vals(l + [Event(now, R.AddStr(s))]) == Vals(l) + [R.AddStr(s)];
      FoldSnoc(env, init, Vals(l), R.AddStr(s));
      FoldIsHll(env, b, Vals(l));
    }
    CleanNatural(r, now, h, ea, Erased);
    TouchNatural(r, now, h, fa, fb, ea, Erased);
  }

  lemma StampsMapped(r: Ring<Log<Change>>, now: int, h: (nat, Log<Change>) -> Member)
    requires RingOk(r)
    ensures var c, m := CleanLog(r, now), MapRing(CleanLog(r, now), h);
            && RingOk(m) && Current(m, now) == Current(r, now) && |m.slots| == |r.slots|
            && forall i | 0 <= i < |r.slots| :: m.slots[i].stamp == c.slots[i].stamp
  {
  }

  /**
   A HyperLogLog field whose ring has kept the staleness bound keeps it through a
   string-valued read, for all runs that follow, if and only if the slots the read changes
   are stamped: the current one for get(s), all of them for get_windows(s).
   */
  lemma ReadKeepsBoundIff(env: Env, b: nat, r: Ring<Log<Change>>, t: int, now: int, s: string, skew: nat)
    requires 4 <= b <= 30 && Fresh(r, t, skew) && t <= now
    ensures var e := MapRing(r, HllOf(env, b));
            var c := Clean(e, now, Erased);
            var p, q := Peek(r, now, R.AddStr(s)), PeekAll(r, now, R.AddStr(s));
            && MapRing(p, HllOf(env, b)) == GetString(env, e, now, s)
            && MapRing(q, HllOf(env, b)) == GetWindowsString(env, e, now, s)
            && (NeverStale(p, now, skew) <==> c.slots[Current(c, now)].stamp != 0)
            && (NeverStale(q, now, skew) <==> forall i | 0 <= i < |c.slots| :: c.slots[i].stamp != 0)
  {
    hide NeverStale, Peek, PeekAll, GetString, GetWindowsString, Clean, CleanLog, Mod, Window, SlotOk, HllOf;
    PeekIsGet(env, b, r, now, s);
    StampsMapped(r, now, HllOf(env, b));
    PeekNeverStaleIff(r, t, now, R.AddStr(s), skew);
    PeekAllNeverStaleIff(r, t, now, R.AddStr(s), skew);
  }
}
