/**
 The three kinds of statistics members, what the calls do to each, and the convergence
 of replicas that receive the same changes in different orders.  Parsing and printing
 integers and hashing strings are arguments.
 */
module Members {

  import opened Basics
  import opened Rings
  import opened WindowSums
  import opened SumConditions
  import C = CountMin
  import H = HyperLogLogs
  import Replication
  import DB = StatsDBs

  type Change = Replication.Change

  /** The 32-bit words of the floats a count-min sketch was made with. */
  datatype Shape = Shape(eps: int, gamma: int)

  datatype RawMember = IntM(i: int) | HllM(h: H.Sketch) | CmM(shape: Shape, c: C.Sketch)

  predicate MemberOk(m: RawMember)
  {
    match m
    case IntM(_) => true
    case HllM(h) => H.SketchOk(h)
    case CmM(_, c) => C.SketchOk(c)
  }

  type Member = m: RawMember | MemberOk(m) witness IntM(0)

  /** std::stoi may throw; the hashes are those of the two sketches. */
  datatype Env = Env(stoi: string -> Option<int>, number: int -> string, hllHash: string -> H.Hash, cmHash: string -> int)

  /** add and sub of the members; None if the call throws. */
  ghost function Changed(env: Env, m: Member, ch: Change): (r: Option<Member>)
  {
    match m
    case IntM(i) =>
      (match ch
       case AddInt(a) => Some(IntM(i + a))
       case AddStr(s) => (match env.stoi(s) case Some(a) => Some(IntM(i + a)) case None => None)
       case AddStrInt(_, _) => Some(m)
       case SubInt(a) => Some(IntM(i - a))
       case SubStr(s) => (match env.stoi(s) case Some(a) => Some(IntM(i - a)) case None => None))
    case HllM(h) =>
      (match ch
       case AddInt(a) => Some(HllM(H.Add(h, env.hllHash(env.number(a)))))
       case AddStr(s) => Some(HllM(H.Add(h, env.hllHash(s))))
       case _ => Some(m))
    case CmM(sh, c) =>
      match ch
      case AddStr(s) => Some(CmM(sh, C.Update(c, env.cmHash(s), 1)))
      case AddStrInt(s, a) => Some(CmM(sh, C.Update(c, env.cmHash(s), a)))
      case _ => Some(m)
  }

  ghost function Put1(env: Env, m: Member, ch: Change): (r: Member)
  {
    match Changed(env, m, ch)
    case Some(x) => x
    case None => m
  }

  ghost function Erased(m: Member): (r: Member)
  {
    match m
    case IntM(_) => IntM(0)
    case HllM(h) => HllM(H.Empty(h.b))
    case CmM(sh, c) => CmM(sh, C.Erase(c))
  }

  // ---------------------------------------------------------------- changes commute

  lemma HllCommutes(s: H.Sketch, x: H.Hash, y: H.Hash)
    requires H.SketchOk(s)
    ensures H.Add(H.Add(s, x), y) == H.Add(H.Add(s, y), x)
  {
    hide H.RankByte, H.Index;
    RaisesCommute(s.regs, H.Index(s.b, x), H.RankByte(s.b, x), H.Index(s.b, y), H.RankByte(s.b, y));
  }

  lemma RaisesCommute(regs: seq<bv8>, i: nat, x: bv8, j: nat, y: bv8)
    requires i < |regs| && j < |regs|
    ensures var r := regs[i := H.Max(x, regs[i])];
            var t := regs[j := H.Max(y, regs[j])];
            r[j := H.Max(y, r[j])] == t[i := H.Max(x, t[i])]
  {
    hide H.Max;
    MaxCommutes(x, y, regs[i]);
  }

  lemma MaxCommutes(x: bv8, y: bv8, z: bv8)
    ensures H.Max(y, H.Max(x, z)) == H.Max(x, H.Max(y, z))
  {
  }

  lemma CmCommutes(s: C.Sketch, x: int, a: int, y: int, b: int)
    requires C.SketchOk(s)
    ensures C.Update(C.Update(s, x, a), y, b) == C.Update(C.Update(s, y, b), x, a)
  {
    hide C.Column;
    var p, q := C.Update(C.Update(s, x, a), y, b).cells, C.Update(C.Update(s, y, b), x, a).cells;
    forall j | 0 <= j < |p|
      ensures p[j] == q[j]
    {
      BumpsCommute(s.cells[j], C.Column(s.hashes[j], s.width, x), a, C.Column(s.hashes[j], s.width, y), b);
    }
    assert p == q;
  }

  lemma BumpsCommute(row: seq<int>, v: nat, a: int, w: nat, b: int)
    requires v < |row| && w < |row|
    ensures C.Bump(C.Bump(row, v, a), w, b) == C.Bump(C.Bump(row, w, b), v, a)
  {
  }

  /** Any two changes of a member commute. */
  lemma ChangesCommute(env: Env, m: Member, a: Change, b: Change)
    ensures Put1(env, Put1(env, m, a), b) == Put1(env, Put1(env, m, b), a)
  {
    hide H.Add, C.Update;
    match m
    case IntM(_) =>
    case HllM(h) =>
      forall x, y { HllCommutes(h, x, y); }
    case CmM(_, c) =>
      forall x, k, y, l { CmCommutes(c, x, k, y, l); }
  }

  // ---------------------------------------------------------------- order does not matter

  ghost function Fold(env: Env, init: Member, vals: seq<Change>): (r: Member)
  {
    if vals == [] then init else Put1(env, Fold(env, init, vals[..|vals| - 1]), vals[|vals| - 1])
  }

  lemma FoldSnoc(env: Env, init: Member, vals: seq<Change>, v: Change)
    ensures Fold(env, init, vals + [v]) == Put1(env, Fold(env, init, vals), v)
  {
    hide Put1;
    assert (vals + [v])[..|vals|] == vals;
  }

  /** A change can be moved past later ones. */
  lemma {:induction false} FoldMoves(env: Env, init: Member, a: seq<Change>, x: Change, b: seq<Change>)
    ensures Fold(env, init, a + [x] + b) == Fold(env, init, a + b + [x])
    decreases |b|
  {
    hide Put1, Fold;
    if b == [] {
      assert a + [x] + b == a + [x] == a + b + [x];
    } else {
      var c, y := b[..|b| - 1], b[|b| - 1];
      assert a + [x] + b == (a + [x] + c) + [y] && a + b == (a + c) + [y];
      FoldMoves(env, init, a, x, c);
      FoldSnoc(env, init, a + [x] + c, y);
      FoldSnoc(env, init, a + c, x);
      FoldSnoc(env, init, a + c, y);
      FoldSnoc(env, init, a + b, x);
      ChangesCommute(env, Fold(env, init, a + c), x, y);
    }
  }

  lemma CancelOne(p: multiset<Change>, q: multiset<Change>, r: multiset<Change>, x: Change)
    requires p + multiset{x} + q == r + multiset{x}
    ensures p + q == r
  {
    assert (p + multiset{x} + q) - multiset{x} == p + q;
    assert (r + multiset{x}) - multiset{x} == r;
  }

  /** A member depends only on which changes it received, and how often each. */
  lemma {:induction false} FoldPermutes(env: Env, init: Member, a: seq<Change>, b: seq<Change>)
    requires multiset(a) == multiset(b)
    ensures Fold(env, init, a) == Fold(env, init, b)
    decreases |a|
  {
    hide Put1;
    if a == [] {
      assert |b| == |multiset(b)| == 0;
    } else {
      var rest, x := a[..|a| - 1], a[|a| - 1];
      assert a == rest + [x];
      assert x in multiset(a);
      var i :| 0 <= i < |b| && b[i] == x;
      var p, q := b[..i], b[i + 1..];
      assert b == p + [x] + q;
      assert multiset(b) == multiset(p) + multiset{x} + multiset(q);
      assert multiset(a) == multiset(rest) + multiset{x};
      CancelOne(multiset(p), multiset(q), multiset(rest), x);
      assert multiset(p + q) == multiset(p) + multiset(q);
      FoldPermutes(env, init, rest, p + q);
      FoldMoves(env, init, p, x, q);
      FoldSnoc(env, init, p + q, x);
    }
  }

  // ---------------------------------------------------------------- member rings follow log rings

  /** An erased member stays what it was created as. */
  lemma ErasedAfterPut(env: Env, m: Member, ch: Change)
    ensures Erased(Put1(env, m, ch)) == Erased(m)
  {
    hide H.Add, C.Update, H.Empty, C.Empty;
  }

  lemma {:induction false} ErasedFold(env: Env, init: Member, vals: seq<Change>)
    requires Erased(init) == init
    ensures Erased(Fold(env, init, vals)) == init
  {
    hide Put1, Erased;
    if vals == [] {
    } else {
      ErasedFold(env, init, vals[..|vals| - 1]);
      ErasedAfterPut(env, Fold(env, init, vals[..|vals| - 1]), vals[|vals| - 1]);
    }
  }

  /** The members a new entry is made of, one per slot: each has its own sketch parameters. */
  ghost predicate Blank(init: seq<Member>)
  {
    forall i | 0 <= i < |init| :: Erased(init[i]) == init[i]
  }

  ghost function InitAt(init: seq<Member>, i: nat): (m: Member)
  {
    if i < |init| then init[i] else IntM(0)
  }

  ghost function MemberOf(env: Env, init: seq<Member>): (h: (nat, Log<Change>) -> Member)
  {
    (i, l) => Fold(env, InitAt(init, i), Vals(l))
  }

  ghost function MemberStep(env: Env, r: Ring<Member>, now: int, op: Op<Change>): (c: Ring<Member>)
    requires RingOk(r)
    ensures RingOk(c)
  {
    match op
    case Put(ch) => Write(r, now, (m: Member) => Put1(env, m, ch), Erased)
    case Read => Clean(r, now, Erased)
    case ResetAll => Reset(r, Erased)
    case Load(_, _) => r
  }

  ghost function MemberRun(env: Env, r: Ring<Member>, ops: seq<(int, Op<Change>)>): (c: Ring<Member>)
    requires RingOk(r)
    ensures RingOk(c)
    decreases |ops|
  {
    if ops == [] then r else MemberRun(env, MemberStep(env, r, ops[0].0, ops[0].1), ops[1..])
  }

  lemma MemberStepIsFold(env: Env, init: seq<Member>, r: Ring<Log<Change>>, now: int, op: Op<Change>)
    requires RingOk(r) && !op.Load? && OpOk(r, now, op) && Blank(init)
    ensures MapRing(Step(r, now, op), MemberOf(env, init)) == MemberStep(env, MapRing(r, MemberOf(env, init)), now, op)
    ensures MapRing(CleanLog(r, now), MemberOf(env, init)) == Clean(MapRing(r, MemberOf(env, init)), now, Erased)
  {
    hide Fold, Put1, Clean, Write, Reset, MapRing;
    var h, ea := MemberOf(env, init), (l: Log<Change>) => [];
    forall i: nat, l
      ensures h(i, ea(l)) == Erased(h(i, l))
    {
      ErasedFold(env, InitAt(init, i), Vals(l));
      FoldNone(env, InitAt(init, i));
    }
    CleanNatural(r, now, h, ea, Erased);
    if op.Put? {
      var fa, fb := (l: Log<Change>) => l + [Event(now, op.val)], (m: Member) => Put1(env, m, op.val);
      forall i: nat, l
        ensures h(i, fa(l)) == fb(h(i, l))
      {
        assert Vals(l + [Event(now, op.val)]) == Vals(l) + [op.val];
        FoldSnoc(env, InitAt(init, i), Vals(l), op.val);
      }
      WriteNatural(r, now, h, fa, fb, ea, Erased);
    }
  }

  lemma FoldNone(env: Env, init: Member)
    ensures Fold(env, init, Vals([])) == init
  {
  }

  lemma {:induction false} MemberRunIsFold(env: Env, init: seq<Member>, r: Ring<Log<Change>>, t: int, ops: seq<(int, Op<Change>)>)
    requires RingOk(r) && RunOk(r, t, ops) && NoLoad(ops) && Blank(init)
    ensures MapRing(Run(r, t, ops), MemberOf(env, init)) == MemberRun(env, MapRing(r, MemberOf(env, init)), ops)
    decreases |ops|
  {
    hide MemberStep, MapRing, Step, Blank;
    if ops == [] {
    } else {
      MemberStepIsFold(env, init, r, ops[0].0, ops[0].1);
      MemberRunIsFold(env, init, Step(r, ops[0].0, ops[0].1), ops[0].0, ops[1..]);
    }
  }

  // ---------------------------------------------------------------- convergence

  /** The same changes in every window of the last n, in any order. */
  ghost predicate SameChanges(x: Log<Change>, y: Log<Change>, start: int, size: int, d: int, n: nat)
    requires size > 0
  {
    forall w | d - n < w <= d ::
      multiset(Vals(Filter(x, start, size, w))) == multiset(Vals(Filter(y, start, size, w)))
  }

  /** Blank members that two nodes make for the same field: a count-min sketch draws its own coefficients. */
  predicate Twins(a: Member, b: Member)
  {
    match a
    case CmM(_, c) => b.CmM? && b.c.width == c.width && |b.c.hashes| == |c.hashes|
    case _ => a == b
  }

  /** Equal, except that the counters of two count-min sketches are equal if their columns are; their totals are anyway. */
  ghost predicate Agrees(a: Member, b: Member)
  {
    match a
    case CmM(_, c) =>
      b.CmM? && b.c.total == c.total && b.c.width == c.width
      && (C.SameColumns(c.width, c.hashes, b.c.hashes) ==> b.c.cells == c.cells)
    case _ => a == b
  }

  ghost predicate SlotsAgree(a: seq<Slot<Member>>, b: seq<Slot<Member>>)
  {
    |a| == |b| && forall j | 0 <= j < |a| :: a[j].stamp == b[j].stamp && Agrees(a[j].val, b[j].val)
  }

  lemma FoldsAgree(env: Env, a: Member, b: Member, vals: seq<Change>)
    requires Twins(a, b) && Erased(a) == a && Erased(b) == b
    ensures Agrees(Fold(env, a, vals), Fold(env, b, vals))
  {
    hide Fold, C.SameColumns, C.After, H.After, C.Empty;
    FoldMeans(env, a, vals);
    FoldMeans(env, b, vals);
    if a.CmM? {
      var log, w := CountsOf(env, vals), a.c.width;
      C.TotalIsSum(w, a.c.hashes, log);
      C.TotalIsSum(w, b.c.hashes, log);
      if C.SameColumns(w, a.c.hashes, b.c.hashes) {
        C.SameColumnsSameCells(w, a.c.hashes, b.c.hashes, log);
      }
    }
  }

  /** Two slots whose logs hold the same changes in any order hold agreeing members. */
  lemma SlotMembersAgree(env: Env, a: seq<Member>, b: seq<Member>, x: Ring<Log<Change>>, y: Ring<Log<Change>>, i: nat, j: nat)
    requires |x.slots| == |a| && |y.slots| == |b| && Blank(a) && Blank(b) && i < |a| && j < |b| && Twins(a[i], b[j])
    requires multiset(Vals(x.slots[i].val)) == multiset(Vals(y.slots[j].val))
    ensures var p, q := MapRing(x, MemberOf(env, a)).slots[i], MapRing(y, MemberOf(env, b)).slots[j];
            && p.stamp == x.slots[i].stamp && q.stamp == y.slots[j].stamp
            && Agrees(p.val, q.val) && (a[i] == b[j] ==> p.val == q.val)
            && (x.slots[i].val == [] <==> y.slots[j].val == [])
  {
    hide Fold, Agrees, Twins, Erased;
    var va, vb := Vals(x.slots[i].val), Vals(y.slots[j].val);
    assert |va| == |multiset(va)| && |vb| == |multiset(vb)|;
    FoldPermutes(env, b[j], va, vb);
    FoldsAgree(env, a[i], b[j], va);
    assert MemberOf(env, a)(i, x.slots[i].val) == Fold(env, InitAt(a, i), va);
    assert MemberOf(env, b)(j, y.slots[j].val) == Fold(env, InitAt(b, j), vb);
  }

  /** Two exact rings with the same changes in every window hold agreeing members and the same stamps. */
  lemma ExactRingsAgree(env: Env, a: seq<Member>, b: seq<Member>, x: Ring<Log<Change>>, y: Ring<Log<Change>>,
                        hx: Log<Change>, hy: Log<Change>, d: int)
    requires RingOk(x) && RingOk(y) && |x.slots| == |y.slots| == |a| == |b| && x.size == y.size && x.start == y.start
    requires Blank(a) && Blank(b) && forall j | 0 <= j < |a| :: Twins(a[j], b[j])
    requires Exact(x, hx, d) && Exact(y, hy, d) && SameChanges(hx, hy, x.start, x.size, d, |x.slots|)
    ensures SlotsAgree(MapRing(x, MemberOf(env, a)).slots, MapRing(y, MemberOf(env, b)).slots)
    ensures a == b ==> MapRing(x, MemberOf(env, a)).slots == MapRing(y, MemberOf(env, b)).slots
  {
    hide Fold, Filter, WindowOf, Agrees, Twins, Erased;
    var n := |x.slots|;
    var p, q := MapRing(x, MemberOf(env, a)).slots, MapRing(y, MemberOf(env, b)).slots;
    forall j | 0 <= j < n
      ensures p[j].stamp == q[j].stamp && Agrees(p[j].val, q[j].val) && (a == b ==> p[j] == q[j])
    {
      var w := WindowOf(d, n, j);
      WindowOfRange(d, n, j);
      assert SlotExact(x.slots[j], hx, x.start, x.size, w) && SlotExact(y.slots[j], hy, x.start, x.size, w);
      SlotMembersAgree(env, a, b, x, y, j, j);
    }
    if a == b {
      assert p == q;
    }
  }

  lemma WindowOfRange(d: int, n: int, j: int)
    requires n > 0 && 0 <= j < n
    ensures d - n < WindowOf(d, n, j) <= d
  {
  }

  function NewEntry(init: seq<Member>, size: int, start: int): (r: Ring<Member>)
    requires |init| > 0 && size > 0 && start > 0
    ensures RingOk(r)
  {
    Ring(seq(|init|, i requires 0 <= i < |init| => Slot(0, init[i])), size, start, 0)
  }

  /** The newest window that a read at `now` shows after the operations on a new entry. */
  ghost function Newest(env: Env, init: seq<Member>, size: int, start: int, ops: seq<(int, Op<Change>)>, now: int): (w: int)
    requires |init| > 0 && size > 0 && start > 0
  {
    Shown(MemberRun(env, NewEntry(init, size, start), ops), now)
  }

  /**
   Replicas converge: two entries made of blank members of the same kind that receive, in
   any order and at any times, the same changes per window, whose writes meet the guard, and
   whose reads at `now` show the same windows, hold after that read the same stamps,
   integers, HyperLogLog registers and count-min totals in every slot, and the same
   count-min counters where the coefficients put every item in the same columns.
   */
  lemma {:induction false} ReplicasConverge(env: Env, a: seq<Member>, b: seq<Member>, size: int, start: int,
                                            x: seq<(int, Op<Change>)>, y: seq<(int, Op<Change>)>, now: int)
    requires |a| == |b| > 0 && size > 0 && start > 0 && Blank(a) && Blank(b)
    requires forall j | 0 <= j < |a| :: Twins(a[j], b[j])
    requires LegalRun(|a|, size, start, x, now) && LegalRun(|a|, size, start, y, now)
    requires Newest(env, a, size, start, x, now) == Newest(env, b, size, start, y, now)
    requires SameChanges(HistOf([], x), HistOf([], y), start, size, Newest(env, a, size, start, x, now), |a|)
    ensures var p := Clean(MemberRun(env, NewEntry(a, size, start), x), now, Erased).slots;
            var q := Clean(MemberRun(env, NewEntry(b, size, start), y), now, Erased).slots;
            SlotsAgree(p, q) && (a == b ==> p == q)
  {
    hide LegalRun, Clean, MemberRun, MapRing, SameChanges, NewEntry, CleanLog, SlotsAgree, Twins, Newest, HistOk;
    var p, _ := OneReplica(env, a, size, start, x, now);
    var q, _ := OneReplica(env, b, size, start, y, now);
    ExactRingsAgree(env, a, b, p, q, HistOf([], x), HistOf([], y), Newest(env, a, size, start, x, now));
  }

  /** Reads that show different windows never agree. */
  lemma DifferentWindowsDisagree(env: Env, a: seq<Member>, b: seq<Member>, size: int, start: int,
                                 x: seq<(int, Op<Change>)>, y: seq<(int, Op<Change>)>, now: int)
    requires |a| == |b| > 0 && size > 0 && start > 0 && Blank(a) && Blank(b)
    requires LegalRun(|a|, size, start, x, now) && LegalRun(|a|, size, start, y, now)
    requires Newest(env, a, size, start, x, now) != Newest(env, b, size, start, y, now)
    ensures !SlotsAgree(Clean(MemberRun(env, NewEntry(a, size, start), x), now, Erased).slots,
                        Clean(MemberRun(env, NewEntry(b, size, start), y), now, Erased).slots)
  {
    hide RunOk, Run, WritesGuarded, HistOf, Clean, MemberRun, CleanLog, Agrees, Guard, Tracks, Current, Fold;
    var s := LegalTracks(|a|, size, start, x, now);
    var t := LegalTracks(|a|, size, start, y, now);
    var p, q := Run(NewRing<Change>(|a|, size, start), start, x), Run(NewRing<Change>(|a|, size, start), start, y);
    ReadIsFold(env, a, size, start, x, now);
    ReadIsFold(env, b, size, start, y, now);
    if Guard(p, now) {
      ShownDiffers(p, HistOf([], x), s, q, now);
    } else {
      ShownDiffers(q, HistOf([], y), t, p, now);
    }
    StampsMapped(CleanLog(p, now), MemberOf(env, a));
    StampsMapped(CleanLog(q, now), MemberOf(env, b));
    SameCurrent(p, q, now);
    var i := Current(p, now);
    assert Clean(MemberRun(env, NewEntry(a, size, start), x), now, Erased).slots[i].stamp
        != Clean(MemberRun(env, NewEntry(b, size, start), y), now, Erased).slots[i].stamp;
  }

  /**
   After the same changes in each of the last n + 1 windows, two reads at `now` agree if and
   only if both meet the guard or neither does.
   */
  lemma {:induction false} ReadsAgreeIff(env: Env, a: seq<Member>, b: seq<Member>, size: int, start: int,
                                         x: seq<(int, Op<Change>)>, y: seq<(int, Op<Change>)>, now: int)
    requires |a| == |b| > 0 && size > 0 && start > 0 && Blank(a) && Blank(b)
    requires forall j | 0 <= j < |a| :: Twins(a[j], b[j])
    requires LegalRun(|a|, size, start, x, now) && LegalRun(|a|, size, start, y, now)
    requires SameChanges(HistOf([], x), HistOf([], y), start, size, Window(start, size, now), |a| + 1)
    ensures var p, q := MemberRun(env, NewEntry(a, size, start), x), MemberRun(env, NewEntry(b, size, start), y);
            && (SlotsAgree(Clean(p, now, Erased).slots, Clean(q, now, Erased).slots) <==> Guard(p, now) == Guard(q, now))
            && (a == b && Guard(p, now) == Guard(q, now) ==> Clean(p, now, Erased).slots == Clean(q, now, Erased).slots)
            && (Shown(p, now) == Shown(q, now) <==> Guard(p, now) == Guard(q, now))
  {
    hide LegalRun, Clean, MemberRun, NewEntry, SlotsAgree, Twins, HistOf, Guard, Window, Filter;
    var p, q := MemberRun(env, NewEntry(a, size, start), x), MemberRun(env, NewEntry(b, size, start), y);
    RunKeepsShape(env, NewEntry(a, size, start), x);
    RunKeepsShape(env, NewEntry(b, size, start), y);
    NewShape(a, size, start);
    NewShape(b, size, start);
    if Guard(p, now) == Guard(q, now) {
      ReplicasConverge(env, a, b, size, start, x, y, now);
    } else {
      DifferentWindowsDisagree(env, a, b, size, start, x, y, now);
    }
  }

  lemma NewShape(init: seq<Member>, size: int, start: int)
    requires |init| > 0 && size > 0 && start > 0
    ensures var r := NewEntry(init, size, start); r.size == size && r.start == start && |r.slots| == |init|
  {
  }

  lemma {:induction false} RunKeepsShape(env: Env, r: Ring<Member>, ops: seq<(int, Op<Change>)>)
    requires RingOk(r)
    ensures var c := MemberRun(env, r, ops); c.size == r.size && c.start == r.start && |c.slots| == |r.slots|
    decreases |ops|
  {
    hide Clean, Write, Reset;
    if ops != [] {
      RunKeepsShape(env, MemberStep(env, r, ops[0].0, ops[0].1), ops[1..]);
    }
  }

  lemma StampsMapped<A, B>(r: Ring<A>, h: (nat, A) -> B)
    ensures forall i | 0 <= i < |r.slots| :: MapRing(r, h).slots[i].stamp == r.slots[i].stamp
  {
  }

  lemma SameCurrent(p: Ring<Log<Change>>, q: Ring<Log<Change>>, now: int)
    requires RingOk(p) && RingOk(q) && p.start == q.start && p.size == q.size && |p.slots| == |q.slots|
    ensures Current(p, now) == Current(q, now)
  {
  }

  /** The entry's read is the log ring's, seen through the members. */
  lemma ReadIsFold(env: Env, init: seq<Member>, size: int, start: int, ops: seq<(int, Op<Change>)>, now: int)
    requires |init| > 0 && size > 0 && start > 0 && Blank(init) && LegalRun(|init|, size, start, ops, now)
    ensures var r := Run(NewRing<Change>(|init|, size, start), start, ops);
            && MapRing(CleanLog(r, now), MemberOf(env, init)) == Clean(MemberRun(env, NewEntry(init, size, start), ops), now, Erased)
            && Newest(env, init, size, start, ops, now) == Shown(r, now)
  {
    hide Exact, HistOk, Window, Guard, Clean, MemberRun, MapRing, Fold, HistOf, CleanLog;
    var r0, h := NewRing<Change>(|init|, size, start), MemberOf(env, init);
    var last := LegalTracks(|init|, size, start, ops, now);
    var r := Run(r0, start, ops);
    MemberRunIsFold(env, init, r0, start, ops);
    NewEntryIsFold(env, init, size, start);
    ReadIsLegal(r, now, last);
    MemberStepIsFold(env, init, r, now, Read);
    MappedShown(r, h, now);
  }

  lemma MappedShown<A, B>(r: Ring<A>, h: (nat, A) -> B, now: int)
    requires RingOk(r)
    ensures RingOk(MapRing(r, h)) && Shown(MapRing(r, h), now) == Shown(r, now)
  {
    hide Mod, Window, WindowStart;
  }

  /** The log ring that a read finds, exact for the window it shows, `at` being a time in it. */
  lemma OneReplica(env: Env, init: seq<Member>, size: int, start: int, ops: seq<(int, Op<Change>)>, now: int)
    returns (c: Ring<Log<Change>>, at: int)
    requires |init| > 0 && size > 0 && start > 0 && Blank(init)
    requires LegalRun(|init|, size, start, ops, now)
    ensures RingOk(c) && |c.slots| == |init| && c.size == size && c.start == start
    ensures at <= now && Window(start, size, at) == Newest(env, init, size, start, ops, now)
    ensures Exact(c, HistOf([], ops), Window(start, size, at)) && HistOk(HistOf([], ops), start, size, Window(start, size, at))
    ensures MapRing(c, MemberOf(env, init)) == Clean(MemberRun(env, NewEntry(init, size, start), ops), now, Erased)
  {
    hide RunOk, Run, WritesGuarded, Exact, HistOk, Shown, Clean, MemberRun, MapRing, HistOf, CleanLog, Newest;
    var last := LegalTracks(|init|, size, start, ops, now);
    var r := Run(NewRing<Change>(|init|, size, start), start, ops);
    at := ReadShows(r, HistOf([], ops), last, now);
    ReadIsFold(env, init, size, start, ops, now);
    c := CleanLog(r, now);
  }

  lemma ReadIsLegal(r: Ring<Log<Change>>, now: int, t: int)
    requires RingOk(r) && r.start <= t <= now
    ensures OpOk(r, now, Read)
  {
  }

  lemma NewEntryIsFold(env: Env, init: seq<Member>, size: int, start: int)
    requires |init| > 0 && size > 0 && start > 0
    ensures MapRing(NewRing<Change>(|init|, size, start), MemberOf(env, init)) == NewEntry(init, size, start)
  {
    hide Fold;
    var a, b := MapRing(NewRing<Change>(|init|, size, start), MemberOf(env, init)), NewEntry(init, size, start);
    forall i | 0 <= i < |init|
      ensures a.slots[i] == b.slots[i]
    {
      FoldNone(env, init[i]);
      var none: Log<Change> := [];
      assert a.slots[i] == Slot(0, MemberOf(env, init)(i, none));
      assert MemberOf(env, init)(i, none) == Fold(env, InitAt(init, i), Vals(none));
    }
    assert a.slots == b.slots;
  }

  // ---------------------------------------------------------------- what the members mean

  /** What a change counts for in an integer field. */
  function Delta(env: Env, ch: Change): (d: int)
  {
    match ch
    case AddInt(a) => a
    case SubInt(a) => -a
    case AddStr(s) => (match env.stoi(s) case Some(a) => a case None => 0)
    case SubStr(s) => (match env.stoi(s) case Some(a) => -a case None => 0)
    case AddStrInt(_, _) => 0
  }

  function Deltas(env: Env, vals: seq<Change>): (n: int)
  {
    if vals == [] then 0 else Deltas(env, vals[..|vals| - 1]) + Delta(env, vals[|vals| - 1])
  }

  /** The items a HyperLogLog field counts: strings, and integers as they print. */
  function ItemsOf(env: Env, vals: seq<Change>): (hs: seq<H.Hash>)
  {
    if vals == [] then [] else
      ItemsOf(env, vals[..|vals| - 1])
      + (match vals[|vals| - 1]
         case AddInt(a) => [env.hllHash(env.number(a))]
         case AddStr(s) => [env.hllHash(s)]
         case _ => [])
  }

  /** The updates of a count-min field: a string counts once unless it comes with a number. */
  function CountsOf(env: Env, vals: seq<Change>): (cs: seq<C.Count>)
  {
    if vals == [] then [] else
      CountsOf(env, vals[..|vals| - 1])
      + (match vals[|vals| - 1]
         case AddStr(s) => [C.Count(env.cmHash(s), 1)]
         case AddStrInt(s, a) => [C.Count(env.cmHash(s), a)]
         case _ => [])
  }

  /** The member that the changes make of a blank one. */
  ghost predicate Means(env: Env, init: Member, vals: seq<Change>, m: Member)
  {
    match init
    case IntM(i) => m == IntM(i + Deltas(env, vals))
    case HllM(h) => m == HllM(H.After(h, ItemsOf(env, vals)))
    case CmM(sh, c) => m == CmM(sh, C.After(c, CountsOf(env, vals)))
  }

  /** Folding the changes adds and subtracts integers, adds items to registers and counts strings. */
  lemma {:induction false} FoldMeans(env: Env, init: Member, vals: seq<Change>)
    ensures Means(env, init, vals, Fold(env, init, vals))
  {
    hide H.Add, C.Update, H.SketchOk, C.SketchOk;
    if vals == [] {
    } else {
      var rest, v := vals[..|vals| - 1], vals[|vals| - 1];
      FoldMeans(env, init, rest);
      match init
      case IntM(_) =>
      case HllM(h) =>
        var items := ItemsOf(env, rest);
        assert items + [] == items;
        if v.AddInt? { HllSnoc(h, items, env.hllHash(env.number(v.a))); }
        if v.AddStr? { HllSnoc(h, items, env.hllHash(v.s)); }
      case CmM(_, c) =>
        var log := CountsOf(env, rest);
        assert log + [] == log;
        if v.AddStr? { CmSnoc(c, log, C.Count(env.cmHash(v.s), 1)); }
        if v.AddStrInt? { CmSnoc(c, log, C.Count(env.cmHash(v.s), v.a)); }
    }
  }

  lemma HllSnoc(h: H.Sketch, items: seq<H.Hash>, x: H.Hash)
    requires H.SketchOk(h)
    ensures H.After(h, items + [x]) == H.Add(H.After(h, items), x)
  {
    hide H.Add, H.SketchOk;
    assert (items + [x])[..|items|] == items;
  }

  lemma CmSnoc(c: C.Sketch, log: seq<C.Count>, x: C.Count)
    requires C.SketchOk(c)
    ensures C.After(c, log + [x]) == C.Update(C.After(c, log), x.item, x.c)
  {
    hide C.Update, C.SketchOk;
    assert (log + [x])[..|log|] == log;
  }

  /**
   When the writes meet the guard, each slot a read finds holds exactly what the changes of
   its window since the last reset mean for the kind of its member, and is stamped with that
   window's start; the windows are the last n up to the one the read shows.
   */
  lemma SlotsMean(env: Env, init: seq<Member>, size: int, start: int, ops: seq<(int, Op<Change>)>, now: int, j: nat)
    requires |init| > 0 && size > 0 && start > 0 && Blank(init) && j < |init|
    requires LegalRun(|init|, size, start, ops, now)
    ensures var c := Clean(MemberRun(env, NewEntry(init, size, start), ops), now, Erased);
            var w := WindowOf(Newest(env, init, size, start, ops, now), |init|, j);
            var log := Filter(HistOf([], ops), start, size, w);
            && |c.slots| == |init|
            && Means(env, init[j], Vals(log), c.slots[j].val)
            && c.slots[j].stamp == if log == [] then 0 else start + size * w
  {
    hide LegalRun, Clean, MemberRun, Means, Fold, Filter, HistOf, WindowOf, Window, NewEntry, Blank, Newest, HistOk;
    var p, _ := OneReplica(env, init, size, start, ops, now);
    var w := WindowOf(Newest(env, init, size, start, ops, now), |init|, j);
    assert SlotExact(p.slots[j], HistOf([], ops), start, size, w);
    FoldMeans(env, init[j], Vals(p.slots[j].val));
    var h := MemberOf(env, init);
    assert MapRing(p, h).slots[j] == Slot(p.slots[j].stamp, h(j, p.slots[j].val));
    assert h(j, p.slots[j].val) == Fold(env, InitAt(init, j), Vals(p.slots[j].val));
  }

  // ---------------------------------------------------------------- entries

  type Entry = r: Ring<Member> | RingOk(r) witness Ring([Slot(0, IntM(0))], 1, 1, 0)

  /** add and sub of an entry at `now`: a change that throws leaves it cleaned and unwritten. */
  ghost function ActAt(env: Env, now: int, ch: Change, r: Entry): (o: DB.Outcome<Entry, bool>)
  {
    var c := Clean(r, now, Erased);
    if Changed(env, c.slots[Current(c, now)].val, ch).None? then DB.Outcome(c, false, true)
    else DB.Outcome(Write(r, now, (m: Member) => Put1(env, m, ch), Erased), true, false)
  }

  /** Only a string that is not a number, given to an integer field, throws. */
  lemma ThrowsIff(env: Env, now: int, ch: Change, r: Entry)
    ensures ActAt(env, now, ch, r).result
       <==> Clean(r, now, Erased).slots[Current(r, now)].val.IntM? && (ch.AddStr? || ch.SubStr?) && env.stoi(ch.s).None?
  {
    hide H.Add, C.Update, Clean;
  }
}
