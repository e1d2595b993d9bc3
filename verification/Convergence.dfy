/**
 Convergence of whole databases: two nodes that carry out the same changes, each in its
 own order and at its own times, and are read at any times of their own, hold the same
 entries.
 */
module Convergence {

  import opened Basics
  import opened Rings
  import opened WindowSums
  import opened SumConditions
  import opened Members
  import opened FieldSums
  import DB = StatsDBs
  import R = Replication
  import Sh = Sharding

  /** What a node does to its database at a time: a call's plan, or a read, which cleans. */
  datatype Task =
    | Carry(now: int, plan: R.Plan)
    | Get(now: int, key: DB.Key, field: string)
    | GetAll(now: int, key: DB.Key)

  ghost function ClearEntry(e: Entry): (r: Entry)
  {
    Reset(e, Erased)
  }

  ghost function ActOf(env: Env, now: int): (act: R.Act<Entry>)
  {
    (ch, e) => ActAt(env, now, ch, e)
  }

  ghost function Summed(now: int, e: Entry): (o: DB.Outcome<Entry, bool>)
  {
    DB.Outcome(Clean(e, now, Erased), false, true)
  }

  predicate Idle(t: Task)
  {
    t.Carry? && t.plan.DoNothing?
  }

  /** The database operation of a task. */
  ghost function TaskOp(env: Env, t: Task): (op: DB.Op<Entry, bool>)
    requires !Idle(t)
    ensures Sh.KeyOf(op) == Some(if t.Carry? then t.plan.key else t.key)
  {
    match t
    case Carry(now, p) => R.OpOf(p, ActOf(env, now), ClearEntry)
    case Get(now, k, f) => DB.Query(k, f, (e: Entry) => Summed(now, e))
    case GetAll(now, k) => DB.AllFields(k, (e: Entry) => Summed(now, e))
  }

  ghost function DbStep(env: Env, make: DB.Make<Entry>, v: DB.View<Entry>, t: Task): (r: DB.View<Entry>)
  {
    if Idle(t) then v else DB.Step(v, TaskOp(env, t), make)
  }

  ghost function DbRun(env: Env, make: DB.Make<Entry>, v: DB.View<Entry>, tasks: seq<Task>): (r: DB.View<Entry>)
  {
    if tasks == [] then v else DbStep(env, make, DbRun(env, make, v, tasks[..|tasks| - 1]), tasks[|tasks| - 1])
  }

  // ---------------------------------------------------------------- one field of one key

  function EntryAt<E>(v: DB.View<E>, k: DB.Key, f: string): (e: Option<E>)
  {
    if DB.Has(v, k, f) then Some(v.entries[k][f]) else None
  }

  /** Whether the members of an entry are integers: decided by the field's type. */
  predicate Kinds(e: Entry, isInt: bool)
  {
    forall i | 0 <= i < |e.slots| :: e.slots[i].val.IntM? == isInt
  }

  predicate Throwing(env: Env, isInt: bool, ch: Change)
  {
    isInt && (ch.AddStr? || ch.SubStr?) && env.stoi(ch.s).None?
  }

  /**
   What a task does to the entry of (k, f): a write, a read if the change throws, a reset, a
   read if there is an entry to read, or nothing.
   */
  function TaskOn(env: Env, isInt: bool, made: bool, t: Task, k: DB.Key, f: string): (ops: seq<(int, Op<Change>)>)
    ensures NoLoad(ops) && |ops| <= 1
  {
    match t
    case Carry(now, DoChange(j, g, ch)) =>
      if j == k && g == f then [(now, if Throwing(env, isInt, ch) then Read else Put(ch))] else []
    case Carry(now, DoReset(j)) => if j == k then [(now, ResetAll)] else []
    case Carry(now, DoResetOne(j, g)) => if j == k && g == f then [(now, ResetAll)] else []
    case Carry(_, DoNothing) => []
    case Get(now, j, g) => if made && j == k && g == f then [(now, Read)] else []
    case GetAll(now, j) => if made && j == k then [(now, Read)] else []
  }

  /** The operations a run makes on the entry of (k, f). */
  function Project(env: Env, isInt: bool, tasks: seq<Task>, k: DB.Key, f: string): (ops: seq<(int, Op<Change>)>)
    ensures NoLoad(ops)
  {
    if tasks == [] then [] else
      var rest, t := tasks[..|tasks| - 1], tasks[|tasks| - 1];
      Project(env, isInt, rest, k, f) + TaskOn(env, isInt, Changes(rest, k, f), t, k, f)
  }

  predicate IsChange(t: Task, k: DB.Key, f: string)
  {
    t.Carry? && t.plan.DoChange? && t.plan.key == k && t.plan.field == f
  }

  /** Some task changes (k, f), so its entry exists. */
  predicate Changes(tasks: seq<Task>, k: DB.Key, f: string)
  {
    exists i | 0 <= i < |tasks| :: IsChange(tasks[i], k, f)
  }

  lemma ChangesSnoc(tasks: seq<Task>, k: DB.Key, f: string)
    requires tasks != []
    ensures Changes(tasks, k, f) <==> Changes(tasks[..|tasks| - 1], k, f) || IsChange(tasks[|tasks| - 1], k, f)
  {
    var rest := tasks[..|tasks| - 1];
    if i :| 0 <= i < |rest| && IsChange(rest[i], k, f) {
      assert IsChange(tasks[i], k, f);
    }
    if i :| 0 <= i < |tasks| && IsChange(tasks[i], k, f) {
      assert i < |rest| ==> IsChange(rest[i], k, f);
    }
  }

  lemma {:induction false} MemberRunSnoc(env: Env, r: Ring<Member>, ops: seq<(int, Op<Change>)>, op: (int, Op<Change>))
    requires RingOk(r)
    ensures MemberRun(env, r, ops + [op]) == MemberStep(env, MemberRun(env, r, ops), op.0, op.1)
    decreases |ops|
  {
    hide MemberStep;
    if ops == [] {
      assert (ops + [op])[1..] == [];
    } else {
      assert (ops + [op])[0] == ops[0] && (ops + [op])[1..] == ops[1..] + [op];
      MemberRunSnoc(env, MemberStep(env, r, ops[0].0, ops[0].1), ops[1..], op);
    }
  }

  /** The database's change of an entry is the operation TaskOn says. */
  lemma ActIsStep(env: Env, now: int, ch: Change, e: Entry, isInt: bool)
    requires Kinds(e, isInt)
    ensures ActAt(env, now, ch, e).entry == MemberStep(env, e, now, if Throwing(env, isInt, ch) then Read else Put(ch))
  {
    hide Put1, Mod, Window;
    ThrowsIff(env, now, ch, e);
    var c := Clean(e, now, Erased);
    var i := Current(e, now);
    assert c.slots[i].val.IntM? == e.slots[i].val.IntM?;
  }

  lemma CleanKeepsInts(e: Entry, now: int, isInt: bool)
    requires Kinds(e, isInt)
    ensures Kinds(Clean(e, now, Erased), isInt) && Kinds(Reset(e, Erased), isInt)
  {
    hide Erased;
    var c, r := Clean(e, now, Erased), Reset(e, Erased);
    forall i | 0 <= i < |e.slots|
      ensures c.slots[i].val.IntM? == isInt && r.slots[i].val.IntM? == isInt
    {
      ErasedStays(e.slots[i].val);
      assert r.slots[i].val == Erased(e.slots[i].val);
    }
  }

  lemma ErasedStays(m: Member)
    ensures Erased(m).IntM? == m.IntM?
  {
  }

  lemma WriteKeepsInts(env: Env, e: Entry, now: int, ch: Change, isInt: bool)
    requires Kinds(e, isInt)
    ensures Kinds(Write(e, now, (m: Member) => Put1(env, m, ch), Erased), isInt)
  {
    hide Put1, Mod, Window, WindowStart, Clean;
    CleanKeepsInts(e, now, isInt);
    var c, r := Clean(e, now, Erased), Write(e, now, (m: Member) => Put1(env, m, ch), Erased);
    forall i | 0 <= i < |r.slots|
      ensures r.slots[i].val.IntM? == isInt
    {
      IntStays(env, c.slots[i].val, ch);
      assert r.slots[i].val == c.slots[i].val || r.slots[i].val == Put1(env, c.slots[i].val, ch);
    }
  }

  lemma StepKeepsKinds(env: Env, e: Entry, now: int, op: Op<Change>, isInt: bool)
    requires Kinds(e, isInt)
    ensures Kinds(MemberStep(env, e, now, op), isInt)
  {
    hide Write, Clean, Reset, Kinds;
    CleanKeepsInts(e, now, isInt);
    if op.Put? {
      WriteKeepsInts(env, e, now, op.val, isInt);
    }
  }

  lemma IntStays(env: Env, m: Member, ch: Change)
    ensures Put1(env, m, ch).IntM? == m.IntM?
  {
  }

  // ---------------------------------------------------------------- how a task changes one entry

  /** What an operation makes of the entry of (k, f), which is `e` before it and new if `blank`. */
  function Next<E, R>(op: DB.Op<E, R>, blank: E, e: Option<E>, k: DB.Key, f: string): (r: Option<E>)
  {
    match op
    case Update(j, g, fn) => if j == k && g == f then Some(fn(if e.Some? then e.value else blank).entry) else e
    case Query(j, g, fn) => if j == k && g == f && e.Some? then Some(fn(e.value).entry) else e
    case AllFields(j, fn) => if j == k && e.Some? then Some(fn(e.value).entry) else e
    case ClearField(j, g, clear) => if j == k && g == f && e.Some? then Some(clear(e.value)) else e
    case _ => e
  }

  lemma NextIs<E, R>(v: DB.View<E>, op: DB.Op<E, R>, make: DB.Make<E>, k: DB.Key, f: string)
    requires DB.Known(v, f) && Sh.KeyOf(op).Some?
    ensures DB.Step(v, op, make).fields == v.fields
    ensures EntryAt(DB.Step(v, op, make), k, f) == Next(op, make(k, f, v.fields[f]), EntryAt(v, k, f), k, f)
  {
    hide DB.Touch;
  }

  /** The entry of (k, f) after a task, from what it was before. */
  lemma TaskAt(env: Env, make: DB.Make<Entry>, v: DB.View<Entry>, t: Task, k: DB.Key, f: string)
    requires DB.Known(v, f)
    ensures DbStep(env, make, v, t).fields == v.fields
    ensures EntryAt(DbStep(env, make, v, t), k, f)
         == if Idle(t) then EntryAt(v, k, f) else Next(TaskOp(env, t), make(k, f, v.fields[f]), EntryAt(v, k, f), k, f)
  {
    hide TaskOp, EntryAt, Next;
    if !Idle(t) {
      NextIs(v, TaskOp(env, t), make, k, f);
    }
  }

  /** A new entry of (k, f). */
  ghost predicate Made(make: DB.Make<Entry>, k: DB.Key, f: string, ty: string, init: seq<Member>, size: int, start: int)
  {
    && |init| > 0 && size > 0 && start > 0 && Blank(init)
    && make(k, f, ty) == NewEntry(init, size, start)
    && forall i | 0 <= i < |init| :: init[i].IntM? == (ty == "int")
  }

  lemma ResetOfNew(init: seq<Member>, size: int, start: int)
    requires |init| > 0 && size > 0 && start > 0 && Blank(init)
    ensures ClearEntry(NewEntry(init, size, start)) == NewEntry(init, size, start)
  {
    hide Erased;
    var e := NewEntry(init, size, start);
    assert ClearEntry(e).slots == e.slots;
  }

  /** The entry, if it has been made. */
  function Held(made: bool, e: Entry): (r: Option<Entry>)
  {
    if made then Some(e) else None
  }

  ghost function StepOn(env: Env, e: Entry, own: seq<(int, Op<Change>)>): (r: Entry)
  {
    if own == [] then e else MemberStep(env, e, own[0].0, own[0].1)
  }

  /** A task does to the entry what TaskOn says. */
  lemma TaskIsStep(env: Env, isInt: bool, made: bool, e: Entry, t: Task, k: DB.Key, f: string,
                   init: seq<Member>, size: int, start: int)
    requires |init| > 0 && size > 0 && start > 0 && Blank(init) && Kinds(e, isInt)
    requires !made ==> e == NewEntry(init, size, start)
    ensures var r := StepOn(env, e, TaskOn(env, isInt, made, t, k, f));
            && Kinds(r, isInt)
            && (!made && !IsChange(t, k, f) ==> r == e)
            && Held(made || IsChange(t, k, f), r)
            == if Idle(t) then Held(made, e) else Next(TaskOp(env, t), NewEntry(init, size, start), Held(made, e), k, f)
  {
    hide MemberStep, Kinds, ActAt, ClearEntry, Throwing, Blank, Clean, NewEntry;
    var own := TaskOn(env, isInt, made, t, k, f);
    if own != [] {
      StepKeepsKinds(env, e, own[0].0, own[0].1, isInt);
      if !t.Carry? {
        ReadIsClean(env, e, t.now);
      } else if t.plan.DoChange? {
        ActIsStep(env, t.now, t.plan.change, e, isInt);
      } else {
        ResetIsClear(env, e, t.now);
        ResetOfNew(init, size, start);
      }
    }
  }

  /**
   In every run, the entry of a key and a known field exists iff a task changed it, and is
   what its own operations make of a new entry: tasks on other keys and fields do not matter.
   */
  lemma {:induction false} EntryIsRun(env: Env, make: DB.Make<Entry>, v: DB.View<Entry>, tasks: seq<Task>, k: DB.Key, f: string,
                                      init: seq<Member>, size: int, start: int)
    requires v.entries == map[] && DB.Known(v, f) && Made(make, k, f, v.fields[f], init, size, start)
    ensures var isInt := v.fields[f] == "int";
            var e := MemberRun(env, NewEntry(init, size, start), Project(env, isInt, tasks, k, f));
            && DbRun(env, make, v, tasks).fields == v.fields
            && Kinds(e, isInt)
            && (!Changes(tasks, k, f) ==> e == NewEntry(init, size, start))
            && EntryAt(DbRun(env, make, v, tasks), k, f) == if Changes(tasks, k, f) then Some(e) else None
  {
    hide DbStep, MemberStep, Changes, Blank, TaskOp, TaskOn, Next, IsChange;
    var isInt := v.fields[f] == "int";
    var new0 := NewEntry(init, size, start);
    if tasks == [] {
      NoChanges(k, f);
    } else {
      var rest, t := tasks[..|tasks| - 1], tasks[|tasks| - 1];
      EntryIsRun(env, make, v, rest, k, f, init, size, start);
      ChangesSnoc(tasks, k, f);
      var u, before := DbRun(env, make, v, rest), Project(env, isInt, rest, k, f);
      var e := MemberRun(env, new0, before);
      TaskAt(env, make, u, t, k, f);
      TaskIsStep(env, isInt, Changes(rest, k, f), e, t, k, f, init, size, start);
      var own := TaskOn(env, isInt, Changes(rest, k, f), t, k, f);
      OwnRun(env, new0, before, own);
    }
  }

  lemma OwnRun(env: Env, r: Ring<Member>, ops: seq<(int, Op<Change>)>, own: seq<(int, Op<Change>)>)
    requires RingOk(r) && |own| <= 1
    ensures MemberRun(env, r, ops + own) == StepOn(env, MemberRun(env, r, ops), own)
  {
    hide MemberStep, MemberRun;
    if own == [] {
      assert ops + own == ops;
    } else {
      assert own == [own[0]];
      MemberRunSnoc(env, r, ops, own[0]);
    }
  }

  lemma NoChanges(k: DB.Key, f: string)
    ensures !Changes([], k, f)
  {
  }

  lemma ResetIsClear(env: Env, e: Entry, now: int)
    ensures MemberStep(env, e, now, ResetAll) == ClearEntry(e)
  {
  }

  lemma ReadIsClean(env: Env, e: Entry, now: int)
    ensures MemberStep(env, e, now, Read) == Clean(e, now, Erased)
  {
  }

  // ---------------------------------------------------------------- convergence

  /** The operations of a run on (k, f) are on a clock, and its writes guarded. */
  ghost predicate Legal(env: Env, isInt: bool, n: nat, size: int, start: int, x: seq<Task>, k: DB.Key, f: string, now: int)
    requires n > 0 && size > 0 && start > 0
  {
    LegalRun(n, size, start, Project(env, isInt, x, k, f), now)
  }

  /** What a run does to (k, f) since the last reset. */
  function HistAt(env: Env, isInt: bool, x: seq<Task>, k: DB.Key, f: string): (h: Log<Change>)
  {
    HistOf([], Project(env, isInt, x, k, f))
  }

  /** The newest window that a read at `now` shows. */
  ghost function ShownAt(v: DB.View<Entry>, k: DB.Key, f: string, now: int): (w: Option<int>)
  {
    match EntryAt(v, k, f)
    case Some(e) => Some(Shown(e, now))
    case None => None
  }

  /** What a read at `now` finds: the stamps and members of every slot. */
  ghost function ReadAt(v: DB.View<Entry>, k: DB.Key, f: string, now: int): (s: Option<seq<Slot<Member>>>)
  {
    match EntryAt(v, k, f)
    case Some(e) => Some(Clean(e, now, Erased).slots)
    case None => None
  }

  ghost predicate ReadsAgree(a: Option<seq<Slot<Member>>>, b: Option<seq<Slot<Member>>>)
  {
    if a.Some? then b.Some? && SlotsAgree(a.value, b.value) else b.None?
  }

  ghost predicate AllTwins(a: seq<Member>, b: seq<Member>)
  {
    |a| == |b| && forall j | 0 <= j < |a| :: Twins(a[j], b[j])
  }

  /** Reads p and q of two nodes, which show the windows up to u and w, given what the nodes were told. */
  ghost predicate Converge(p: Option<seq<Slot<Member>>>, u: Option<int>, hx: Log<Change>,
                           q: Option<seq<Slot<Member>>>, w: Option<int>, hy: Log<Change>,
                           size: int, start: int, n: nat, now: int, same: bool)
    requires size > 0
  {
    && (u == w && (u.Some? ==> SameChanges(hx, hy, start, size, u.value, n)) ==> ReadsAgree(p, q) && (same ==> p == q))
    && (SameChanges(hx, hy, start, size, Window(start, size, now), n + 1) ==> (ReadsAgree(p, q) <==> u == w))
  }

  /**
   Two nodes start empty with the same fields and windows, each with blank members of its
   own making, and carry out their tasks in any order, interleaved with reads at any times and
   with tasks on other keys and fields; the writes to (k, f) meet the guard.  If both make the
   same changes in each of the windows that a read at `now` shows, it finds the same stamps,
   integers, registers and count-min totals on both, and the same count-min counters where
   the columns are the same; with the same blank members it finds the same everything.  After
   the same changes in each of the last n + 1 windows the reads agree if and only if they
   show the same windows, that is, both meet the guard or neither does.
   */
  lemma {:induction false} DatabasesConverge(env: Env, v: DB.View<Entry>, k: DB.Key, f: string, size: int, start: int, now: int,
                                             makeA: DB.Make<Entry>, a: seq<Member>, x: seq<Task>,
                                             makeB: DB.Make<Entry>, b: seq<Member>, y: seq<Task>)
    requires v.entries == map[] && DB.Known(v, f) && AllTwins(a, b)
    requires Made(makeA, k, f, v.fields[f], a, size, start) && Made(makeB, k, f, v.fields[f], b, size, start)
    requires var isInt := v.fields[f] == "int";
             Legal(env, isInt, |a|, size, start, x, k, f, now) && Legal(env, isInt, |a|, size, start, y, k, f, now)
    ensures var isInt, va, vb := v.fields[f] == "int", DbRun(env, makeA, v, x), DbRun(env, makeB, v, y);
            Converge(ReadAt(va, k, f, now), ShownAt(va, k, f, now), HistAt(env, isInt, x, k, f),
                     ReadAt(vb, k, f, now), ShownAt(vb, k, f, now), HistAt(env, isInt, y, k, f), size, start, |a|, now, a == b)
  {
    hide DbRun, MemberRun, Changes, LegalRun, SameChanges, Clean, HistOf, Blank, Kinds, EntryAt, Twins, SlotsAgree, Shown, NewEntry;
    hide Project, Window, Guard;
    var isInt := v.fields[f] == "int";
    var p, q := Project(env, isInt, x, k, f), Project(env, isInt, y, k, f);
    EntryIsRun(env, makeA, v, x, k, f, a, size, start);
    EntryIsRun(env, makeB, v, y, k, f, b, size, start);
    if Changes(x, k, f) && Changes(y, k, f) {
      var u := Newest(env, a, size, start, p, now);
      if u == Newest(env, b, size, start, q, now) && SameChanges(HistOf([], p), HistOf([], q), start, size, u, |a|) {
        ReplicasConverge(env, a, b, size, start, p, q, now);
      }
      if SameChanges(HistOf([], p), HistOf([], q), start, size, Window(start, size, now), |a| + 1) {
        ReadsAgreeIff(env, a, b, size, start, p, q, now);
      }
    }
  }

  // ---------------------------------------------------------------- sums with windows of their own

  /** What sum() returns: 0 if there is no entry. */
  ghost function SumRead(v: DB.View<Entry>, k: DB.Key, f: string, now: int): (n: int)
  {
    match ReadAt(v, k, f, now)
    case Some(slots) => SumGets(slots)
    case None => 0
  }

  /** The weights of the changes a run makes to (k, f) since the last reset. */
  ghost function Weights(env: Env, isInt: bool, tasks: seq<Task>, k: DB.Key, f: string, g: Weight): (w: Log<int>)
  {
    Weigh(HistAt(env, isInt, tasks, k, f), g)
  }

  /** The weight of what has left the windows up to the one a read shows. */
  ghost function Gone(w: Log<int>, start: int, size: int, n: nat, shown: Option<int>): (t: int)
    requires size > 0
  {
    match shown
    case Some(d) => Aged(w, start, size, n, d)
    case None => 0
  }

  /** A sum is the weight of all changes less what has gone, whether or not there is an entry. */
  lemma SumReadIs(env: Env, make: DB.Make<Entry>, v: DB.View<Entry>, tasks: seq<Task>, k: DB.Key, f: string,
                  init: seq<Member>, size: int, start: int, now: int)
    requires v.entries == map[] && DB.Known(v, f) && Made(make, k, f, v.fields[f], init, size, start) && Summable(init)
    requires Legal(env, v.fields[f] == "int", |init|, size, start, tasks, k, f, now)
    ensures var w, u := Weights(env, v.fields[f] == "int", tasks, k, f, WeightFor(env, init[0])), DbRun(env, make, v, tasks);
            SumRead(u, k, f, now) == Total(w) - Gone(w, start, size, |init|, ShownAt(u, k, f, now))
  {
    hide DbRun, MemberRun, Changes, LegalRun, Clean, HistOf, Blank, Kinds, EntryAt, SumGets, Weigh, Total, Aged, Summable, Shown;
    hide Project, NewEntry;
    var isInt := v.fields[f] == "int";
    var ops := Project(env, isInt, tasks, k, f);
    EntryIsRun(env, make, v, tasks, k, f, init, size, start);
    SumAndAged(env, init, size, start, ops, now);
    if !Changes(tasks, k, f) {
      NothingDone(env, isInt, tasks, k, f);
      NoWeight(WeightFor(env, init[0]));
    }
  }

  lemma NoWeight(g: Weight)
    ensures Total(Weigh([], g)) == 0
  {
  }

  lemma {:induction false} HistSnoc(hist: Log<Change>, ops: seq<(int, Op<Change>)>, op: (int, Op<Change>))
    ensures HistOf(hist, ops + [op]) == HistAfter(HistOf(hist, ops), op.0, op.1)
    decreases |ops|
  {
    hide HistAfter;
    if ops == [] {
      assert (ops + [op])[1..] == [];
    } else {
      assert (ops + [op])[0] == ops[0] && (ops + [op])[1..] == ops[1..] + [op];
      HistSnoc(HistAfter(hist, ops[0].0, ops[0].1), ops[1..], op);
    }
  }

  /** Without a change of (k, f) there is nothing to weigh. */
  lemma {:induction false} NothingDone(env: Env, isInt: bool, tasks: seq<Task>, k: DB.Key, f: string)
    requires !Changes(tasks, k, f)
    ensures HistAt(env, isInt, tasks, k, f) == []
  {
    hide Changes, HistOf;
    if tasks == [] {
      NoOps();
    } else {
      var rest, t := tasks[..|tasks| - 1], tasks[|tasks| - 1];
      ChangesSnoc(tasks, k, f);
      NothingDone(env, isInt, rest, k, f);
      var before, own := Project(env, isInt, rest, k, f), TaskOn(env, isInt, false, t, k, f);
      if own == [] {
        assert before + own == before;
      } else {
        assert own == [own[0]] && own[0].1.ResetAll?;
        HistSnoc([], before, own[0]);
      }
    }
  }

  lemma NoOps()
    ensures HistOf<Change>([], []) == []
  {
  }

  /**
   Two nodes whose databases were made at different times, with clocks and count-min
   coefficients of their own, and read at any times: after the same changes to an integer or
   count-min field in any order, the writes guarded, their sums agree if and only if what has
   left the windows that the one read shows weighs what has left those of the other.
   */
  lemma {:induction false} DatabaseSumsAgreeIff(env: Env, v: DB.View<Entry>, k: DB.Key, f: string, size: int,
                                                makeA: DB.Make<Entry>, a: seq<Member>, startA: int, x: seq<Task>, nowA: int,
                                                makeB: DB.Make<Entry>, b: seq<Member>, startB: int, y: seq<Task>, nowB: int)
    requires v.entries == map[] && DB.Known(v, f) && AllTwins(a, b) && Summable(a) && Summable(b)
    requires Made(makeA, k, f, v.fields[f], a, size, startA) && Made(makeB, k, f, v.fields[f], b, size, startB)
    requires var isInt := v.fields[f] == "int";
             && Legal(env, isInt, |a|, size, startA, x, k, f, nowA) && Legal(env, isInt, |a|, size, startB, y, k, f, nowB)
             && multiset(Vals(HistAt(env, isInt, x, k, f))) == multiset(Vals(HistAt(env, isInt, y, k, f)))
    ensures var isInt, g := v.fields[f] == "int", WeightFor(env, a[0]);
            var va, vb := DbRun(env, makeA, v, x), DbRun(env, makeB, v, y);
            var goneA := Gone(Weights(env, isInt, x, k, f, g), startA, size, |a|, ShownAt(va, k, f, nowA));
            var goneB := Gone(Weights(env, isInt, y, k, f, g), startB, size, |a|, ShownAt(vb, k, f, nowB));
            SumRead(va, k, f, nowA) == SumRead(vb, k, f, nowB) <==> goneA == goneB
  {
    hide DbRun, LegalRun, HistOf, Weigh, Total, Gone, Erased, SumRead, Vals, Project, ShownAt;
    SumReadIs(env, makeA, v, x, k, f, a, size, startA, nowA);
    SumReadIs(env, makeB, v, y, k, f, b, size, startB, nowB);
    assert Twins(a[0], b[0]) && Erased(a[0]) == a[0];
    var isInt := v.fields[f] == "int";
    WeightsPermute(env, a[0], HistOf([], Project(env, isInt, x, k, f)), HistOf([], Project(env, isInt, y, k, f)));
  }

  // ---------------------------------------------------------------- shards

  /** The tasks on any number of shards. */
  ghost function ShardedRun(env: Env, make: DB.Make<Entry>, shards: seq<DB.View<Entry>>, tasks: seq<Task>,
                            hash: DB.Key -> nat): (r: seq<DB.View<Entry>>)
    requires |shards| > 0
    ensures |r| == |shards|
  {
    if tasks == [] then shards else
      var before, t := ShardedRun(env, make, shards, tasks[..|tasks| - 1], hash), tasks[|tasks| - 1];
      if Idle(t) then before else Sh.ShardStep(before, TaskOp(env, t), make, hash)
  }

  lemma {:induction false} ShardedRunSimulates(env: Env, make: DB.Make<Entry>, shards: seq<DB.View<Entry>>, one: DB.View<Entry>,
                                               tasks: seq<Task>, hash: DB.Key -> nat)
    requires |shards| > 0 && Sh.Simulates(shards, one, hash)
    ensures Sh.Simulates(ShardedRun(env, make, shards, tasks, hash), DbRun(env, make, one, tasks), hash)
  {
    hide Sh.Simulates, Sh.ShardStep, Sh.KeyOf, DB.Step, TaskOp;
    if tasks == [] {
    } else {
      var rest, t := tasks[..|tasks| - 1], tasks[|tasks| - 1];
      ShardedRunSimulates(env, make, shards, one, rest, hash);
      if !Idle(t) {
        Sh.KeyStepSimulates(ShardedRun(env, make, shards, rest, hash), DbRun(env, make, one, rest),
                            TaskOp(env, t), make, hash, Sh.KeyOf(TaskOp(env, t)).value);
      }
    }
  }

  /** Empty shards with the given fields. */
  predicate EmptyShards(shards: seq<DB.View<Entry>>, types: map<string, string>)
  {
    |shards| > 0 && forall i | 0 <= i < |shards| :: shards[i].entries == map[] && shards[i].fields == types
  }

  /** The shard of a key holds for it what the unsharded database does. */
  lemma ShardedEntry(env: Env, make: DB.Make<Entry>, shards: seq<DB.View<Entry>>, types: map<string, string>,
                     tasks: seq<Task>, hash: DB.Key -> nat, k: DB.Key, f: string)
    requires EmptyShards(shards, types)
    ensures EntryAt(ShardedRun(env, make, shards, tasks, hash)[Sh.Place(hash, |shards|, k)], k, f)
         == EntryAt(DbRun(env, make, DB.View([], map[], types, 0), tasks), k, f)
  {
    hide ShardedRun, DbRun, Sh.Place;
    var v := DB.View([], map[], types, 0);
    assert Sh.Simulates(shards, v, hash);
    ShardedRunSimulates(env, make, shards, v, tasks, hash);
    var r, one := ShardedRun(env, make, shards, tasks, hash), DbRun(env, make, v, tasks);
    assert Sh.Lookup(r[Sh.Place(hash, |r|, k)], k) == Sh.Lookup(one, k);
  }

  /** Convergence with any shards on either node. */
  lemma {:induction false} ShardedDatabasesConverge(env: Env, types: map<string, string>, k: DB.Key, f: string, size: int, start: int, now: int,
                                                    makeA: DB.Make<Entry>, a: seq<Member>, shardsA: seq<DB.View<Entry>>, hashA: DB.Key -> nat, x: seq<Task>,
                                                    makeB: DB.Make<Entry>, b: seq<Member>, shardsB: seq<DB.View<Entry>>, hashB: DB.Key -> nat, y: seq<Task>)
    requires EmptyShards(shardsA, types) && EmptyShards(shardsB, types)
    requires f in types && types[f] in DB.TYPES && AllTwins(a, b)
    requires Made(makeA, k, f, types[f], a, size, start) && Made(makeB, k, f, types[f], b, size, start)
    requires var isInt := types[f] == "int";
             Legal(env, isInt, |a|, size, start, x, k, f, now) && Legal(env, isInt, |a|, size, start, y, k, f, now)
    ensures var isInt := types[f] == "int";
            var va := ShardedRun(env, makeA, shardsA, x, hashA)[Sh.Place(hashA, |shardsA|, k)];
            var vb := ShardedRun(env, makeB, shardsB, y, hashB)[Sh.Place(hashB, |shardsB|, k)];
            Converge(ReadAt(va, k, f, now), ShownAt(va, k, f, now), HistAt(env, isInt, x, k, f),
                     ReadAt(vb, k, f, now), ShownAt(vb, k, f, now), HistAt(env, isInt, y, k, f), size, start, |a|, now, a == b)
  {
    hide Legal, ShardedRun, DbRun, Sh.Place, EntryAt, Converge, Twins, HistAt, Clean, Shown;
    var v := DB.View([], map[], types, 0);
    DatabasesConverge(env, v, k, f, size, start, now, makeA, a, x, makeB, b, y);
    ShardedEntry(env, makeA, shardsA, types, x, hashA, k, f);
    ShardedEntry(env, makeB, shardsB, types, y, hashB, k, f);
  }
}
