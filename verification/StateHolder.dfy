/**
 The holder of a shared read-mostly state, under every interleaving of its threads.
 Each shared access of the code is one step: a reader compares generations without the
 lock, and takes the lock only to copy the pointer and then the generation; a writer
 takes the lock, stores a new pointer and then increments the generation.  Generations
 do not wrap around.  An update is published by the increment.
 */
module StateHolder {

  import opened Basics

  type Tid = nat

  /** setState, or modify with one of the given functions. */
  datatype Update<T> = SetState(value: T) | Modify(act: nat)

  /** Where a thread is; `start` is the generation read when its access began. */
  datatype Pc<T> =
    | Idle
    | MustLoad(start: nat)
    | Locked(start: nat)
    | LoadedState(start: nat)
    | LoadedGeneration(start: nat)
    | Returning(start: nat)
    | MustWrite(update: Update<T>)
    | Writing(update: Update<T>)
    | Computed(update: Update<T>, next: T)
    | Stored(update: Update<T>)
    | Published(update: Update<T>)

  /** A LocalStateHolder with its thread; `seen` and `done` are the versions returned and the updates completed. */
  datatype Local<T> = Local(pc: Pc<T>, state: Option<T>, generation: nat, seen: seq<nat>, done: seq<Update<T>>)

  datatype Entry<T> = Entry(tid: Tid, update: Update<T>)

  /** A GlobalStateHolder; `log` holds the updates in the order of their publication. */
  datatype Global<T> = Global(state: T, generation: nat, lock: Option<Tid>, log: seq<Entry<T>>)

  function Result<T>(acts: (nat, T) -> T, u: Update<T>, s: T): (r: T)
  {
    match u
    case SetState(v) => v
    case Modify(a) => acts(a, s)
  }

  function Fold<T>(acts: (nat, T) -> T, init: T, log: seq<Entry<T>>): (r: T)
  {
    if log == [] then init
    else Result(acts, log[|log| - 1].update, Fold(acts, init, log[..|log| - 1]))
  }

  /** The state published as generation v. */
  function Version<T>(acts: (nat, T) -> T, init: T, log: seq<Entry<T>>, v: nat): (r: T)
    requires 1 <= v <= |log| + 1
  {
    Fold(acts, init, log[..v - 1])
  }

  // ---------------------------------------------------------------- steps

  datatype Call<T> = Access | Reset | Write(update: Update<T>)

  predicate Enabled<T>(g: Global<T>, l: Local<T>)
  {
    l.pc.MustLoad? || l.pc.MustWrite? ==> g.lock.None?
  }

  /** One step of a thread; `call` is what an idle thread does next. */
  function StepGlobal<T>(g: Global<T>, t: Tid, l: Local<T>): (r: Global<T>)
  {
    match l.pc
    case MustLoad(_) => g.(lock := Some(t))
    case MustWrite(_) => g.(lock := Some(t))
    case LoadedGeneration(_) => g.(lock := None)
    case Published(_) => g.(lock := None)
    case Computed(_, next) => g.(state := next)
    case Stored(u) => g.(generation := g.generation + 1, log := g.log + [Entry(t, u)])
    case _ => g
  }

  function StepLocal<T>(acts: (nat, T) -> T, g: Global<T>, l: Local<T>, call: Call<T>): (r: Local<T>)
  {
    match l.pc
    case Idle =>
      (match call
       case Access => l.(pc := if g.generation != l.generation then MustLoad(g.generation) else Returning(g.generation))
       case Reset => l.(state := None, generation := 0)
       case Write(u) => l.(pc := MustWrite(u)))
    case MustLoad(start) => l.(pc := Locked(start))
    case Locked(start) => l.(state := Some(g.state), pc := LoadedState(start))
    case LoadedState(start) => l.(generation := g.generation, pc := LoadedGeneration(start))
    case LoadedGeneration(start) => l.(pc := Returning(start))
    case Returning(_) => l.(seen := l.seen + [l.generation], pc := Idle)
    case MustWrite(u) => l.(pc := Writing(u))
    case Writing(u) => l.(pc := Computed(u, Result(acts, u, g.state)))
    case Computed(u, _) => l.(pc := Stored(u))
    case Stored(u) => l.(pc := Published(u))
    case Published(u) => l.(pc := Idle, done := l.done + [u])
  }

  // ---------------------------------------------------------------- invariant

  predicate Holds<T>(pc: Pc<T>)
  {
    pc.Locked? || pc.LoadedState? || pc.LoadedGeneration? || pc.Writing? || pc.Computed? || pc.Stored? || pc.Published?
  }

  /** The updates of one thread in the log. */
  function Of<T>(log: seq<Entry<T>>, t: Tid): (r: seq<Update<T>>)
  {
    if log == [] then []
    else Of(log[..|log| - 1], t) + (if log[|log| - 1].tid == t then [log[|log| - 1].update] else [])
  }

  predicate Ascending(s: seq<nat>)
  {
    forall i, j | 0 <= i <= j < |s| :: s[i] <= s[j]
  }

  /** What the holder of the lock knows about the state it protects. */
  ghost predicate HolderOk<T>(acts: (nat, T) -> T, init: T, g: Global<T>, l: Local<T>)
    requires g.generation == |g.log| + 1
  {
    var current := Version(acts, init, g.log, g.generation);
    match l.pc
    case Computed(u, next) => g.state == current && next == Result(acts, u, current)
    case Stored(u) => g.state == Result(acts, u, current)
    case LoadedState(_) => g.state == current && l.state == Some(current)
    case LoadedGeneration(_) => g.state == current && l.generation == g.generation
    case _ => g.state == current
  }

  /** The cached snapshot is the version its generation says. */
  ghost predicate CacheOk<T>(acts: (nat, T) -> T, init: T, g: Global<T>, l: Local<T>)
    requires g.generation == |g.log| + 1
  {
    && l.generation <= g.generation
    && (l.generation >= 1 && !l.pc.LoadedState? ==> l.state == Some(Version(acts, init, g.log, l.generation)))
  }

  predicate AccessOk<T>(g: Global<T>, l: Local<T>)
  {
    && Ascending(l.seen)
    && (forall v | v in l.seen :: v <= g.generation)
    && match l.pc
       case MustLoad(start) => 1 <= start <= g.generation && forall v | v in l.seen :: v <= start
       case Locked(start) => 1 <= start <= g.generation && forall v | v in l.seen :: v <= start
       case LoadedState(start) => 1 <= start <= g.generation && forall v | v in l.seen :: v <= start
       case LoadedGeneration(start) => 1 <= start <= l.generation && forall v | v in l.seen :: v <= start
       case Returning(start) => 1 <= start <= l.generation && forall v | v in l.seen :: v <= start
       case _ => true
  }

  ghost predicate ThreadOk<T>(acts: (nat, T) -> T, init: T, g: Global<T>, t: Tid, l: Local<T>)
    requires g.generation == |g.log| + 1
  {
    && CacheOk(acts, init, g, l) && AccessOk(g, l)
    && (Holds(l.pc) <==> g.lock == Some(t))
    && (Holds(l.pc) ==> HolderOk(acts, init, g, l))
    && Of(g.log, t) == l.done + (if l.pc.Published? then [l.pc.update] else [])
  }

  ghost predicate GlobalOk<T>(acts: (nat, T) -> T, init: T, g: Global<T>)
  {
    && g.generation == |g.log| + 1
    && (g.lock.None? ==> g.state == Version(acts, init, g.log, g.generation))
  }

  // ---------------------------------------------------------------- preservation

  lemma VersionKept<T>(acts: (nat, T) -> T, init: T, g: Global<T>, t: Tid, u: Update<T>, v: nat)
    requires g.generation == |g.log| + 1 && 1 <= v <= g.generation
    ensures var h := g.(generation := g.generation + 1, log := g.log + [Entry(t, u)]);
            && Version(acts, init, h.log, v) == Version(acts, init, g.log, v)
            && Version(acts, init, h.log, h.generation) == Result(acts, u, Version(acts, init, g.log, g.generation))
  {
    var log := g.log + [Entry(t, u)];
    assert log[..v - 1] == g.log[..v - 1];
    assert log[..g.generation] == log && log[..|log| - 1] == g.log && g.log[..g.generation - 1] == g.log;
  }

  lemma OfExtended<T>(log: seq<Entry<T>>, t: Tid, e: Entry<T>)
    ensures Of(log + [e], t) == Of(log, t) + (if e.tid == t then [e.update] else [])
  {
    assert (log + [e])[..|log|] == log;
  }

  lemma AscendingSnoc(s: seq<nat>, x: nat)
    requires Ascending(s) && forall v | v in s :: v <= x
    ensures Ascending(s + [x])
  {
    forall i, j | 0 <= i <= j < |s + [x]|
      ensures (s + [x])[i] <= (s + [x])[j]
    {
      if i < |s| { assert s[i] in s; }
    }
  }

  lemma OwnStep<T>(acts: (nat, T) -> T, init: T, g: Global<T>, t: Tid, l: Local<T>, call: Call<T>)
    requires GlobalOk(acts, init, g) && ThreadOk(acts, init, g, t, l) && Enabled(g, l)
    ensures var h := StepGlobal(g, t, l);
            GlobalOk(acts, init, h) && ThreadOk(acts, init, h, t, StepLocal(acts, g, l, call))
  {
    hide Version, Result, Of, Ascending;
    if l.pc.Returning? {
      AscendingSnoc(l.seen, l.generation);
    }
    if l.pc.Stored? {
      VersionKept(acts, init, g, t, l.pc.update, g.generation);
      if l.generation >= 1 { VersionKept(acts, init, g, t, l.pc.update, l.generation); }
      OfExtended(g.log, t, Entry(t, l.pc.update));
      assert l.done + [] == l.done;
    }
    if l.pc.Published? {
      assert (l.done + [l.pc.update]) + [] == l.done + [l.pc.update];
    }
  }

  lemma OtherStep<T>(acts: (nat, T) -> T, init: T, g: Global<T>, t: Tid, l: Local<T>, t': Tid, l': Local<T>)
    requires t' != t && GlobalOk(acts, init, g) && Enabled(g, l)
    requires ThreadOk(acts, init, g, t, l) && ThreadOk(acts, init, g, t', l')
    ensures var h := StepGlobal(g, t, l);
            h.generation == |h.log| + 1 && ThreadOk(acts, init, h, t', l')
  {
    hide Version, Result, Of;
    if l.pc.Stored? {
      if l'.generation >= 1 { VersionKept(acts, init, g, t, l.pc.update, l'.generation); }
      OfExtended(g.log, t', Entry(t, l.pc.update));
    }
  }

  // ---------------------------------------------------------------- runs

  datatype System<T> = System(global: Global<T>, threads: map<Tid, Local<T>>)

  datatype Turn<T> = Turn(tid: Tid, call: Call<T>)

  function Start<T>(init: T, tids: set<Tid>): (s: System<T>)
  {
    System(Global(init, 1, None, []), map t | t in tids :: Local(Idle, None, 0, [], []))
  }

  predicate CanStep<T>(s: System<T>, turn: Turn<T>)
  {
    turn.tid in s.threads && Enabled(s.global, s.threads[turn.tid])
  }

  function Step<T>(acts: (nat, T) -> T, s: System<T>, turn: Turn<T>): (r: System<T>)
    requires CanStep(s, turn)
  {
    var l := s.threads[turn.tid];
    System(StepGlobal(s.global, turn.tid, l), s.threads[turn.tid := StepLocal(acts, s.global, l, turn.call)])
  }

  predicate RunOk<T>(acts: (nat, T) -> T, s: System<T>, run: seq<Turn<T>>)
    decreases |run|
  {
    run != [] ==> CanStep(s, run[0]) && RunOk(acts, Step(acts, s, run[0]), run[1..])
  }

  function Run<T>(acts: (nat, T) -> T, s: System<T>, run: seq<Turn<T>>): (r: System<T>)
    requires RunOk(acts, s, run)
    decreases |run|
  {
    if run == [] then s else Run(acts, Step(acts, s, run[0]), run[1..])
  }

  ghost predicate Invariant<T>(acts: (nat, T) -> T, init: T, s: System<T>)
  {
    && GlobalOk(acts, init, s.global) && (s.global.lock.Some? ==> s.global.lock.value in s.threads)
    && forall t | t in s.threads :: ThreadOk(acts, init, s.global, t, s.threads[t])
  }

  lemma StepKeeps<T>(acts: (nat, T) -> T, init: T, s: System<T>, turn: Turn<T>)
    requires Invariant(acts, init, s) && CanStep(s, turn)
    ensures Invariant(acts, init, Step(acts, s, turn))
  {
    hide GlobalOk, ThreadOk, Enabled, StepGlobal, StepLocal;
    var l := s.threads[turn.tid];
    OwnStep(acts, init, s.global, turn.tid, l, turn.call);
    LockTaken(s.global, turn.tid, l);
    var r := Step(acts, s, turn);
    forall t | t in r.threads
      ensures r.global.generation == |r.global.log| + 1 && ThreadOk(acts, init, r.global, t, r.threads[t])
    {
      if t != turn.tid {
        OtherStep(acts, init, s.global, turn.tid, l, t, s.threads[t]);
      } else {
        OneGlobal(acts, init, r.global);
      }
    }
  }

  lemma OneGlobal<T>(acts: (nat, T) -> T, init: T, g: Global<T>)
    requires GlobalOk(acts, init, g)
    ensures g.generation == |g.log| + 1
  {
  }

  lemma LockTaken<T>(g: Global<T>, t: Tid, l: Local<T>)
    ensures var lock := StepGlobal(g, t, l).lock; lock == g.lock || lock == None || lock == Some(t)
  {
  }

  /** The invariant holds in every state that any interleaving reaches. */
  lemma {:induction false} RunKeeps<T>(acts: (nat, T) -> T, init: T, s: System<T>, run: seq<Turn<T>>)
    requires Invariant(acts, init, s) && RunOk(acts, s, run)
    ensures Invariant(acts, init, Run(acts, s, run))
    decreases |run|
  {
    hide Invariant, CanStep, Step;
    if run == [] {
    } else {
      StepKeeps(acts, init, s, run[0]);
      RunKeeps(acts, init, Step(acts, s, run[0]), run[1..]);
    }
  }

  lemma StartKeeps<T>(acts: (nat, T) -> T, init: T, tids: set<Tid>)
    ensures Invariant(acts, init, Start(init, tids))
  {
  }

  // ---------------------------------------------------------------- main results

  /**
   Every access, under every interleaving: when it returns, its pointer is not null and
   is a version published no earlier than the access began and no later than now, and
   the versions this reader has been given so far never go backwards.
   */
  lemma AccessReturnsSnapshot<T>(acts: (nat, T) -> T, init: T, tids: set<Tid>, run: seq<Turn<T>>, t: Tid)
    requires RunOk(acts, Start(init, tids), run)
    ensures var s := Run(acts, Start(init, tids), run);
            t in s.threads && s.threads[t].pc.Returning? ==>
              var l := s.threads[t];
              && 1 <= l.pc.start <= l.generation <= s.global.generation == |s.global.log| + 1
              && l.state == Some(Version(acts, init, s.global.log, l.generation))
              && Ascending(l.seen + [l.generation])
  {
    hide RunOk, Run, Version, HolderOk, Of;
    StartKeeps(acts, init, tids);
    RunKeeps(acts, init, Start(init, tids), run);
    var s := Run(acts, Start(init, tids), run);
    if t in s.threads {
      var l := s.threads[t];
      assert ThreadOk(acts, init, s.global, t, l);
      if l.pc.Returning? { AscendingSnoc(l.seen, l.generation); }
    }
  }

  /**
   No update is lost or made twice: whenever no thread holds the lock, the state is the
   initial one with the published updates applied one after the other, and these are, for
   each thread, exactly the updates it has completed, in its order.
   */
  lemma NoUpdateLost<T>(acts: (nat, T) -> T, init: T, tids: set<Tid>, run: seq<Turn<T>>)
    requires RunOk(acts, Start(init, tids), run)
    ensures var s := Run(acts, Start(init, tids), run);
            && (s.global.lock.None? ==> s.global.state == Fold(acts, init, s.global.log))
            && (forall t | t in s.threads && !s.threads[t].pc.Published? :: Of(s.global.log, t) == s.threads[t].done)
  {
    hide RunOk, Run, HolderOk, Of;
    StartKeeps(acts, init, tids);
    RunKeeps(acts, init, Start(init, tids), run);
    var s := Run(acts, Start(init, tids), run);
    assert s.global.log[..s.global.generation - 1] == s.global.log;
    forall t | t in s.threads && !s.threads[t].pc.Published?
      ensures Of(s.global.log, t) == s.threads[t].done
    {
      assert ThreadOk(acts, init, s.global, t, s.threads[t]);
    }
  }

  // ---------------------------------------------------------------- the pointer during an access

  /** A writer has stored its pointer and not yet published it. */
  predicate Storing<T>(s: System<T>)
  {
    s.global.lock.Some? && s.global.lock.value in s.threads && s.threads[s.global.lock.value].pc.Stored?
  }

  /** The version d_state points to: one ahead of the generation between a writer's two stores. */
  function Pointed<T>(s: System<T>): (v: nat)
  {
    s.global.generation + if Storing(s) then 1 else 0
  }

  /** It does: d_state is the version Pointed says. */
  lemma PointedIsState<T>(acts: (nat, T) -> T, init: T, s: System<T>)
    requires Invariant(acts, init, s)
    ensures s.global.generation == |s.global.log| + 1
    ensures var current := Version(acts, init, s.global.log, s.global.generation);
            s.global.state == current ||
            (s.global.lock.Some? && s.global.lock.value in s.threads
             && var pc := s.threads[s.global.lock.value].pc; pc.Stored? && s.global.state == Result(acts, pc.update, current))
    ensures !Storing(s) ==> s.global.state == Version(acts, init, s.global.log, Pointed(s))
    ensures Storing(s) ==>
              s.global.state == Result(acts, s.threads[s.global.lock.value].pc.update, Version(acts, init, s.global.log, s.global.generation))
  {
    hide Version, Result, Of;
    if s.global.lock.Some? {
      assert ThreadOk(acts, init, s.global, s.global.lock.value, s.threads[s.global.lock.value]);
    }
  }

  /** No step moves the pointer back. */
  lemma PointedGrows<T>(acts: (nat, T) -> T, init: T, s: System<T>, turn: Turn<T>)
    requires Invariant(acts, init, s) && CanStep(s, turn)
    ensures Pointed(Step(acts, s, turn)) >= Pointed(s)
  {
    hide Version, Result, Of, HolderOk, CacheOk, AccessOk;
    assert ThreadOk(acts, init, s.global, turn.tid, s.threads[turn.tid]);
    if s.global.lock.Some? {
      assert ThreadOk(acts, init, s.global, s.global.lock.value, s.threads[s.global.lock.value]);
    }
  }

  /** The run leaves thread t in the middle of one access: it is idle at no point on the way. */
  ghost predicate Accessing<T>(acts: (nat, T) -> T, s: System<T>, run: seq<Turn<T>>, t: Tid)
    requires RunOk(acts, s, run)
    decreases |run|
  {
    && t in s.threads && Reading(s.threads[t].pc)
    && (run != [] ==> Accessing(acts, Step(acts, s, run[0]), run[1..], t))
  }

  predicate Reading<T>(pc: Pc<T>)
  {
    pc.MustLoad? || pc.Locked? || pc.LoadedState? || pc.LoadedGeneration? || pc.Returning?
  }

  /** The version an access will return is settled once it has loaded the pointer or found its copy current. */
  lemma {:induction false} AccessSettled<T>(acts: (nat, T) -> T, init: T, s: System<T>, run: seq<Turn<T>>, t: Tid)
    requires Invariant(acts, init, s) && RunOk(acts, s, run) && Accessing(acts, s, run, t)
    ensures t in Run(acts, s, run).threads
    ensures Run(acts, s, run).threads[t].pc.Returning? ==>
              var v := Run(acts, s, run).threads[t].generation;
              match s.threads[t].pc
              case LoadedGeneration(_) => v == s.threads[t].generation
              case Returning(_) => v == s.threads[t].generation
              case Locked(_) => v == s.global.generation
              case LoadedState(_) => v == s.global.generation
              case _ => true
    decreases |run|
  {
    hide Invariant, Version;
    if run == [] {
    } else {
      StepKeeps(acts, init, s, run[0]);
      OneTurn(acts, init, s, run[0], t);
      AccessSettled(acts, init, Step(acts, s, run[0]), run[1..], t);
    }
  }

  /** One turn, of this thread or another, as far as the version of an access is concerned. */
  lemma OneTurn<T>(acts: (nat, T) -> T, init: T, s: System<T>, turn: Turn<T>, t: Tid)
    requires Invariant(acts, init, s) && CanStep(s, turn) && t in s.threads && Reading(s.threads[t].pc)
    requires t in Step(acts, s, turn).threads && Reading(Step(acts, s, turn).threads[t].pc)
    ensures var r := Step(acts, s, turn);
            var pc, pc' := s.threads[t].pc, r.threads[t].pc;
            && (pc.Locked? ==> (pc'.Locked? || pc'.LoadedState?) && r.global.generation == s.global.generation)
            && (pc.LoadedState? ==> (pc'.LoadedState? && r.global.generation == s.global.generation)
                                    || (pc'.LoadedGeneration? && r.threads[t].generation == s.global.generation))
            && (pc.LoadedGeneration? || pc.Returning? ==>
                  (pc'.LoadedGeneration? || pc'.Returning?) && r.threads[t].generation == s.threads[t].generation)
            && (pc.MustLoad? ==> pc'.MustLoad? || pc'.Locked?)
  {
    hide Version, Result, Of, HolderOk, CacheOk, AccessOk;
    assert ThreadOk(acts, init, s.global, t, s.threads[t]);
    assert ThreadOk(acts, init, s.global, turn.tid, s.threads[turn.tid]);
  }

  /** At some point of the run d_state points to version v. */
  ghost predicate PointedAt<T>(acts: (nat, T) -> T, s: System<T>, run: seq<Turn<T>>, v: nat)
    requires RunOk(acts, s, run)
    decreases |run|
  {
    Pointed(s) == v || (run != [] && PointedAt(acts, Step(acts, s, run[0]), run[1..], v))
  }

  /** An access that loads returns a version that d_state points to while it holds the lock. */
  lemma {:induction false} SlowAccess<T>(acts: (nat, T) -> T, init: T, s: System<T>, run: seq<Turn<T>>, t: Tid)
    requires Invariant(acts, init, s) && RunOk(acts, s, run) && Accessing(acts, s, run, t)
    requires (s.threads[t].pc.MustLoad? || s.threads[t].pc.Locked?) && t in Run(acts, s, run).threads
    requires Run(acts, s, run).threads[t].pc.Returning?
    ensures PointedAt(acts, s, run, Run(acts, s, run).threads[t].generation)
    decreases |run|
  {
    hide Invariant, Version;
    if s.threads[t].pc.Locked? {
      AccessSettled(acts, init, s, run, t);
      HolderPoints(acts, init, s, t);
    } else {
      StepKeeps(acts, init, s, run[0]);
      OneTurn(acts, init, s, run[0], t);
      SlowAccess(acts, init, Step(acts, s, run[0]), run[1..], t);
    }
  }

  lemma HolderPoints<T>(acts: (nat, T) -> T, init: T, s: System<T>, t: Tid)
    requires Invariant(acts, init, s) && t in s.threads && s.threads[t].pc.Locked?
    ensures Pointed(s) == s.global.generation
  {
    assert ThreadOk(acts, init, s.global, t, s.threads[t]);
  }

  lemma {:induction false} PointerPassed<T>(acts: (nat, T) -> T, init: T, s: System<T>, run: seq<Turn<T>>, v: nat)
    requires Invariant(acts, init, s) && RunOk(acts, s, run) && v < Pointed(s)
    ensures !PointedAt(acts, s, run, v)
    decreases |run|
  {
    hide Invariant, Pointed;
    if run == [] {
    } else {
      StepKeeps(acts, init, s, run[0]);
      PointedGrows(acts, init, s, run[0]);
      PointerPassed(acts, init, Step(acts, s, run[0]), run[1..], v);
    }
  }

  /**
   Every access under every interleaving, from its comparison of generations to its return:
   the version it returns is one that d_state pointed to at some instant of the access if and
   only if it had to load, or no writer was between its two stores when it began.
   */
  lemma AccessReturnsPointerIff<T>(acts: (nat, T) -> T, init: T, s: System<T>, run: seq<Turn<T>>, t: Tid)
    requires Invariant(acts, init, s) && t in s.threads && s.threads[t].pc.Idle?
    requires run != [] && run[0] == Turn(t, Access) && RunOk(acts, s, run) && Accessing(acts, Step(acts, s, run[0]), run[1..], t)
    requires t in Run(acts, s, run).threads && Run(acts, s, run).threads[t].pc.Returning?
    ensures PointedAt(acts, s, run, Run(acts, s, run).threads[t].generation)
       <==> s.threads[t].generation != s.global.generation || !Storing(s)
  {
    hide Invariant, Version;
    StepKeeps(acts, init, s, run[0]);
    var u := Step(acts, s, run[0]);
    var v := Run(acts, s, run).threads[t].generation;
    assert Pointed(u) == Pointed(s) by { AccessKeepsPointer(acts, init, s, t); }
    if s.threads[t].generation != s.global.generation {
      SlowAccess(acts, init, u, run[1..], t);
    } else {
      AccessSettled(acts, init, u, run[1..], t);
      assert v == s.global.generation;
      if Storing(s) {
        PointerPassed(acts, init, u, run[1..], v);
      }
    }
  }

  lemma AccessKeepsPointer<T>(acts: (nat, T) -> T, init: T, s: System<T>, t: Tid)
    requires Invariant(acts, init, s) && t in s.threads && s.threads[t].pc.Idle?
    ensures CanStep(s, Turn(t, Access)) && Pointed(Step(acts, s, Turn(t, Access))) == Pointed(s)
  {
    assert ThreadOk(acts, init, s.global, t, s.threads[t]);
  }

  // ---------------------------------------------------------------- an access that returns an older version

  lemma FirstTurn<T>(acts: (nat, T) -> T, s: System<T>, turn: Turn<T>, rest: seq<Turn<T>>)
    requires CanStep(s, turn) && RunOk(acts, Step(acts, s, turn), rest)
    ensures RunOk(acts, s, [turn] + rest) && Run(acts, s, [turn] + rest) == Run(acts, Step(acts, s, turn), rest)
  {
    hide CanStep, Step;
    assert ([turn] + rest)[1..] == rest;
  }

  lemma TwoTurns<T>(acts: (nat, T) -> T, s: System<T>, turn: Turn<T>, rest: seq<Turn<T>>)
    requires CanStep(s, turn) && CanStep(Step(acts, s, turn), turn)
    requires RunOk(acts, Step(acts, Step(acts, s, turn), turn), rest)
    ensures RunOk(acts, s, [turn, turn] + rest)
    ensures Run(acts, s, [turn, turn] + rest) == Run(acts, Step(acts, Step(acts, s, turn), turn), rest)
  {
    hide CanStep, Step, Run, RunOk;
    var u := Step(acts, s, turn);
    FirstTurn(acts, u, turn, rest);
    FirstTurn(acts, s, turn, [turn] + rest);
    assert [turn] + ([turn] + rest) == [turn, turn] + rest;
  }

  /** Two threads: a writer at `pc` and a reader. */
  function Pair<T>(state: T, generation: nat, lock: Option<Tid>, pc: Pc<T>, reader: Local<T>): (s: System<T>)
  {
    System(Global(state, generation, lock, []), map[0 := Local(pc, None, 0, [], []), 1 := reader])
  }

  /** The reader's first access, in three pairs of turns. */
  lemma ReaderLoads<T>(acts: (nat, T) -> T, init: T)
    ensures var r, idle := Turn(1, Access), Local(Idle, Some(init), 1, [1], []);
            var s := Pair(init, 1, None, Idle, Local(Idle, None, 0, [], []));
            var s2 := Pair(init, 1, Some(1), Idle, Local(Locked(1), None, 0, [], []));
            var s4 := Pair(init, 1, Some(1), Idle, Local(LoadedGeneration(1), Some(init), 1, [], []));
            && CanStep(s, r) && CanStep(Step(acts, s, r), r) && Step(acts, Step(acts, s, r), r) == s2
            && CanStep(s2, r) && CanStep(Step(acts, s2, r), r) && Step(acts, Step(acts, s2, r), r) == s4
            && CanStep(s4, r) && CanStep(Step(acts, s4, r), r) && Step(acts, Step(acts, s4, r), r) == Pair(init, 1, None, Idle, idle)
  {
    var none: seq<nat> := [];
    assert none + [1] == [1];
  }

  /** The writer's turns up to its first store, in two pairs. */
  lemma WriterLocks<T>(acts: (nat, T) -> T, init: T, u: Update<T>, reader: Local<T>)
    ensures var w, s := Turn(0, Write(u)), Pair(init, 1, None, Idle, reader);
            && CanStep(s, w) && CanStep(Step(acts, s, w), w)
            && Step(acts, Step(acts, s, w), w) == Pair(init, 1, Some(0), Writing(u), reader)
  {
    var s1 := Pair(init, 1, None, MustWrite(u), reader);
    var w: Turn<T> := Turn(0, Write(u));
    assert Step(acts, Pair(init, 1, None, Idle, reader), w) == s1;
    assert Step(acts, s1, w) == Pair(init, 1, Some(0), Writing(u), reader);
  }

  lemma WriterStores<T>(acts: (nat, T) -> T, init: T, u: Update<T>, reader: Local<T>)
    ensures var w, s := Turn(0, Write(u)), Pair(init, 1, Some(0), Writing(u), reader);
            && CanStep(s, w) && CanStep(Step(acts, s, w), w)
            && Step(acts, Step(acts, s, w), w) == Pair(Result(acts, u, init), 1, Some(0), Stored(u), reader)
  {
    hide Result;
    var s1 := Pair(init, 1, Some(0), Computed(u, Result(acts, u, init)), reader);
    var w: Turn<T> := Turn(0, Write(u));
    assert Step(acts, Pair(init, 1, Some(0), Writing(u), reader), w) == s1;
    assert Step(acts, s1, w) == Pair(Result(acts, u, init), 1, Some(0), Stored(u), reader);
  }

  /** Thread 1 reads once, then thread 0 writes up to its first store. */
  function Racing<T>(u: Update<T>): (run: seq<Turn<T>>)
  {
    var r, w := Turn(1, Access), Turn(0, Write(u));
    [r, r] + ([r, r] + ([r, r] + ([w, w] + ([w, w] + []))))
  }

  lemma RacingReaches<T>(acts: (nat, T) -> T, init: T, u: Update<T>)
    ensures RunOk(acts, Start(init, {0, 1}), Racing(u))
    ensures Run(acts, Start(init, {0, 1}), Racing(u))
         == Pair(Result(acts, u, init), 1, Some(0), Stored(u), Local(Idle, Some(init), 1, [1], []))
  {
    var fresh0, idle := Local(Idle, None, 0, [], []), Local(Idle, Some(init), 1, [1], []);
    var s0 := Pair(init, 1, None, Idle, fresh0);
    assert Start(init, {0, 1}) == s0;
    hide CanStep, Step, Run, RunOk, Pair, Start, Result;
    ReaderLoads(acts, init);
    WriterLocks(acts, init, u, idle);
    WriterStores(acts, init, u, idle);
    var r, w := Turn(1, Access), Turn(0, Write(u));
    var s2 := Pair(init, 1, Some(1), Idle, Local(Locked(1), None, 0, [], []));
    var s4 := Pair(init, 1, Some(1), Idle, Local(LoadedGeneration(1), Some(init), 1, [], []));
    var s6, s8 := Pair(init, 1, None, Idle, idle), Pair(init, 1, Some(0), Writing(u), idle);
    EndOfRun(acts, Pair(Result(acts, u, init), 1, Some(0), Stored(u), idle));
    TwoTurns(acts, s8, w, []);
    TwoTurns(acts, s6, w, [w, w] + []);
    TwoTurns(acts, s4, r, [w, w] + ([w, w] + []));
    TwoTurns(acts, s2, r, [r, r] + ([w, w] + ([w, w] + [])));
    TwoTurns(acts, s0, r, [r, r] + ([r, r] + ([w, w] + ([w, w] + []))));
  }

  lemma EndOfRun<T>(acts: (nat, T) -> T, s: System<T>)
    ensures RunOk(acts, s, []) && Run(acts, s, []) == s
  {
  }

  /**
   Such an access happens: from the start, after the run Racing, an access of thread 1 finds
   its copy current and returns the initial state, although d_state has been another pointer
   since before it began.
   */
  lemma OldVersionReturned<T>(acts: (nat, T) -> T, init: T, u: Update<T>)
    ensures RunOk(acts, Start(init, {0, 1}), Racing(u))
    ensures var s := Run(acts, Start(init, {0, 1}), Racing(u));
            && Storing(s) && s.global.state == Result(acts, u, init) && CanStep(s, Turn(1, Access))
            && var r := Step(acts, s, Turn(1, Access));
               && r.threads.Keys == {0, 1} && r.threads[1].pc.Returning? && r.threads[1].state == Some(init)
               && !PointedAt(acts, s, [Turn(1, Access)], r.threads[1].generation)
  {
    hide Result, Run, Start;
    RacingReaches(acts, init, u);
    var s := Run(acts, Start(init, {0, 1}), Racing(u));
    var turn: Turn<T> := Turn(1, Access);
    assert [turn][1..] == [];
  }

  // ---------------------------------------------------------------- one update

  /** Turns of one thread in the middle of what it does. */
  function Turns<T>(t: Tid, k: nat): (run: seq<Turn<T>>)
  {
    if k == 0 then [] else [Turn(t, Access)] + Turns(t, k - 1)
  }

  lemma NoTurns<T>(acts: (nat, T) -> T, s: System<T>, t: Tid)
    ensures RunOk(acts, s, Turns(t, 0)) && Run(acts, s, Turns(t, 0)) == s
  {
  }

  /** A writer between two of its own steps: where it is, and what it has done to the holder. */
  function At<T>(s: System<T>, t: Tid, pc: Pc<T>, g: Global<T>): (r: System<T>)
    requires t in s.threads
  {
    System(g, s.threads[t := s.threads[t].(pc := pc)])
  }

  lemma AtStep<T>(acts: (nat, T) -> T, s: System<T>, t: Tid, pc: Pc<T>, g: Global<T>, next: Pc<T>, h: Global<T>)
    requires t in s.threads && (pc.MustWrite? ==> g.lock.None?) && !pc.MustLoad?
    requires StepGlobal(g, t, s.threads[t].(pc := pc)) == h
    requires StepLocal(acts, g, s.threads[t].(pc := pc), Access) == s.threads[t].(pc := next)
    ensures CanStep(At(s, t, pc, g), Turn(t, Access)) && Step(acts, At(s, t, pc, g), Turn(t, Access)) == At(s, t, next, h)
  {
    hide StepGlobal, StepLocal;
    assert At(s, t, pc, g).threads[t := s.threads[t].(pc := next)] == At(s, t, next, h).threads;
  }

  /**
   An update that no other thread comes between: modify replaces the state by what its function
   makes of it, and setState by the given one; one version is published and the lock is free.
   */
  lemma UpdateAlone<T>(acts: (nat, T) -> T, s: System<T>, t: Tid, u: Update<T>)
    requires t in s.threads && s.threads[t].pc.Idle? && s.global.lock.None?
    ensures var run := [Turn(t, Write(u))] + Turns(t, 5);
            && RunOk(acts, s, run)
            && var r := Run(acts, s, run);
               && r.global.state == (if u.SetState? then u.value else acts(u.act, s.global.state))
               && r.global.generation == s.global.generation + 1 && r.global.lock.None?
               && r.threads == s.threads[t := s.threads[t].(done := s.threads[t].done + [u])]
  {
    hide Run, RunOk;
    var g, l := s.global, s.threads[t];
    var next := Result(acts, u, g.state);
    var locked := g.(lock := Some(t));
    var stored := locked.(state := next);
    var published := stored.(generation := g.generation + 1, log := g.log + [Entry(t, u)]);
    var a := Turn<T>.Turn(t, Access);
    assert Step(acts, s, Turn(t, Write(u))) == At(s, t, MustWrite(u), g);
    AtStep(acts, s, t, MustWrite(u), g, Writing(u), locked);
    AtStep(acts, s, t, Writing(u), locked, Computed(u, next), locked);
    AtStep(acts, s, t, Computed(u, next), locked, Stored(u), stored);
    AtStep(acts, s, t, Stored(u), stored, Published(u), published);
    var last := At(s, t, Published(u), published);
    var r := Step(acts, last, a);
    assert r.threads == s.threads[t := l.(done := l.done + [u])] by {
      assert r.threads[t] == l.(done := l.done + [u]);
    }
    NoTurns(acts, r, t);
    FirstTurn(acts, last, a, Turns(t, 0));
    FirstTurn(acts, At(s, t, Stored(u), stored), a, Turns(t, 1));
    FirstTurn(acts, At(s, t, Computed(u, next), locked), a, Turns(t, 2));
    FirstTurn(acts, At(s, t, Writing(u), locked), a, Turns(t, 3));
    FirstTurn(acts, At(s, t, MustWrite(u), g), a, Turns(t, 4));
    FirstTurn(acts, s, Turn(t, Write(u)), Turns(t, 5));
  }

  /**
   How an access begins: with the lock-free comparison if the copy is of the current generation,
   and by waiting for the lock if not; after reset, always so.
   */
  lemma AccessBegins<T>(acts: (nat, T) -> T, s: System<T>, t: Tid)
    requires t in s.threads && s.threads[t].pc.Idle? && s.global.generation >= 1
    ensures CanStep(s, Turn(t, Access)) && CanStep(s, Turn(t, Reset))
    ensures var r := Step(acts, s, Turn(t, Access));
            && r.global == s.global
            && (r.threads[t].pc.Returning? <==> s.threads[t].generation == s.global.generation)
            && (r.threads[t].pc.MustLoad? <==> s.threads[t].generation != s.global.generation)
    ensures var r := Step(acts, s, Turn(t, Reset));
            && r.global == s.global && r.threads[t].state.None? && r.threads[t].pc.Idle?
            && CanStep(r, Turn(t, Access)) && Step(acts, r, Turn(t, Access)).threads[t].pc.MustLoad?
  {
  }
}
