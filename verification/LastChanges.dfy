/**
 The order of the key list and expiry, in terms of the calls made on a node: which keys were
 changed last, and which an expiry pass drops.
 */
module LastChanges {

  import opened Basics
  import opened Rings
  import opened Members
  import opened Convergence
  import DB = StatsDBs
  import R = Replication
  import Sh = Sharding
  import SR = SyncRuns

  /** What happens to a node's database: a call or a read, a new limit, or an expiry pass. */
  datatype Event = Does(task: Task) | Soft(size: nat) | Expires

  ghost function EventOp(env: Env, ev: Event): (op: DB.Op<Entry, bool>)
  {
    match ev
    case Does(t) => if Idle(t) then DB.GetSize else TaskOp(env, t)
    case Soft(n) => DB.SetSoft(n)
    case Expires => DB.ExpirePass
  }

  ghost function EventOps(env: Env, events: seq<Event>): (ops: seq<DB.Op<Entry, bool>>)
    ensures |ops| == |events|
  {
    seq(|events|, i requires 0 <= i < |events| => EventOp(env, events[i]))
  }

  /** The database after the events. */
  ghost function After(env: Env, make: DB.Make<Entry>, v: DB.View<Entry>, events: seq<Event>): (r: DB.View<Entry>)
  {
    DB.Run(v, EventOps(env, events), make)
  }

  // ---------------------------------------------------------------- which changes count

  /** The event changes key k: the field is known, and the change does not throw or creates the key. */
  ghost predicate ChangesKey(env: Env, v: DB.View<Entry>, ev: Event, k: DB.Key)
  {
    && ev.Does? && ev.task.Carry? && ev.task.plan.DoChange? && ev.task.plan.key == k
    && var f := ev.task.plan.field;
       DB.Known(v, f) && (k !in v.entries || !Throwing(env, v.fields[f] == "int", ev.task.plan.change))
  }

  /** Entries of integer fields have integer members, and no others do. */
  ghost function KindsFor(fields: map<string, string>): (ok: (string, Entry) -> bool)
  {
    (f: string, e: Entry) => f in fields ==> Kinds(e, fields[f] == "int")
  }

  ghost predicate MakesKinds(fields: map<string, string>, make: DB.Make<Entry>)
  {
    forall k, f | f in fields :: Kinds(make(k, f, fields[f]), fields[f] == "int")
  }

  lemma ActKeepsKinds(env: Env, now: int, ch: Change, e: Entry, isInt: bool)
    requires Kinds(e, isInt)
    ensures Kinds(ActAt(env, now, ch, e).entry, isInt)
  {
    hide ActAt, MemberStep, Kinds;
    ActIsStep(env, now, ch, e, isInt);
    StepKeepsKinds(env, e, now, if Throwing(env, isInt, ch) then Read else Put(ch), isInt);
  }

  lemma EventRespects(env: Env, fields: map<string, string>, make: DB.Make<Entry>, ev: Event)
    requires MakesKinds(fields, make)
    ensures SR.Respects(EventOp(env, ev), fields, make, KindsFor(fields))
  {
    hide Kinds, ActAt, Clean, ClearEntry;
    var ok := KindsFor(fields);
    if ev.Does? && !Idle(ev.task) {
      var now := ev.task.now;
      forall f: string, e: Entry | ok(f, e)
        ensures ok(f, Summed(now, e).entry) && ok(f, ClearEntry(e))
      {
        if f in fields {
          CleanKeepsInts(e, now, fields[f] == "int");
          ClearKeepsKinds(e, fields[f] == "int");
        }
      }
      if ev.task.Carry? && ev.task.plan.DoChange? {
        forall f: string, e: Entry | ok(f, e)
          ensures ok(f, ActAt(env, now, ev.task.plan.change, e).entry)
        {
          if f in fields {
            ActKeepsKinds(env, now, ev.task.plan.change, e, fields[f] == "int");
          }
        }
      }
    }
  }

  lemma ClearKeepsKinds(e: Entry, isInt: bool)
    requires Kinds(e, isInt)
    ensures Kinds(ClearEntry(e), isInt)
  {
    CleanKeepsInts(e, 0, isInt);
  }

  lemma {:induction false} RunKeepsKinds(env: Env, make: DB.Make<Entry>, v: DB.View<Entry>, events: seq<Event>)
    requires v.entries == map[] && MakesKinds(v.fields, make)
    ensures var r := After(env, make, v, events); SR.Every(r, KindsFor(v.fields)) && r.fields == v.fields
    decreases |events|
  {
    hide SR.Respects, DB.Step, MakesKinds, EventOp, KindsFor;
    if events == [] {
    } else {
      var rest := events[..|events| - 1];
      RunKeepsKinds(env, make, v, rest);
      assert EventOps(env, events)[..|events| - 1] == EventOps(env, rest);
      EventRespects(env, v.fields, make, events[|events| - 1]);
      SR.StepKeepsEvery(After(env, make, v, rest), EventOp(env, events[|events| - 1]), make, KindsFor(v.fields));
    }
  }

  /** A change that does not throw writes; one that does, does not. */
  lemma ActWrites(env: Env, now: int, ch: Change, e: Entry, isInt: bool)
    requires Kinds(e, isInt)
    ensures ActAt(env, now, ch, e).wrote <==> !Throwing(env, isInt, ch)
  {
    hide Clean, Write, Mod, Window;
    CleanKeepsInts(e, now, isInt);
  }

  /** The key an event touches, in terms of the call. */
  lemma TouchedIs(env: Env, make: DB.Make<Entry>, v: DB.View<Entry>, ev: Event, k: DB.Key)
    requires SR.Every(v, KindsFor(v.fields)) && MakesKinds(v.fields, make)
    ensures DB.Touched(v, EventOp(env, ev), make) == Some(k) <==> ChangesKey(env, v, ev, k)
  {
    hide ActAt, Throwing, Kinds, Clean;
    if ev.Does? && ev.task.Carry? && ev.task.plan.DoChange? {
      var p, now := ev.task.plan, ev.task.now;
      if DB.Known(v, p.field) {
        var e := DB.Created(v, p.key, p.field, make).entries[p.key][p.field];
        assert Kinds(e, v.fields[p.field] == "int") by {
          assert DB.Has(v, p.key, p.field) ==> KindsFor(v.fields)(p.field, e);
        }
        ActWrites(env, now, p.change, e, v.fields[p.field] == "int");
      }
    }
  }

  /**
   How one event changes the order of the keys: a change moves its key to the end, and resets,
   reads, throwing changes of a key that is there, and new limits leave it.
   */
  lemma EventOrder(env: Env, make: DB.Make<Entry>, v: DB.View<Entry>, ev: Event)
    requires DB.Consistent(v) && SR.Every(v, KindsFor(v.fields)) && MakesKinds(v.fields, make) && !ev.Expires?
    ensures var r := DB.Step(v, EventOp(env, ev), make);
            && (forall k | ChangesKey(env, v, ev, k) :: r.order == DB.Without(v.order, k) + [k])
            && ((forall k :: !ChangesKey(env, v, ev, k)) ==> r.order == v.order)
  {
    hide DB.Step, DB.Touched, DB.Consistent, ChangesKey, KindsFor, SR.Every, MakesKinds, EventOp;
    NoPass(env, ev);
    DB.StepOrder(v, EventOp(env, ev), make);
    forall k
      ensures DB.Touched(v, EventOp(env, ev), make) == Some(k) <==> ChangesKey(env, v, ev, k)
    {
      TouchedIs(env, make, v, ev, k);
    }
  }

  lemma NoPass(env: Env, ev: Event)
    requires !ev.Expires?
    ensures !EventOp(env, ev).ExpirePass?
  {
  }

  // ---------------------------------------------------------------- runs

  /** The number of events up to and including the last that changed k, or 0. */
  ghost function LastChange(env: Env, make: DB.Make<Entry>, v: DB.View<Entry>, events: seq<Event>, k: DB.Key): (n: nat)
    ensures n <= |events|
  {
    if events == [] then 0 else
      var before := events[..|events| - 1];
      if ChangesKey(env, After(env, make, v, before), events[|events| - 1], k) then |events| else LastChange(env, make, v, before, k)
  }

  lemma {:induction false} LastWriteIs(env: Env, make: DB.Make<Entry>, v: DB.View<Entry>, events: seq<Event>, k: DB.Key)
    requires v.entries == map[] && MakesKinds(v.fields, make)
    ensures DB.LastWrite(v, EventOps(env, events), make, k) == LastChange(env, make, v, events, k)
    decreases |events|
  {
    hide DB.Touched, ChangesKey, EventOp, SR.Every, KindsFor, MakesKinds, DB.Step;
    if events == [] {
    } else {
      var before := events[..|events| - 1];
      LastWriteIs(env, make, v, before, k);
      assert EventOps(env, events)[..|events| - 1] == EventOps(env, before);
      RunKeepsKinds(env, make, v, before);
      TouchedIs(env, make, After(env, make, v, before), events[|events| - 1], k);
    }
  }

  /**
   After any calls, reads, new limits and expiry passes the key list has no duplicates, holds
   exactly the keys of the map, and is in the order in which they were last changed.
   */
  lemma OrderIsLastChange(env: Env, make: DB.Make<Entry>, v: DB.View<Entry>, events: seq<Event>)
    requires v.order == [] && v.entries == map[] && MakesKinds(v.fields, make)
    ensures var r := After(env, make, v, events);
            DB.Consistent(r) && DB.Sorted(r.order, k => LastChange(env, make, v, events, k))
  {
    hide DB.Run, DB.Consistent, DB.Sorted, DB.LastWrite, LastChange, MakesKinds;
    DB.OrderIsLastWrite(v, EventOps(env, events), make);
    var r := After(env, make, v, events);
    forall k
      ensures DB.LastWrite(v, EventOps(env, events), make, k) == LastChange(env, make, v, events, k)
    {
      LastWriteIs(env, make, v, events, k);
    }
    DB.SortedCong(r.order, k => DB.LastWrite(v, EventOps(env, events), make, k), k => LastChange(env, make, v, events, k));
  }

  /**
   Then an expiry pass leaves the keys as they are if they are no more than the limit, and
   otherwise exactly as many as the limit, every one changed later than all those it drops.
   */
  lemma PassKeepsLatest(env: Env, make: DB.Make<Entry>, v: DB.View<Entry>, events: seq<Event>, gone: DB.Key, kept: DB.Key)
    requires v.order == [] && v.entries == map[] && MakesKinds(v.fields, make)
    ensures var r, e := After(env, make, v, events), After(env, make, v, events + [Expires]);
            && (|r.entries| <= r.soft ==> e == r)
            && (|r.entries| > r.soft ==> |e.entries| == r.soft)
            && (forall k | k in e.entries :: k in r.entries && e.entries[k] == r.entries[k])
            && (gone in r.entries && gone !in e.entries && kept in e.entries ==>
                  LastChange(env, make, v, events, gone) < LastChange(env, make, v, events, kept))
  {
    hide DB.Consistent, DB.Sorted, LastChange, MakesKinds, DB.Expired;
    OrderIsLastChange(env, make, v, events);
    var all := events + [Expires];
    assert EventOps(env, all)[..|events|] == EventOps(env, events);
    DB.ExpiryKeepsLast(After(env, make, v, events), k => LastChange(env, make, v, events, k), gone, kept);
  }
}
