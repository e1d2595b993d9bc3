/**
 Full synchronisation of every database that a run can reach, expiry and earlier
 synchronisations included: what the codec needs of an entry is kept by every operation,
 except that integers and counters must not have outgrown their words.
 */
module SyncRuns {

  import opened Basics
  import opened Rings
  import opened Members
  import opened StringReads
  import opened Convergence
  import opened Sharding
  import opened SyncCodec
  import FS = FullSync
  import DB = StatsDBs
  import R = Replication
  import C = CountMin
  import H = HyperLogLogs

  // ---------------------------------------------------------------- a property of all entries

  ghost predicate Every<E>(v: DB.View<E>, ok: (string, E) -> bool)
  {
    forall k, f | k in v.entries && f in v.entries[k] :: ok(f, v.entries[k][f])
  }

  /** The operation's functions keep the property, and new entries have it. */
  ghost predicate Respects<E(!new), R>(op: DB.Op<E, R>, fields: map<string, string>, make: DB.Make<E>, ok: (string, E) -> bool)
  {
    match op
    case Update(k, f, fn) => (f in fields ==> ok(f, make(k, f, fields[f]))) && forall e | ok(f, e) :: ok(f, fn(e).entry)
    case Query(_, f, fn) => forall e | ok(f, e) :: ok(f, fn(e).entry)
    case AllFields(_, fn) => forall f, e | ok(f, e) :: ok(f, fn(e).entry)
    case ClearField(_, f, clear) => forall e | ok(f, e) :: ok(f, clear(e))
    case SetFields(types) => types == fields
    case _ => true
  }

  lemma StepKeepsEvery<E(!new), R>(v: DB.View<E>, op: DB.Op<E, R>, make: DB.Make<E>, ok: (string, E) -> bool)
    requires Every(v, ok) && Respects(op, v.fields, make, ok)
    ensures Every(DB.Step(v, op, make), ok) && DB.Step(v, op, make).fields == v.fields
  {
    hide DB.Touch, DB.Members;
    match op
    case Update(k, f, fn) => if DB.Known(v, f) { UpdateKeepsEvery(v, k, f, fn, make, ok); }
    case Query(k, f, fn) =>
    case AllFields(k, fn) =>
    case ClearField(k, f, clear) =>
    case SetFields(_) =>
    case SetSoft(_) =>
    case ExpirePass =>
    case GetSize =>
  }

  lemma UpdateKeepsEvery<E(!new), R>(v: DB.View<E>, k: DB.Key, f: string, fn: E -> DB.Outcome<E, R>,
                                     make: DB.Make<E>, ok: (string, E) -> bool)
    requires Every(v, ok) && DB.Known(v, f) && ok(f, make(k, f, v.fields[f])) && forall e | ok(f, e) :: ok(f, fn(e).entry)
    ensures Every(DB.On(DB.Created(v, k, f, make), k, f, fn), ok)
  {
    hide DB.Touch;
    var c := DB.Created(v, k, f, make);
    assert Every(c, ok);
    assert ok(f, c.entries[k][f]);
  }

  // ---------------------------------------------------------------- shards

  /** What every operation on the shards keeps, expiry included. */
  ghost predicate ShardsOk<E>(shards: seq<DB.View<E>>, hash: DB.Key -> nat, fields: map<string, string>, ok: (string, E) -> bool)
    requires |shards| > 0
  {
    && Homed(shards, hash)
    && forall i | 0 <= i < |shards| :: shards[i].fields == fields && DB.Consistent(shards[i]) && Every(shards[i], ok)
  }

  /** An operation brings no key to a shard but its own. */
  lemma StepKeys<E, R>(v: DB.View<E>, op: DB.Op<E, R>, make: DB.Make<E>)
    ensures forall k | k in DB.Step(v, op, make).entries :: k in v.entries || KeyOf(op) == Some(k)
  {
    hide DB.Touch, DB.MapAll, DB.Members;
  }

  lemma ShardStepOk<E(!new), R>(shards: seq<DB.View<E>>, op: DB.Op<E, R>, make: DB.Make<E>, hash: DB.Key -> nat,
                                fields: map<string, string>, ok: (string, E) -> bool)
    requires |shards| > 0 && ShardsOk(shards, hash, fields, ok) && Respects(op, fields, make, ok)
    ensures ShardsOk(ShardStep(shards, op, make, hash), hash, fields, ok)
  {
    hide DB.Step, DB.Consistent, Every, Respects, Place;
    var n, r := |shards|, ShardStep(shards, op, make, hash);
    forall i | 0 <= i < n
      ensures r[i].fields == fields && DB.Consistent(r[i]) && Every(r[i], ok)
      ensures forall k | k in r[i].entries :: Place(hash, n, k) == i
    {
      PartRespects(op, n, fields, make, ok);
      var p := Part(op, n);
      DB.StepOrder(shards[i], op, make);
      StepKeepsEvery(shards[i], op, make, ok);
      StepKeys(shards[i], op, make);
      DB.StepOrder(shards[i], p, make);
      StepKeepsEvery(shards[i], p, make, ok);
      StepKeys(shards[i], p, make);
    }
  }

  lemma PartRespects<E(!new), R>(op: DB.Op<E, R>, n: nat, fields: map<string, string>, make: DB.Make<E>, ok: (string, E) -> bool)
    requires n > 0 && Respects(op, fields, make, ok)
    ensures Respects(Part(op, n), fields, make, ok) && KeyOf(Part(op, n)) == KeyOf(op)
  {
  }

  /** Operations in order, each with what makes the entries it creates: an entry made again is made anew. */
  function MakingRun<E, R>(shards: seq<DB.View<E>>, ops: seq<DB.Op<E, R>>, makes: seq<DB.Make<E>>, hash: DB.Key -> nat): (r: seq<DB.View<E>>)
    requires |shards| > 0 && |makes| == |ops|
    ensures |r| == |shards|
  {
    if ops == [] then shards else
      var n := |ops| - 1;
      ShardStep(MakingRun(shards, ops[..n], makes[..n], hash), ops[n], makes[n], hash)
  }

  lemma {:induction false} ShardRunOk<E(!new), R>(shards: seq<DB.View<E>>, ops: seq<DB.Op<E, R>>, makes: seq<DB.Make<E>>, hash: DB.Key -> nat,
                                                  fields: map<string, string>, ok: (string, E) -> bool)
    requires |shards| > 0 && ShardsOk(shards, hash, fields, ok) && |makes| == |ops|
    requires forall i | 0 <= i < |ops| :: Respects(ops[i], fields, makes[i], ok)
    ensures ShardsOk(MakingRun(shards, ops, makes, hash), hash, fields, ok)
    decreases |ops|
  {
    hide ShardsOk, Respects, ShardStep;
    if ops == [] {
    } else {
      var n := |ops| - 1;
      ShardRunOk(shards, ops[..n], makes[..n], hash, fields, ok);
      ShardStepOk(MakingRun(shards, ops[..n], makes[..n], hash), ops[n], makes[n], hash, fields, ok);
    }
  }

  /** The shards as one database. */
  ghost function Union<E>(shards: seq<DB.View<E>>, hash: DB.Key -> nat): (v: DB.View<E>)
    requires |shards| > 0
  {
    var home := (k: DB.Key) => shards[Place(hash, |shards|, k)].entries;
    DB.View([], map k | k in KeysBelow(shards) && k in home(k) :: home(k)[k], shards[0].fields, 0)
  }

  lemma UnionSimulated<E>(shards: seq<DB.View<E>>, hash: DB.Key -> nat, fields: map<string, string>, ok: (string, E) -> bool)
    requires |shards| > 0 && ShardsOk(shards, hash, fields, ok)
    ensures Simulates(shards, Union(shards, hash), hash) && Union(shards, hash).fields == fields && Every(Union(shards, hash), ok)
  {
    hide Place, DB.Consistent;
    var v := Union(shards, hash);
    SizeBelow(shards, hash, |shards|);
    assert shards[..|shards|] == shards;
    forall k
      ensures Lookup(shards[Place(hash, |shards|, k)], k) == Lookup(v, k)
    {
    }
    forall k, f | k in v.entries && f in v.entries[k]
      ensures ok(f, v.entries[k][f])
    {
      assert Every(shards[Place(hash, |shards|, k)], ok);
    }
  }

  // ---------------------------------------------------------------- what the codec needs of a member

  /** Fixed when a count-min sketch is made. */
  predicate Formed(sizing: Sizing, m: Member)
  {
    m.CmM? ==>
      && sizing(m.shape) == Some(Size(m.c.width, |m.c.hashes|))
      && 0 <= m.shape.eps < TWO32 && 0 <= m.shape.gamma < TWO32 && AllInts(Spread(m.c.hashes))
  }

  /** Integers and counters fit their words. */
  predicate InRange(m: Member)
  {
    match m
    case IntM(i) => R.IsInt(i)
    case HllM(_) => true
    case CmM(_, c) => 0 <= c.total < TWO32 && AllInts(Flat(c.cells))
  }

  lemma SendableIff(sizing: Sizing, m: Member)
    ensures Sendable(sizing, m) <==> Formed(sizing, m) && InRange(m)
  {
    hide AllInts, Flat, Spread;
  }

  /** An entry like a new one, with sketches that are sized as the peer will size them. */
  predicate Fit(sizing: Sizing, a: Entry, e: Entry)
  {
    Alike(a, e) && forall i | 0 <= i < |e.slots| :: Formed(sizing, e.slots[i].val)
  }

  ghost predicate Kept(sizing: Sizing, a: Member, b: Member)
  {
    SameKind(a, b) && (Formed(sizing, a) ==> Formed(sizing, b))
  }

  lemma ChangeKept(sizing: Sizing, env: Env, m: Member, ch: Change)
    ensures Kept(sizing, m, Put1(env, m, ch)) && Kept(sizing, m, Erased(m)) && Kept(sizing, m, m)
  {
    hide H.Add, H.Empty, AllInts, Spread;
  }

  lemma AskKept(sizing: Sizing, env: Env, m: Member, s: string)
    ensures Kept(sizing, m, AfterGet(env, m, s))
  {
    hide H.Add, AllInts, Spread;
  }

  /** Entries whose members are kept, slot by slot, stay fit. */
  lemma SlotsKept(sizing: Sizing, a: Entry, e: Entry, r: Entry)
    requires Fit(sizing, a, e) && |r.slots| == |e.slots| && r.size == e.size
    requires forall i | 0 <= i < |e.slots| :: Kept(sizing, e.slots[i].val, r.slots[i].val)
    ensures Fit(sizing, a, r)
  {
    hide Formed;
  }

  // ---------------------------------------------------------------- what is done to entries

  lemma CleanFit(sizing: Sizing, env: Env, a: Entry, e: Entry, now: int)
    requires Fit(sizing, a, e)
    ensures Fit(sizing, a, Clean(e, now, Erased))
    ensures forall i | 0 <= i < |e.slots| :: Kept(sizing, e.slots[i].val, Clean(e, now, Erased).slots[i].val)
  {
    hide Kept, Erased, Fit;
    var r := Clean(e, now, Erased);
    forall i | 0 <= i < |e.slots|
      ensures Kept(sizing, e.slots[i].val, r.slots[i].val)
    {
      ChangeKept(sizing, env, e.slots[i].val, R.AddInt(0));
    }
    SlotsKept(sizing, a, e, r);
  }

  /** A change, whether or not it throws. */
  lemma ActFit(sizing: Sizing, env: Env, a: Entry, e: Entry, now: int, ch: Change)
    requires Fit(sizing, a, e)
    ensures Fit(sizing, a, ActAt(env, now, ch, e).entry)
  {
    hide Kept, Erased, Fit, Clean, Put1, Changed, Mod, Window, WindowStart;
    CleanFit(sizing, env, a, e, now);
    var c, r := Clean(e, now, Erased), ActAt(env, now, ch, e).entry;
    forall i | 0 <= i < |c.slots|
      ensures Kept(sizing, c.slots[i].val, r.slots[i].val)
    {
      ChangeKept(sizing, env, c.slots[i].val, ch);
    }
    SlotsKept(sizing, a, c, r);
  }

  lemma ResetFit(sizing: Sizing, env: Env, a: Entry, e: Entry)
    requires Fit(sizing, a, e)
    ensures Fit(sizing, a, ClearEntry(e))
  {
    hide Kept, Erased, Fit;
    var r := ClearEntry(e);
    forall i | 0 <= i < |e.slots|
      ensures Kept(sizing, e.slots[i].val, r.slots[i].val)
    {
      ChangeKept(sizing, env, e.slots[i].val, R.AddInt(0));
    }
    SlotsKept(sizing, a, e, r);
  }

  /** Reads with a string. */
  lemma AskFit(sizing: Sizing, env: Env, a: Entry, e: Entry, now: int, s: string)
    requires Fit(sizing, a, e)
    ensures Fit(sizing, a, GetString(env, e, now, s)) && Fit(sizing, a, GetWindowsString(env, e, now, s))
  {
    hide Kept, Erased, Fit, Clean, AfterGet, Mod, Window;
    CleanFit(sizing, env, a, e, now);
    var c, p, q := Clean(e, now, Erased), GetString(env, e, now, s), GetWindowsString(env, e, now, s);
    forall i | 0 <= i < |c.slots|
      ensures Kept(sizing, c.slots[i].val, p.slots[i].val) && Kept(sizing, c.slots[i].val, q.slots[i].val)
    {
      AskKept(sizing, env, c.slots[i].val, s);
      ChangeKept(sizing, env, c.slots[i].val, R.AddInt(0));
    }
    SlotsKept(sizing, a, c, p);
    SlotsKept(sizing, a, c, q);
  }

  // ---------------------------------------------------------------- received dumps

  lemma {:induction false} WordsBounded(s: Bytes, n: nat)
    requires |s| >= 4 * n
    ensures forall i | 0 <= i < n :: 0 <= TakeWords(s, n)[i] < TWO32
  {
    if n > 0 { WordsBounded(s[4..], n - 1); }
  }

  lemma {:induction false} PairsInts(ws: seq<int>, d: nat)
    requires |ws| == 2 * d && AllInts(ws)
    ensures AllInts(Spread(Pairs(ws, d)))
  {
    if d > 0 {
      PairsInts(ws[2..], d - 1);
      var s := Spread(Pairs(ws, d));
      assert Pairs(ws, d)[1..] == Pairs(ws[2..], d - 1);
      assert s == [ws[0], ws[1]] + Spread(Pairs(ws[2..], d - 1));
    }
  }

  lemma SignedInts(ws: seq<int>)
    requires forall i | 0 <= i < |ws| :: 0 <= ws[i] < TWO32
    ensures AllInts(Signed(ws))
  {
  }

  lemma GetCmFormed(sizing: Sizing, s: Bytes)
    requires GetCm(sizing, s).Some?
    ensures var (sh, c) := GetCm(sizing, s).value; Formed(sizing, CmM(sh, c))
  {
    hide TakeWords, Rows, Pairs, Spread, AllInts, Signed;
    var two := TakeWords(s, 2);
    WordsBounded(s, 2);
    var sz := sizing(Shape(two[0], two[1])).value;
    var n, dw := 3 + sz.depth * sz.width + 2 * sz.depth, sz.depth * sz.width;
    WordsBounded(s, n);
    var ws := TakeWords(s, n);
    SignedInts(ws[3..]);
    var body := Signed(ws[3..]);
    DropInts(body, dw);
    PairsInts(body[dw..], sz.depth);
  }

  lemma DropInts(ws: seq<int>, k: nat)
    requires AllInts(ws) && k <= |ws|
    ensures AllInts(ws[k..])
  {
  }

  lemma GetKept(sizing: Sizing, like: Member, s: Bytes)
    requires GetMember(sizing, like, s).Some?
    ensures Kept(sizing, like, GetMember(sizing, like, s).value)
  {
    hide GetCm, GetHll, GetInt, Formed;
    if like.CmM? {
      GetCmFormed(sizing, s);
    } else {
      NotCm(sizing, GetMember(sizing, like, s).value);
    }
  }

  lemma NotCm(sizing: Sizing, m: Member)
    requires !m.CmM?
    ensures Formed(sizing, m)
  {
  }

  lemma {:induction false} RestoredKept(sizing: Sizing, was: seq<Slot<Member>>, ds: seq<SlotDump>, j: nat)
    requires |ds| <= |was| && j < |RestoreSlots(sizing, was, ds).slots|
    ensures Kept(sizing, was[j].val, RestoreSlots(sizing, was, ds).slots[j].val)
  {
    hide Kept, GetMember;
    var n := |ds| - 1;
    var r := RestoreSlots(sizing, was, ds[..n]);
    RestoredLength(sizing, was, ds[..n]);
    if r.ok && j == |r.slots| {
      if GetMember(sizing, was[n].val, ds[n].bytes).Some? {
        GetKept(sizing, was[n].val, ds[n].bytes);
      } else {
        KeptSame(sizing, was[n].val);
      }
    } else {
      RestoredKept(sizing, was, ds[..n], j);
    }
  }

  lemma KeptSame(sizing: Sizing, m: Member)
    ensures Kept(sizing, m, m)
  {
  }

  lemma {:induction false} RestoredLength(sizing: Sizing, was: seq<Slot<Member>>, ds: seq<SlotDump>)
    requires |ds| <= |was|
    ensures RestoreSlots(sizing, was, ds).ok ==> |RestoreSlots(sizing, was, ds).slots| == |ds|
  {
    hide GetMember;
    if ds != [] {
      RestoredLength(sizing, was, ds[..|ds| - 1]);
    }
  }

  /** A restore, also one that throws on the way. */
  lemma RestoreFit(sizing: Sizing, a: Entry, e: Entry, d: EntryDump)
    requires Fit(sizing, a, e)
    ensures Fit(sizing, a, RestoreEntry(sizing, e, d).entry)
  {
    hide Kept, Fit, RestoreSlots;
    if d.start > 0 && |d.slots| <= |e.slots| {
      var r := RestoreEntry(sizing, e, d).entry;
      var s := RestoreSlots(sizing, e.slots, d.slots);
      forall i | 0 <= i < |e.slots|
        ensures Kept(sizing, e.slots[i].val, r.slots[i].val)
      {
        if i < |s.slots| {
          RestoredKept(sizing, e.slots, d.slots, i);
        } else {
          KeptSame(sizing, e.slots[i].val);
        }
      }
      SlotsKept(sizing, a, e, r);
    }
  }

  // ---------------------------------------------------------------- runs of a node

  /** What a node does to its database. */
  datatype Deed =
    | Does(task: Task)                                                           // a call, a peer's message or a read
    | Asks(now: int, key: DB.Key, field: string, s: string, windows: bool)       // a read with a string
    | Restores(key: DB.Key, field: string, dump: EntryDump)                      // part of a synchronisation
    | Soft(size: nat)
    | Expires

  ghost function Asked(env: Env, now: int, s: string, windows: bool, e: Entry): (o: DB.Outcome<Entry, bool>)
  {
    DB.Outcome(if windows then GetWindowsString(env, e, now, s) else GetString(env, e, now, s), false, true)
  }

  ghost function DeedOp(sizing: Sizing, env: Env, d: Deed): (op: DB.Op<Entry, bool>)
  {
    match d
    case Does(t) => if Idle(t) then DB.GetSize else TaskOp(env, t)
    case Asks(now, k, f, s, windows) => DB.Query(k, f, (e: Entry) => Asked(env, now, s, windows, e))
    case Restores(k, f, dump) => DB.Update(k, f, (e: Entry) => RestoreEntry(sizing, e, dump))
    case Soft(n) => DB.SetSoft(n)
    case Expires => DB.ExpirePass
  }

  ghost function DeedOps(sizing: Sizing, env: Env, deeds: seq<Deed>): (ops: seq<DB.Op<Entry, bool>>)
    ensures |ops| == |deeds|
  {
    seq(|deeds|, i requires 0 <= i < |deeds| => DeedOp(sizing, env, deeds[i]))
  }

  /** An entry of a known field is fit for the field's type. */
  ghost function FitFor(sizing: Sizing, types: map<string, string>, like: string -> Entry): (ok: (string, Entry) -> bool)
  {
    (f: string, e: Entry) => f in types && types[f] in DB.TYPES ==> Fit(sizing, like(types[f]), e)
  }

  /** New entries have the windows and kinds of members that `like` gives for their type. */
  ghost predicate MakesFit(sizing: Sizing, like: string -> Entry, make: DB.Make<Entry>)
  {
    forall k, f, ty | ty in DB.TYPES :: Fit(sizing, like(ty), make(k, f, ty))
  }

  lemma DeedRespects(sizing: Sizing, env: Env, types: map<string, string>, like: string -> Entry, make: DB.Make<Entry>, d: Deed)
    requires MakesFit(sizing, like, make)
    ensures Respects(DeedOp(sizing, env, d), types, make, FitFor(sizing, types, like))
  {
    hide Fit, Clean, ActAt, ClearEntry, GetString, GetWindowsString, RestoreEntry;
    var ok := FitFor(sizing, types, like);
    forall f: string, e: Entry | ok(f, e) && f in types && types[f] in DB.TYPES
      ensures forall now :: Fit(sizing, like(types[f]), Clean(e, now, Erased))
      ensures forall now, ch :: Fit(sizing, like(types[f]), ActAt(env, now, ch, e).entry)
      ensures Fit(sizing, like(types[f]), ClearEntry(e))
      ensures forall now, s :: Fit(sizing, like(types[f]), GetString(env, e, now, s))
      ensures forall now, s :: Fit(sizing, like(types[f]), GetWindowsString(env, e, now, s))
      ensures forall dump :: Fit(sizing, like(types[f]), RestoreEntry(sizing, e, dump).entry)
    {
      var a := like(types[f]);
      forall now { CleanFit(sizing, env, a, e, now); }
      forall now, ch { ActFit(sizing, env, a, e, now, ch); }
      ResetFit(sizing, env, a, e);
      forall now, s { AskFit(sizing, env, a, e, now, s); }
      forall dump { RestoreFit(sizing, a, e, dump); }
    }
  }

  /** Every entry's integers and counters fit their words. */
  ghost predicate AllInRange(v: DB.View<Entry>)
  {
    forall k, f | k in v.entries && f in v.entries[k] :: EntryInRange(v.entries[k][f])
  }

  predicate EntryInRange(e: Entry)
  {
    forall i | 0 <= i < |e.slots| :: InRange(e.slots[i].val)
  }

  lemma FitIsSendable(sizing: Sizing, a: Entry, e: Entry)
    requires Fit(sizing, a, e) && EntryInRange(e)
    ensures Alike(a, e) && EntrySendable(sizing, e)
  {
    hide Sendable, Formed, InRange;
    forall i | 0 <= i < |e.slots|
      ensures Sendable(sizing, e.slots[i].val)
    {
      SendableIff(sizing, e.slots[i].val);
    }
  }

  lemma AlikeTransitive(a: Entry, b: Entry, c: Entry)
    requires Alike(a, b) && Alike(b, c)
    ensures Alike(a, c)
  {
  }

  /**
   Whatever a node has done to its sharded database since it was made, expiry and received
   dumps included, each new entry with coefficients of its own, as long as no integer or
   counter has outgrown its word: any dump of it,
   applied to an empty peer with the same fields and windows, any shards, and a start time
   and count-min coefficients of its own, restores every key and field with its start time,
   stamps and members.
   */
  lemma {:induction false} ReachableRoundTrip(sizing: Sizing, env: Env, types: map<string, string>, like: string -> Entry, makes: seq<DB.Make<Entry>>,
                                              start: seq<DB.View<Entry>>, hash: DB.Key -> nat, deeds: seq<Deed>,
                                              ms: seq<FS.SyncMsg<EntryDump>>, peerMake: DB.Make<Entry>,
                                              peer: seq<DB.View<Entry>>, peerHash: DB.Key -> nat, k: DB.Key)
    requires EmptyShards(start, types) && (forall i | 0 <= i < |start| :: start[i].order == []) && EmptyShards(peer, types)
    requires |makes| == |deeds| && forall i | 0 <= i < |makes| :: MakesFit(sizing, like, makes[i])
    requires forall j, f, ty | ty in DB.TYPES :: Alike(peerMake(j, f, ty), like(ty))
    requires var one := Union(MakingRun(start, DeedOps(sizing, env, deeds), makes, hash), hash);
             AllInRange(one) && FS.Dumps(ms, one, DumpEntry)
    ensures var source := MakingRun(start, DeedOps(sizing, env, deeds), makes, hash);
            var restore := (e: Entry, d: EntryDump) => RestoreEntry(sizing, e, d);
            var r := FS.ShardSync(peer, ms, restore, peerMake, peerHash);
            && (forall i | 0 <= i < |source| :: DB.Consistent(source[i])) && Simulates(source, Union(source, hash), hash)
            && Homed(r, peerHash)
            && Lookup(r[Place(peerHash, |r|, k)], k)
            == match Lookup(source[Place(hash, |source|, k)], k)
               case Some(m) => FS.Filled(FS.Stripped(types, m, Uncleaned))
               case None => None
  {
    hide MakingRun, MakesFit, FS.ShardSync, FS.Dumps, RestoreEntry, DumpEntry, Fit, Place, Homed, FS.Stripped, Uncleaned;
    hide Simulates, Union, DeedOp, Respects, Alike;
    var ok, ops := FitFor(sizing, types, like), DeedOps(sizing, env, deeds);
    StartOk(start, hash, types, ok);
    forall i | 0 <= i < |ops|
      ensures Respects(ops[i], types, makes[i], ok)
    {
      DeedRespects(sizing, env, types, like, makes[i], deeds[i]);
    }
    ShardRunOk(start, ops, makes, hash, types, ok);
    var source := MakingRun(start, ops, makes, hash);
    UnionSimulated(source, hash, types, ok);
    var one := Union(source, hash);
    forall j | j in one.entries
      ensures AllSendable(sizing, types, j, one.entries[j], peerMake)
    {
      var m := one.entries[j];
      forall f | f in m && f in types && types[f] in DB.TYPES
        ensures Alike(peerMake(j, f, types[f]), m[f]) && EntrySendable(sizing, m[f])
      {
        assert ok(f, m[f]);
        FitIsSendable(sizing, like(types[f]), m[f]);
        AlikeTransitive(peerMake(j, f, types[f]), like(types[f]), m[f]);
      }
    }
    FullSyncRoundTrip(sizing, source, hash, one, ms, peer, peerHash, peerMake, k);
  }

  lemma StartOk(start: seq<DB.View<Entry>>, hash: DB.Key -> nat, types: map<string, string>, ok: (string, Entry) -> bool)
    requires EmptyShards(start, types) && forall i | 0 <= i < |start| :: start[i].order == []
    ensures ShardsOk(start, hash, types, ok)
  {
  }
}
