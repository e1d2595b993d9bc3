/**
 What the calls of the statistics database do to the numbers a caller reads: which key they
 go to, what they count for in each kind of field, and what they leave alone.
 */
module Calls {

  import opened Basics
  import opened Rings
  import opened Members
  import opened FieldSums
  import opened Convergence
  import opened Replication
  import DB = StatsDBs
  import Sh = Sharding
  import C = CountMin
  import H = HyperLogLogs

  // ---------------------------------------------------------------- keys and texts

  /** The key a call goes to: a string is itself, an integer is printed, an address cut to its family's prefix. */
  ghost predicate GoesTo(tx: Texts, kv: KeyVal, k: DB.Key)
  {
    match kv
    case KStr(s) => k == s
    case KInt(i) => k == tx.number(i)
    case KAddr(a) => if a.family == Addresses.V4 then k == tx.network(a, tx.v4Prefix) else k == tx.network(a, tx.v6Prefix)
  }

  lemma KeyOfCall(tx: Texts, kv: KeyVal, k: DB.Key)
    ensures GoesTo(tx, kv, k) <==> k == StringKey(tx, kv)
  {
  }

  /** The string a parameter stands for, if it does. */
  function TextOf(tx: Texts, p: Param): (s: Option<string>)
  {
    match p
    case PStr(s) => Some(s)
    case PAddr(a) => Some(tx.address(a))
    case PInt(_) => None
  }

  /** add is refused with an integer and a second parameter. */
  predicate Refused(c: Call)
  {
    c.Add? && c.p1.PInt? && c.p2.Some?
  }

  // ---------------------------------------------------------------- one member

  /** The number that a call adds to an integer field, if the call means one. */
  function Amount(env: Env, tx: Texts, c: Call): (n: Option<int>)
  {
    match c
    case Add(_, _, PInt(i), None) => Some(i)
    case Add(_, _, p, None) => env.stoi(TextOf(tx, p).value)
    case Add(_, _, _, Some(_)) => Some(0)
    case Sub(_, _, SInt(i)) => Some(-i)
    case Sub(_, _, SStr(s)) => (match env.stoi(s) case Some(i) => Some(-i) case None => None)
    case _ => Some(0)
  }

  /**
   What an add or sub makes of a member.  An integer goes up or down by the number.  A sketch of
   items gets the string, or the number as it prints; with a second parameter, and by sub, it
   stays.  A sketch of counts counts the string once, or as often as the second parameter says;
   numbers and sub do not change it.
   */
  ghost predicate Makes(env: Env, tx: Texts, c: Call, m: Member, r: Member)
  {
    match m
    case IntM(x) => Amount(env, tx, c).Some? && r == IntM(x + Amount(env, tx, c).value)
    case HllM(h) =>
      (match c
       case Add(_, _, PInt(i), None) => r == HllM(H.Add(h, env.hllHash(env.number(i))))
       case Add(_, _, p, None) => r == HllM(H.Add(h, env.hllHash(TextOf(tx, p).value)))
       case _ => r == m)
    case CmM(sh, s) =>
      match c
      case Add(_, _, PInt(_), _) => r == m
      case Add(_, _, p, None) => r == CmM(sh, C.Update(s, env.cmHash(TextOf(tx, p).value), 1))
      case Add(_, _, p, Some(n)) => r == CmM(sh, C.Update(s, env.cmHash(TextOf(tx, p).value), n))
      case _ => r == m
  }

  predicate IsChangeCall(c: Call)
  {
    (c.Add? || c.Sub?) && !Refused(c)
  }

  /** The plan of an add or sub changes the member so, or throws on an integer that is no number. */
  lemma PlanMakes(env: Env, tx: Texts, c: Call, m: Member)
    requires IsChangeCall(c)
    ensures var p := PlanOf(tx, c);
            && p.DoChange? && GoesTo(tx, c.key, p.key) && p.field == c.field
            && (Changed(env, m, p.change).None? <==> m.IntM? && Amount(env, tx, c).None?)
            && (Changed(env, m, p.change).Some? ==> Makes(env, tx, c, m, Changed(env, m, p.change).value))
  {
    hide H.Add, C.Update;
  }

  // ---------------------------------------------------------------- the wrapper

  ghost function EntryIn(su: Setup<Entry>, w: Wrapper<Entry>, k: DB.Key, f: string): (e: Option<Entry>)
    requires |w.shards| > 0
  {
    EntryAt(w.shards[Sh.Place(su.hash, |w.shards|, k)], k, f)
  }

  /** Every shard knows the field with this type. */
  predicate Typed(w: Wrapper<Entry>, f: string, ty: string)
  {
    ty in DB.TYPES && forall i | 0 <= i < |w.shards| :: f in w.shards[i].fields && w.shards[i].fields[f] == ty
  }

  /** A plan changes the entry of a key and field as its operation says, in whatever shard that is. */
  lemma PerformNext(su: Setup<Entry>, w: Wrapper<Entry>, p: Plan, act: Act<Entry>, r: Wrapper<Entry>, k: DB.Key, f: string, ty: string)
    requires |w.shards| > 0 && !p.DoNothing? && Typed(w, f, ty) && r.shards == Perform(su, w.shards, p, act)
    ensures EntryIn(su, r, k, f) == Next(OpOf(p, act, su.clear), su.make(k, f, ty), EntryIn(su, w, k, f), k, f)
  {
    hide DB.Step, Next, EntryAt, Sh.Place;
    var op, n := OpOf(p, act, su.clear), |w.shards|;
    var i, j := Sh.Place(su.hash, n, p.key), Sh.Place(su.hash, n, k);
    NextIs(w.shards[i], op, su.make, k, f);
    if i != j {
      NextElsewhere(op, su.make(k, f, ty), EntryIn(su, w, k, f), k, f);
    }
  }

  lemma NextElsewhere(op: DB.Op<Entry, bool>, blank: Entry, e: Option<Entry>, k: DB.Key, f: string)
    requires Sh.KeyOf(op).Some? && Sh.KeyOf(op) != Some(k)
    ensures Next(op, blank, e, k, f) == e
  {
  }

  /** The entry a call finds or makes. */
  ghost function Found(su: Setup<Entry>, w: Wrapper<Entry>, k: DB.Key, f: string, ty: string): (e: Entry)
    requires |w.shards| > 0
  {
    if EntryIn(su, w, k, f).Some? then EntryIn(su, w, k, f).value else su.make(k, f, ty)
  }

  /** The slots of `e` after a change of its current member at `now`, with the stamp of that window if there was none. */
  ghost predicate CurrentMade(env: Env, tx: Texts, c: Call, now: int, e: Entry, r: Entry)
  {
    var old0, i := Clean(e, now, Erased), Current(e, now);
    && |r.slots| == |e.slots| && r.size == e.size && r.start == e.start && r.cleaned == old0.cleaned
    && (forall j | 0 <= j < |e.slots| && j != i :: r.slots[j] == old0.slots[j])
    && Makes(env, tx, c, old0.slots[i].val, r.slots[i].val)
    && r.slots[i].stamp == if old0.slots[i].stamp == 0 then WindowStart(e.start, e.size, now) else old0.slots[i].stamp
  }

  /**
   An add or sub on a wrapper with any shards: the entry of its key and field, made if there is
   none, is cleaned and its current member changed as the call means; a call that means no
   number on an integer field only cleans it.  No other entry changes.
   */
  lemma CallChanges(env: Env, su: Setup<Entry>, w: Wrapper<Entry>, c: Call, now: int, replicate: bool, k: DB.Key, ty: string)
    requires |w.shards| > 0 && IsChangeCall(c) && GoesTo(su.tx, c.key, k) && Typed(w, c.field, ty)
    ensures var r := Internal(su, w, c, ActOf(env, now), replicate);
            var e := Found(su, w, k, c.field, ty);
            && EntryIn(su, r, k, c.field).Some?
            && (if Clean(e, now, Erased).slots[Current(e, now)].val.IntM? && Amount(env, su.tx, c).None?
                then EntryIn(su, r, k, c.field).value == Clean(e, now, Erased)
                else CurrentMade(env, su.tx, c, now, e, EntryIn(su, r, k, c.field).value))
  {
    hide Perform, MessageOf, Throws, Makes, Clean, Current, Changed, StringKey, WindowStart, PlanOf, GoesTo, Amount, Typed, EntryIn;
    var p, r := PlanOf(su.tx, c), Internal(su, w, c, ActOf(env, now), replicate);
    var e := Found(su, w, k, c.field, ty);
    var i, old0 := Current(e, now), Clean(e, now, Erased);
    KeyOfCall(su.tx, c.key, k);
    PlanMakes(env, su.tx, c, old0.slots[i].val);
    KeyOfCall(su.tx, c.key, p.key);
    PerformNext(su, w, p, ActOf(env, now), r, k, c.field, ty);
    CurrentOfClean(e, now);
  }

  lemma CurrentOfClean(e: Entry, now: int)
    ensures Current(Clean(e, now, Erased), now) == Current(e, now)
  {
  }

  lemma CallLeaves(env: Env, su: Setup<Entry>, w: Wrapper<Entry>, c: Call, now: int, replicate: bool, k: DB.Key, f: string, ty: string)
    requires |w.shards| > 0 && IsChangeCall(c) && Typed(w, f, ty) && !(GoesTo(su.tx, c.key, k) && f == c.field)
    ensures EntryIn(su, Internal(su, w, c, ActOf(env, now), replicate), k, f) == EntryIn(su, w, k, f)
  {
    hide Perform, MessageOf, Throws, Clean, StringKey, PlanOf, GoesTo, Typed, EntryIn, Changed, Makes, ActAt;
    var p, r := PlanOf(su.tx, c), Internal(su, w, c, ActOf(env, now), replicate);
    PlanMakes(env, su.tx, c, IntM(0));
    KeyOfCall(su.tx, c.key, k);
    KeyOfCall(su.tx, c.key, p.key);
    PerformNext(su, w, p, ActOf(env, now), r, k, f, ty);
  }

  // ---------------------------------------------------------------- sums

  lemma {:induction false} SumWith(s: seq<Slot<Member>>, r: seq<Slot<Member>>, i: nat, d: int)
    requires |s| == |r| && i < |s| && GetOf(r[i].val) == GetOf(s[i].val) + d && forall j | 0 <= j < |s| && j != i :: r[j] == s[j]
    ensures SumGets(r) == SumGets(s) + d
  {
    hide GetOf;
    var n := |s| - 1;
    if i == n {
      assert s[..n] == r[..n];
    } else {
      SumWith(s[..n], r[..n], i, d);
    }
  }

  lemma CleanTwice(e: Entry, now: int)
    ensures Skips(Clean(e, now, Erased), now)
  {
  }

  /** What sum() reads now is what the cleaned slots hold. */
  ghost function SumNow(e: Entry, now: int): (n: int)
  {
    SumGets(Clean(e, now, Erased).slots)
  }

  lemma SumAfterChange(env: Env, tx: Texts, c: Call, now: int, e: Entry, r: Entry)
    requires CurrentMade(env, tx, c, now, e, r) && Kinds(e, true) && Amount(env, tx, c).Some?
    ensures SumNow(r, now) == SumNow(e, now) + Amount(env, tx, c).value
  {
    hide Clean, Current, WindowStart, Amount, SumGets;
    CleanKeepsInts(e, now, true);
    CleanTwice(e, now);
    SkippedEntry(r, now);
    SumWith(Clean(e, now, Erased).slots, r.slots, Current(e, now), Amount(env, tx, c).value);
  }

  lemma SkippedEntry(r: Entry, now: int)
    requires Skips(r, now)
    ensures Clean(r, now, Erased) == r
  {
  }

  /** What sum() of a key and field reads at `now`: 0 without an entry. */
  ghost function SumIn(su: Setup<Entry>, w: Wrapper<Entry>, k: DB.Key, f: string, now: int): (n: int)
    requires |w.shards| > 0
  {
    match EntryIn(su, w, k, f)
    case Some(e) => SumNow(e, now)
    case None => 0
  }

  /** A new entry of an integer field: integer members that sum to nothing. */
  ghost predicate NewInts(su: Setup<Entry>, k: DB.Key, f: string)
  {
    Kinds(su.make(k, f, "int"), true) && forall now :: SumNow(su.make(k, f, "int"), now) == 0
  }

  /**
   On an integer field, add raises what is read at once by its number, and sub lowers it; a call
   that means no number leaves it.  It does not matter which windows are due, nor which shards
   there are.
   */
  lemma CallSums(env: Env, su: Setup<Entry>, w: Wrapper<Entry>, c: Call, now: int, replicate: bool, k: DB.Key)
    requires |w.shards| > 0 && IsChangeCall(c) && GoesTo(su.tx, c.key, k) && Typed(w, c.field, "int") && NewInts(su, k, c.field)
    requires EntryIn(su, w, k, c.field).Some? ==> Kinds(EntryIn(su, w, k, c.field).value, true)
    ensures SumIn(su, Internal(su, w, c, ActOf(env, now), replicate), k, c.field, now)
         == SumIn(su, w, k, c.field, now) + if Amount(env, su.tx, c).Some? then Amount(env, su.tx, c).value else 0
  {
    hide Internal, Amount, GoesTo, Typed, EntryIn, Clean, Current, Kinds, SumGets, CurrentMade;
    var e, r := Found(su, w, k, c.field, "int"), Internal(su, w, c, ActOf(env, now), replicate);
    CallChanges(env, su, w, c, now, replicate, k, "int");
    IntCurrent(e, now);
    if Amount(env, su.tx, c).Some? {
      SumAfterChange(env, su.tx, c, now, e, EntryIn(su, r, k, c.field).value);
    } else {
      CleanTwice(e, now);
      SkippedEntry(Clean(e, now, Erased), now);
      assert SumIn(su, r, k, c.field, now) == SumNow(e, now);
      assert SumIn(su, w, k, c.field, now) == SumNow(e, now);
    }
  }

  lemma IntCurrent(e: Entry, now: int)
    requires Kinds(e, true)
    ensures Clean(e, now, Erased).slots[Current(e, now)].val.IntM?
  {
    CleanKeepsInts(e, now, true);
  }

  /** add(key, field, i) raises the sum by i and sub(key, field, i) lowers it by i. */
  lemma AddAndSub(env: Env, su: Setup<Entry>, w: Wrapper<Entry>, kv: KeyVal, f: string, i: int, now: int, replicate: bool, k: DB.Key)
    requires |w.shards| > 0 && GoesTo(su.tx, kv, k) && Typed(w, f, "int") && NewInts(su, k, f)
    requires EntryIn(su, w, k, f).Some? ==> Kinds(EntryIn(su, w, k, f).value, true)
    ensures SumIn(su, Internal(su, w, Add(kv, f, PInt(i), None), ActOf(env, now), replicate), k, f, now) == SumIn(su, w, k, f, now) + i
    ensures SumIn(su, Internal(su, w, Sub(kv, f, SInt(i)), ActOf(env, now), replicate), k, f, now) == SumIn(su, w, k, f, now) - i
  {
    hide Internal, GoesTo, Typed, EntryIn, SumIn, Kinds, NewInts;
    CallSums(env, su, w, Add(kv, f, PInt(i), None), now, replicate, k);
    CallSums(env, su, w, Sub(kv, f, SInt(i)), now, replicate, k);
  }

  lemma {:induction false} ZeroGets(s: seq<Slot<Member>>)
    requires forall j | 0 <= j < |s| :: GetOf(s[j].val) == 0
    ensures SumGets(s) == 0
  {
    hide GetOf;
    if s != [] {
      ZeroGets(s[..|s| - 1]);
    }
  }

  /** The entries that a database makes are such. */
  lemma MadeInts(su: Setup<Entry>, k: DB.Key, f: string, init: seq<Member>, size: int, start: int)
    requires Made(su.make, k, f, "int", init, size, start)
    ensures NewInts(su, k, f)
  {
    var e := su.make(k, f, "int");
    forall now
      ensures SumNow(e, now) == 0
    {
      forall j | 0 <= j < |init|
        ensures GetOf(Clean(e, now, Erased).slots[j].val) == 0
      {
        assert Erased(init[j]) == init[j];
      }
      ZeroGets(Clean(e, now, Erased).slots);
    }
  }

  /** A peer that receives the message of a call reads the same change. */
  lemma PeerSums(env: Env, su: Setup<Entry>, w: Wrapper<Entry>, tx: Texts, c: Call, now: int, k: DB.Key)
    requires |w.shards| > 0 && IsChangeCall(c) && IntsOk(c) && GoesTo(tx, c.key, k)
    requires Typed(w, c.field, "int") && NewInts(su, k, c.field)
    requires EntryIn(su, w, k, c.field).Some? ==> Kinds(EntryIn(su, w, k, c.field).value, true)
    ensures !PlanOf(tx, c).DoNothing?
    ensures SumIn(su, Received(su, w, MessageOf(su.db, PlanOf(tx, c)), ActOf(env, now)), k, c.field, now)
         == SumIn(su, w, k, c.field, now) + if Amount(env, tx, c).Some? then Amount(env, tx, c).value else 0
  {
    hide Internal, GoesTo, Typed, EntryIn, SumIn, Kinds, NewInts, StringKey;
    TravelsAs(env, tx, su, c, k);
    CallSums(env, su, w, CallOf(MessageOf(su.db, PlanOf(tx, c))).value, now, false, k);
  }

  /** The call that a peer makes of the message. */
  lemma TravelsAs(env: Env, tx: Texts, su: Setup<Entry>, c: Call, k: DB.Key)
    requires IsChangeCall(c) && IntsOk(c) && GoesTo(tx, c.key, k)
    ensures !PlanOf(tx, c).DoNothing?
    ensures var m := MessageOf(su.db, PlanOf(tx, c));
            && m.db == su.db && CallOf(m).Some?
            && var d := CallOf(m).value;
               && IsChangeCall(d) && d.field == c.field && GoesTo(su.tx, d.key, k)
               && Amount(env, su.tx, d) == Amount(env, tx, c)
  {
    hide ToSigned, ToUnsigned;
    KeyOfCall(tx, c.key, k);
    if c.Add? {
      if c.p1.PInt? { SignedRoundTrip(c.p1.i); }
      if c.p2.Some? { SignedRoundTrip(c.p2.value); }
    } else if c.val.SInt? {
      SignedRoundTrip(c.val.i);
    }
  }

  // ---------------------------------------------------------------- resets

  /** An entry without stamps whose members are as new. */
  ghost predicate Cleared(e: Entry, r: Entry)
  {
    && |r.slots| == |e.slots| && r.size == e.size && r.start == e.start && r.cleaned == e.cleaned
    && forall i | 0 <= i < |e.slots| :: r.slots[i] == Slot(0, Erased(e.slots[i].val))
  }

  /** reset clears every field of its key, reset_field one; nothing else changes and nothing is made. */
  lemma ResetChanges(env: Env, su: Setup<Entry>, w: Wrapper<Entry>, c: Call, now: int, replicate: bool, k: DB.Key, f: string, ty: string)
    requires |w.shards| > 0 && (c.Reset? || c.ResetOne?) && Typed(w, f, ty) && su.clear == ClearEntry
    ensures var e, r := EntryIn(su, w, k, f), EntryIn(su, Internal(su, w, c, ActOf(env, now), replicate), k, f);
            if GoesTo(su.tx, c.key, k) && (c.Reset? || c.field == f) && e.Some?
            then r.Some? && Cleared(e.value, r.value) else r == e
  {
    hide Perform, MessageOf, Throws, Clean, StringKey, GoesTo, Typed, EntryIn, ActAt, Erased;
    var p, r := PlanOf(su.tx, c), Internal(su, w, c, ActOf(env, now), replicate);
    KeyOfCall(su.tx, c.key, k);
    KeyOfCall(su.tx, c.key, p.key);
    PerformNext(su, w, p, ActOf(env, now), r, k, f, ty);
  }

  // ---------------------------------------------------------------- messages

  /** What is sent for a call: its kind, its key and field, its string and its number as an unsigned word. */
  ghost predicate Says(tx: Texts, c: Call, m: Msg)
  {
    && GoesTo(tx, c.key, m.key)
    && match c
       case Add(_, f, p1, p2) =>
         && m.op == OpAdd && m.field == Some(f) && m.str == TextOf(tx, p1)
         && m.num == (match p1 case PInt(i) => Some(i % TWO32) case _ => (match p2 case Some(n) => Some(n % TWO32) case None => None))
       case Sub(_, f, SStr(s)) => m.op == OpSub && m.field == Some(f) && m.str == Some(s) && m.num == None
       case Sub(_, f, SInt(i)) => m.op == OpSub && m.field == Some(f) && m.str == None && m.num == Some(i % TWO32)
       case Reset(_) => m.op == OpReset && m.field == None && m.str == None && m.num == None
       case ResetOne(_, f) => m.op == OpResetField && m.field == Some(f) && m.str == None && m.num == None
  }

  /** A wrapper that replicates sends exactly one such message for a call that is neither refused nor throws. */
  lemma CallSends(env: Env, su: Setup<Entry>, w: Wrapper<Entry>, c: Call, now: int, replicate: bool)
    requires |w.shards| > 0
    ensures var r := Internal(su, w, c, ActOf(env, now), replicate);
            if replicate && w.replicated && !Refused(c) && !Throws(su, w.shards, PlanOf(su.tx, c), ActOf(env, now))
            then |r.sent| == |w.sent| + 1 && r.sent[..|w.sent|] == w.sent && r.sent[|w.sent|].db == su.db && Says(su.tx, c, r.sent[|w.sent|])
            else r.sent == w.sent
  {
    hide Perform, Throws, GoesTo, StringKey;
    KeyOfCall(su.tx, c.key, StringKey(su.tx, c.key));
  }
}
