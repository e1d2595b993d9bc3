/**
 The statistics database: a map from keys to fields to entries, and a list of the keys
 (key_tracker) in the order they were last written.  The list is a std::list whose nodes
 are named here by numbers, so that the iterator stored with each key can be told from
 the node it should point to.  What an operation does to an entry is an argument.
 */
module StatsDBs {

  import opened Basics

  type Key = string

  /** The registered field types. */
  const TYPES: set<string> := {"int", "hll", "countmin"}

  /**
   A new entry for a key and a field of a type.  It may depend on the key, because every
   shard takes its start time when it is made, and on the key and the field, because every
   count-min sketch draws coefficients of its own.
   */
  type Make<+E> = (Key, string, string) -> E

  datatype Cell = Cell(id: nat, key: Key)

  /** The members of TWStatsDB; `next` names the next list node. */
  datatype Tables<E> = Tables(tracker: seq<Cell>, iters: map<Key, nat>, entries: map<Key, map<string, E>>,
                              fields: map<string, string>, soft: nat, next: nat)

  // ---------------------------------------------------------------- the list

  function KeysOf(cells: seq<Cell>): (ks: seq<Key>)
    ensures |ks| == |cells|
  {
    if cells == [] then [] else [cells[0].key] + KeysOf(cells[1..])
  }

  function Ids(cells: seq<Cell>): (s: set<nat>)
  {
    if cells == [] then {} else {cells[0].id} + Ids(cells[1..])
  }

  function Members(ks: seq<Key>): (s: set<Key>)
  {
    if ks == [] then {} else {ks[0]} + Members(ks[1..])
  }

  predicate Distinct(ks: seq<Key>)
  {
    ks != [] ==> ks[0] !in Members(ks[1..]) && Distinct(ks[1..])
  }

  /** Every stored iterator points at its own key's node. */
  predicate PointsHome(cells: seq<Cell>, iters: map<Key, nat>)
  {
    cells != [] ==>
      && cells[0].key in iters && iters[cells[0].key] == cells[0].id
      && cells[0].id !in Ids(cells[1..]) && PointsHome(cells[1..], iters)
  }

  /** The index invariant. */
  predicate Indexed<E>(t: Tables<E>)
  {
    && PointsHome(t.tracker, t.iters)
    && Distinct(KeysOf(t.tracker))
    && Members(KeysOf(t.tracker)) == t.iters.Keys == t.entries.Keys
    && (forall i | i in Ids(t.tracker) :: i < t.next)
  }

  /** std::list::splice of one node to the end. */
  function Splice(cells: seq<Cell>, id: nat): (r: seq<Cell>)
    requires id in Ids(cells)
  {
    if cells[0].id == id then cells[1..] + [cells[0]]
    else [cells[0]] + Splice(cells[1..], id)
  }

  /** Moves a key to the end of an order, where it may or may not be already. */
  function Touch(ks: seq<Key>, k: Key): (r: seq<Key>)
  {
    Without(ks, k) + [k]
  }

  function Without(ks: seq<Key>, k: Key): (r: seq<Key>)
  {
    if ks == [] then [] else if ks[0] == k then Without(ks[1..], k) else [ks[0]] + Without(ks[1..], k)
  }

  lemma {:induction false} WithoutAbsent(ks: seq<Key>, k: Key)
    requires k !in Members(ks)
    ensures Without(ks, k) == ks
  {
    if ks == [] {
    } else {
      WithoutAbsent(ks[1..], k);
    }
  }

  lemma {:induction false} WithoutMembers(ks: seq<Key>, k: Key)
    ensures Members(Without(ks, k)) == Members(ks) - {k}
    ensures Distinct(ks) ==> Distinct(Without(ks, k))
  {
    if ks == [] {
    } else {
      WithoutMembers(ks[1..], k);
      var w := Without(ks, k);
      if ks[0] != k { assert w[1..] == Without(ks[1..], k); }
    }
  }

  lemma {:induction false} MembersAppend(ks: seq<Key>, k: Key)
    ensures Members(ks + [k]) == Members(ks) + {k}
    ensures Distinct(ks) && k !in Members(ks) ==> Distinct(ks + [k])
  {
    if ks == [] {
      assert (ks + [k])[1..] == [];
    } else {
      MembersAppend(ks[1..], k);
      assert (ks + [k])[1..] == ks[1..] + [k];
    }
  }

  lemma {:induction false} AppendCell(cells: seq<Cell>, c: Cell)
    ensures KeysOf(cells + [c]) == KeysOf(cells) + [c.key]
    ensures Ids(cells + [c]) == Ids(cells) + {c.id}
  {
    if cells == [] {
      assert (cells + [c])[1..] == [];
    } else {
      AppendCell(cells[1..], c);
      assert (cells + [c])[1..] == cells[1..] + [c];
    }
  }

  lemma {:induction false} AppendPointsHome(cells: seq<Cell>, iters: map<Key, nat>, c: Cell)
    requires PointsHome(cells, iters) && c.id !in Ids(cells) && c.key in iters && iters[c.key] == c.id
    ensures PointsHome(cells + [c], iters)
  {
    if cells == [] {
      assert (cells + [c])[1..] == [];
    } else {
      AppendPointsHome(cells[1..], iters, c);
      AppendCell(cells[1..], c);
      assert (cells + [c])[1..] == cells[1..] + [c];
    }
  }

  /** A new key's iterator does not disturb the others. */
  lemma {:induction false} NewIter(cells: seq<Cell>, iters: map<Key, nat>, k: Key, id: nat)
    requires PointsHome(cells, iters) && k !in Members(KeysOf(cells))
    ensures PointsHome(cells, iters[k := id])
  {
    if cells == [] {
    } else {
      assert KeysOf(cells)[1..] == KeysOf(cells[1..]);
      NewIter(cells[1..], iters, k, id);
    }
  }

  /** The node an iterator names is the node of its key. */
  lemma {:induction false} HomeInIds(cells: seq<Cell>, iters: map<Key, nat>, k: Key)
    requires PointsHome(cells, iters) && k in Members(KeysOf(cells))
    ensures k in iters && iters[k] in Ids(cells)
  {
    assert KeysOf(cells)[1..] == KeysOf(cells[1..]);
    if cells[0].key == k {
    } else {
      HomeInIds(cells[1..], iters, k);
    }
  }

  /** Splicing the node of a stored iterator moves its key, and nothing else. */
  lemma {:induction false} SpliceTouches(cells: seq<Cell>, iters: map<Key, nat>, k: Key)
    requires PointsHome(cells, iters) && Distinct(KeysOf(cells)) && k in Members(KeysOf(cells))
    requires k in iters && iters[k] in Ids(cells)
    ensures var r := Splice(cells, iters[k]);
            && KeysOf(r) == Touch(KeysOf(cells), k) && Ids(r) == Ids(cells) && PointsHome(r, iters)
  {
    var ks := KeysOf(cells);
    assert ks[1..] == KeysOf(cells[1..]);
    if cells[0].key == k {
      WithoutAbsent(ks[1..], k);
      AppendCell(cells[1..], cells[0]);
      AppendPointsHome(cells[1..], iters, cells[0]);
    } else {
      HomeInIds(cells[1..], iters, k);
      if cells[0].id == iters[k] { assert false; }
      SpliceTouches(cells[1..], iters, k);
      var r := Splice(cells, iters[k]);
      assert r[1..] == Splice(cells[1..], iters[k]);
      assert [ks[0]] + (Without(ks[1..], k) + [k]) == ([ks[0]] + Without(ks[1..], k)) + [k];
    }
  }

  // ---------------------------------------------------------------- what the operations mean

  /** What a caller's function does to an entry, whether it marks the key as written, and its answer. */
  datatype Outcome<+E, +R> = Outcome(entry: E, wrote: bool, result: R)

  /** The database without its list nodes. */
  datatype View<E> = View(order: seq<Key>, entries: map<Key, map<string, E>>, fields: map<string, string>, soft: nat)

  function Abs<E>(t: Tables<E>): (v: View<E>)
  {
    View(KeysOf(t.tracker), t.entries, t.fields, t.soft)
  }

  predicate Known<E>(v: View<E>, f: string)
  {
    f in v.fields && v.fields[f] in TYPES
  }

  predicate Has<E>(v: View<E>, k: Key, f: string)
  {
    k in v.entries && f in v.entries[k]
  }

  /** With an entry for the key and field, made if there is none. */
  function Created<E>(v: View<E>, k: Key, f: string, make: Make<E>): (r: View<E>)
    requires Known(v, f)
    ensures Has(r, k, f)
  {
    if k !in v.entries then v.(order := v.order + [k], entries := v.entries[k := map[f := make(k, f, v.fields[f])]])
    else if f !in v.entries[k] then v.(entries := v.entries[k := v.entries[k][f := make(k, f, v.fields[f])]])
    else v
  }

  /** The caller's function on an entry that exists. */
  function On<E, R>(v: View<E>, k: Key, f: string, fn: E -> Outcome<E, R>): (r: View<E>)
    requires Has(v, k, f)
  {
    var o := fn(v.entries[k][f]);
    v.(order := if o.wrote then Touch(v.order, k) else v.order,
       entries := v.entries[k := v.entries[k][f := o.entry]])
  }

  function Found<E, R>(v: View<E>, k: Key, f: string, fn: E -> Outcome<E, R>): (r: Option<R>)
    requires Has(v, k, f)
  {
    Some(fn(v.entries[k][f]).result)
  }

  function MapAll<E, F>(m: map<string, E>, g: E -> F): (r: map<string, F>)
  {
    map f | f in m :: g(m[f])
  }

  /** The entries of the given keys. */
  function Restrict<E>(entries: map<Key, map<string, E>>, ks: set<Key>): (r: map<Key, map<string, E>>)
  {
    map k | k in entries && k in ks :: entries[k]
  }

  // ---------------------------------------------------------------- methods

  ghost predicate Agree<E>(t: Tables<E>, v: View<E>)
  {
    Indexed(t) && Abs(t) == v
  }

  /** Writes an entry that exists. */
  method CallOn<E, R>(t: Tables<E>, key: Key, field: string, fn: E -> Outcome<E, R>) returns (r: Tables<E>, res: R)
    requires Indexed(t) && Has(Abs(t), key, field)
    ensures Agree(r, On(Abs(t), key, field, fn)) && Found(Abs(t), key, field, fn) == Some(res)
  {
    hide PointsHome, Distinct, Splice;
    var o := fn(t.entries[key][field]);
    r := t.(entries := t.entries[key := t.entries[key][field := o.entry]]);
    assert r.entries.Keys == t.entries.Keys;
    if o.wrote {
      HomeInIds(t.tracker, t.iters, key);
      SpliceTouches(t.tracker, t.iters, key);
      WithoutMembers(KeysOf(t.tracker), key);
      MembersAppend(Without(KeysOf(t.tracker), key), key);
      r := r.(tracker := Splice(t.tracker, t.iters[key]));
    }
    res := o.result;
  }

  /** Adds a key at the end of the list. */
  method AddKey<E>(t: Tables<E>, key: Key, fields: map<string, E>) returns (r: Tables<E>)
    requires Indexed(t) && key !in t.entries
    ensures Agree(r, Abs(t).(order := Abs(t).order + [key], entries := t.entries[key := fields]))
  {
    hide PointsHome, Distinct;
    var c := Cell(t.next, key);
    r := t.(tracker := t.tracker + [c], iters := t.iters[key := t.next], entries := t.entries[key := fields], next := t.next + 1);
    NewIter(t.tracker, t.iters, key, t.next);
    AppendPointsHome(t.tracker, r.iters, c);
    AppendCell(t.tracker, c);
    MembersAppend(KeysOf(t.tracker), key);
  }

  /** _find_create_key_field: unknown fields are refused, missing entries are made if asked for. */
  method FindCreate<E, R>(t: Tables<E>, key: Key, field: string, fn: E -> Outcome<E, R>, make: Make<E>, create: bool)
    returns (r: Tables<E>, res: Option<R>)
    requires Indexed(t)
    ensures res.Some? <==> Known(Abs(t), field) && (create || Has(Abs(t), key, field))
    ensures res.None? ==> r == t
    ensures res.Some? ==> var c := Created(Abs(t), key, field, make);
                          Agree(r, On(c, key, field, fn)) && res == Found(c, key, field, fn)
    decreases create
  {
    hide Indexed, Touch;
    if field !in t.fields || t.fields[field] !in TYPES { return t, None; }
    if key in t.entries {
      if field in t.entries[key] {
        var x;
        r, x := CallOn(t, key, field, fn);
        res := Some(x);
      } else if create {
        r := t.(entries := t.entries[key := t.entries[key][field := make(key, field, t.fields[field])]]);
        SameIndex(t, r);
        r, res := FindCreate(r, key, field, fn, make, false);
      } else {
        r, res := t, None;
      }
    } else if create {
      r := AddKey(t, key, map[field := make(key, field, t.fields[field])]);
      r, res := FindCreate(r, key, field, fn, make, false);
    } else {
      r, res := t, None;
    }
  }

  lemma SameIndex<E>(t: Tables<E>, r: Tables<E>)
    requires Indexed(t) && r.tracker == t.tracker && r.iters == t.iters && r.next == t.next && r.entries.Keys == t.entries.Keys
    ensures Indexed(r)
  {
  }

  /** The loops over all fields of a key. */
  method ForEach<E, R>(m: map<string, E>, ask: E -> Outcome<E, R>) returns (r: map<string, E>, answers: map<string, R>)
    ensures r == MapAll(m, (e: E) => ask(e).entry)
    ensures answers == MapAll(m, (e: E) => ask(e).result)
  {
    r, answers := map[], map[];
    var todo := m.Keys;
    while todo != {}
      invariant todo <= m.Keys
      invariant r == map f | f in m && f !in todo :: ask(m[f]).entry
      invariant answers == map f | f in m && f !in todo :: ask(m[f]).result
      decreases todo
    {
      var f :| f in todo;
      var o := ask(m[f]);
      r, answers := r[f := o.entry], answers[f := o.result];
      todo := todo - {f};
    }
  }

  /** reset, and the reads of all fields of a key. */
  method OnKey<E, R>(t: Tables<E>, key: Key, ask: E -> Outcome<E, R>) returns (r: Tables<E>, res: Option<map<string, R>>)
    requires Indexed(t)
    ensures Agree(r, OnAll(Abs(t), key, ask)) && res == FoundAll(Abs(t), key, ask)
  {
    hide PointsHome, Distinct;
    r, res := t, None;
    if key in t.entries {
      var m, answers := ForEach(t.entries[key], ask);
      r := t.(entries := t.entries[key := m]);
      assert r.entries.Keys == t.entries.Keys;
      res := Some(answers);
    }
  }

  function OnAll<E, R>(v: View<E>, k: Key, ask: E -> Outcome<E, R>): (r: View<E>)
  {
    if k in v.entries then v.(entries := v.entries[k := MapAll(v.entries[k], (e: E) => ask(e).entry)]) else v
  }

  function FoundAll<E, R>(v: View<E>, k: Key, ask: E -> Outcome<E, R>): (r: Option<map<string, R>>)
  {
    if k in v.entries then Some(MapAll(v.entries[k], (e: E) => ask(e).result)) else None
  }

  function OnField<E>(v: View<E>, k: Key, f: string, clear: E -> E): (r: View<E>)
  {
    if Has(v, k, f) then v.(entries := v.entries[k := v.entries[k][f := clear(v.entries[k][f])]]) else v
  }

  method ResetField<E>(t: Tables<E>, key: Key, field: string, clear: E -> E) returns (r: Tables<E>)
    requires Indexed(t)
    ensures Agree(r, OnField(Abs(t), key, field, clear))
  {
    hide PointsHome, Distinct;
    r := t;
    if key in t.entries && field in t.entries[key] {
      r := t.(entries := t.entries[key := t.entries[key][field := clear(t.entries[key][field])]]);
      assert r.entries.Keys == t.entries.Keys;
    }
  }

  // ---------------------------------------------------------------- expiry

  function Expired<E>(v: View<E>): (r: View<E>)
  {
    if |v.order| <= v.soft then v else
      var kept := v.order[|v.order| - v.soft..];
      v.(order := kept, entries := Restrict(v.entries, Members(kept)))
  }

  lemma {:induction false} DropKeys(cells: seq<Cell>, n: nat)
    requires n <= |cells|
    ensures KeysOf(cells[n..]) == KeysOf(cells)[n..]
  {
    if n == 0 {
      assert cells[0..] == cells && KeysOf(cells)[0..] == KeysOf(cells);
    } else {
      DropKeys(cells[1..], n - 1);
      assert cells[1..][n - 1..] == cells[n..] && KeysOf(cells)[n..] == KeysOf(cells)[1..][n - 1..];
    }
  }

  /** Removes the key at the front of the list. */
  method PopFront<E>(t: Tables<E>) returns (r: Tables<E>)
    requires Indexed(t) && t.tracker != []
    ensures Indexed(r) && r.tracker == t.tracker[1..] && r.fields == t.fields && r.soft == t.soft
    ensures r.entries == Restrict(t.entries, Members(KeysOf(t.tracker[1..])))
  {
    var k := t.tracker[0].key;
    ghost var rest := KeysOf(t.tracker[1..]);
    assert KeysOf(t.tracker)[1..] == rest;
    r := t.(tracker := t.tracker[1..], iters := t.iters - {k}, entries := t.entries - {k});
    KeepIters(t.tracker[1..], t.iters, k);
    assert Ids(t.tracker) == {t.tracker[0].id} + Ids(r.tracker);
    assert t.entries.Keys == Members(rest) + {k} && k !in Members(rest);
    assert r.entries.Keys == Members(rest) == r.iters.Keys;
  }

  lemma {:induction false} KeepIters(cells: seq<Cell>, iters: map<Key, nat>, k: Key)
    requires PointsHome(cells, iters) && k !in Members(KeysOf(cells))
    ensures PointsHome(cells, iters - {k})
  {
    if cells == [] {
    } else {
      assert KeysOf(cells)[1..] == KeysOf(cells[1..]);
      KeepIters(cells[1..], iters, k);
    }
  }

  lemma {:induction false} MembersCount(ks: seq<Key>)
    requires Distinct(ks)
    ensures |Members(ks)| == |ks|
  {
    if ks == [] {
    } else {
      MembersCount(ks[1..]);
    }
  }

  /** One pass of expireEntries. */
  method Expire<E>(t: Tables<E>) returns (r: Tables<E>)
    requires Indexed(t)
    ensures Agree(r, Expired(Abs(t)))
  {
    hide Indexed, Restrict, Members, KeysOf;
    SizeIsOrder(t);
    r := t;
    if |t.entries| <= t.soft { return; }
    var numExpire := |t.entries| - t.soft;
    ghost var total := numExpire;
    assert t.tracker[0..] == t.tracker;
    RestrictNothing(t);
    while numExpire > 0
      invariant 0 <= numExpire <= total
      invariant Indexed(r) && r.tracker == t.tracker[total - numExpire..] && r.fields == t.fields && r.soft == t.soft
      invariant r.entries == Restrict(t.entries, Members(KeysOf(r.tracker)))
    {
      ghost var before := r;
      r := PopFront(r);
      numExpire := numExpire - 1;
      assert before.tracker[1..] == t.tracker[total - numExpire..];
      RestrictTwice(t.entries, before.tracker);
    }
    DropKeys(t.tracker, total);
  }

  lemma RestrictNothing<E>(t: Tables<E>)
    requires Indexed(t)
    ensures Restrict(t.entries, Members(KeysOf(t.tracker))) == t.entries
  {
    hide PointsHome, Distinct;
  }

  lemma RestrictTwice<E>(entries: map<Key, map<string, E>>, cells: seq<Cell>)
    requires cells != []
    ensures Restrict(Restrict(entries, Members(KeysOf(cells))), Members(KeysOf(cells[1..])))
         == Restrict(entries, Members(KeysOf(cells[1..])))
  {
    assert KeysOf(cells)[1..] == KeysOf(cells[1..]);
  }

  lemma SizeIsOrder<E>(t: Tables<E>)
    requires Indexed(t)
    ensures |t.entries| == |t.tracker|
  {
    hide PointsHome;
    MembersCount(KeysOf(t.tracker));
    assert |t.entries| == |t.entries.Keys|;
  }

  // ---------------------------------------------------------------- runs

  datatype Op<!E, !R> =
    | Update(key: Key, field: string, fn: E -> Outcome<E, R>)
    | Query(key: Key, field: string, fn: E -> Outcome<E, R>)
    | AllFields(key: Key, fn: E -> Outcome<E, R>)
    | ClearField(key: Key, field: string, clear: E -> E)
    | SetFields(fields: map<string, string>)
    | SetSoft(size: nat)
    | ExpirePass
    | GetSize

  datatype Answer<R> = Nothing | One(value: Option<R>) | All(values: Option<map<string, R>>) | Ok(ok: bool) | Size(size: nat)

  predicate TypesKnown(fields: map<string, string>)
  {
    forall f | f in fields :: fields[f] in TYPES
  }

  function Step<E, R>(v: View<E>, op: Op<E, R>, make: Make<E>): (r: View<E>)
  {
    match op
    case Update(k, f, fn) => if Known(v, f) then On(Created(v, k, f, make), k, f, fn) else v
    case Query(k, f, fn) => if Known(v, f) && Has(v, k, f) then On(v, k, f, fn) else v
    case AllFields(k, fn) => OnAll(v, k, fn)
    case ClearField(k, f, clear) => OnField(v, k, f, clear)
    case SetFields(fields) => if TypesKnown(fields) then v.(fields := fields) else v
    case SetSoft(n) => v.(soft := n)
    case ExpirePass => Expired(v)
    case GetSize => v
  }

  function Reply<E, R>(v: View<E>, op: Op<E, R>, make: Make<E>): (a: Answer<R>)
  {
    match op
    case Update(k, f, fn) => One(if Known(v, f) then Found(Created(v, k, f, make), k, f, fn) else None)
    case Query(k, f, fn) => One(if Known(v, f) && Has(v, k, f) then Found(v, k, f, fn) else None)
    case AllFields(k, fn) => All(FoundAll(v, k, fn))
    case SetFields(fields) => Ok(TypesKnown(fields))
    case GetSize => Size(|v.entries|)
    case _ => Nothing
  }

  /**
   What operations answer: a read of one field answers if there is such an entry and its field
   is known, a read of all fields if there is such a key, then for exactly its fields, and
   setFields whether all types are known.
   */
  lemma RepliesAre<E, R>(v: View<E>, k: Key, f: string, fn: E -> Outcome<E, R>, fields: map<string, string>, make: Make<E>)
    ensures var one := Reply(v, Query(k, f, fn), make);
            if f in v.fields && v.fields[f] in TYPES && k in v.entries && f in v.entries[k]
            then one == One(Some(fn(v.entries[k][f]).result)) else one == One(None)
    ensures var all := Reply(v, AllFields(k, fn), make);
            && (k !in v.entries ==> all == All(None))
            && (k in v.entries ==>
                  && all.All? && all.values.Some? && all.values.value.Keys == v.entries[k].Keys
                  && forall g | g in v.entries[k] :: all.values.value[g] == fn(v.entries[k][g]).result)
    ensures Reply(v, Op<E, R>.SetFields(fields), make) == Ok(forall g | g in fields :: fields[g] in {"int", "hll", "countmin"})
    ensures Reply(v, Op<E, R>.GetSize, make) == Size(|v.entries|)
  {
  }

  function Run<E, R>(v: View<E>, ops: seq<Op<E, R>>, make: Make<E>): (r: View<E>)
  {
    if ops == [] then v else Step(Run(v, ops[..|ops| - 1], make), ops[|ops| - 1], make)
  }

  /** Every method step keeps the index and does what Step says. */
  method Apply<E, R>(t: Tables<E>, op: Op<E, R>, make: Make<E>) returns (r: Tables<E>, a: Answer<R>)
    requires Indexed(t)
    ensures Agree(r, Step(Abs(t), op, make)) && a == Reply(Abs(t), op, make)
  {
    hide Indexed, On, OnAll, FoundAll, OnField, Expired;
    a := Nothing;
    match op
    case Update(k, f, fn) =>
      var res;
      r, res := FindCreate(t, k, f, fn, make, true);
      a := One(res);
    case Query(k, f, fn) =>
      var res;
      r, res := FindCreate(t, k, f, fn, make, false);
      a := One(res);
    case AllFields(k, fn) =>
      var res;
      r, res := OnKey(t, k, fn);
      a := All(res);
    case ClearField(k, f, clear) =>
      r := ResetField(t, k, f, clear);
    case SetFields(fields) =>
      r := if TypesKnown(fields) then t.(fields := fields) else t;
      SameIndex(t, r);
      a := Ok(TypesKnown(fields));
    case SetSoft(n) =>
      r := t.(soft := n);
      SameIndex(t, r);
    case ExpirePass =>
      r := Expire(t);
    case GetSize =>
      r, a := t, Size(|t.entries|);
  }

  function EmptyTables<E>(): (t: Tables<E>)
    ensures Indexed(t)
  {
    Tables([], map[], map[], map[], 524288, 0)
  }

  /** The state changes of a whole run, from an empty database. */
  class TWStatsDB<E> {
    var tables: Tables<E>
    const make: Make<E>

    ghost predicate Valid()
      reads this
    {
      Indexed(tables)
    }

    constructor (make: Make<E>)
      ensures Valid() && Abs(tables) == Abs(EmptyTables<E>()) && this.make == make
    {
      tables := EmptyTables();
      this.make := make;
    }

    method Do<R>(op: Op<E, R>) returns (a: Answer<R>)
      requires Valid()
      modifies this
      ensures Valid() && Abs(tables) == Step(old(Abs(tables)), op, make) && a == Reply(old(Abs(tables)), op, make)
    {
      hide Step, Reply, Indexed;
      var t;
      t, a := Apply(tables, op, make);
      tables := t;
    }
  }

  // ---------------------------------------------------------------- order of last write

  /** The key an operation writes or creates. */
  function Touched<E, R>(v: View<E>, op: Op<E, R>, make: Make<E>): (k: Option<Key>)
  {
    match op
    case Update(k, f, fn) =>
      if Known(v, f) && (k !in v.entries || fn(Created(v, k, f, make).entries[k][f]).wrote) then Some(k) else None
    case Query(k, f, fn) => if Known(v, f) && Has(v, k, f) && fn(v.entries[k][f]).wrote then Some(k) else None
    case _ => None
  }

  /** The number of operations up to and including the last one that wrote k, or 0. */
  function LastWrite<E, R>(v: View<E>, ops: seq<Op<E, R>>, make: Make<E>, k: Key): (n: nat)
    ensures n <= |ops|
  {
    if ops == [] then 0 else
      var before := ops[..|ops| - 1];
      if Touched(Run(v, before, make), ops[|ops| - 1], make) == Some(k) then |ops| else LastWrite(v, before, make, k)
  }

  predicate Sorted(ks: seq<Key>, at: Key -> nat)
  {
    ks != [] ==> (forall k | k in Members(ks[1..]) :: at(ks[0]) < at(k)) && Sorted(ks[1..], at)
  }

  lemma {:induction false} SortedCong(ks: seq<Key>, at: Key -> nat, at': Key -> nat)
    requires Sorted(ks, at) && forall k | k in Members(ks) :: at'(k) == at(k)
    ensures Sorted(ks, at')
  {
    if ks == [] {
    } else {
      SortedCong(ks[1..], at, at');
    }
  }

  lemma {:induction false} SortedWithout(ks: seq<Key>, at: Key -> nat, k: Key)
    requires Sorted(ks, at)
    ensures Sorted(Without(ks, k), at)
  {
    if ks == [] {
    } else {
      SortedWithout(ks[1..], at, k);
      WithoutMembers(ks[1..], k);
      var w := Without(ks, k);
      if ks[0] != k { assert w[1..] == Without(ks[1..], k); }
    }
  }

  lemma {:induction false} SortedAppend(ks: seq<Key>, at: Key -> nat, k: Key)
    requires Sorted(ks, at) && forall j | j in Members(ks) :: at(j) < at(k)
    ensures Sorted(ks + [k], at)
  {
    if ks == [] {
      assert (ks + [k])[1..] == [];
    } else {
      SortedAppend(ks[1..], at, k);
      MembersAppend(ks[1..], k);
      assert (ks + [k])[1..] == ks[1..] + [k];
    }
  }

  lemma {:induction false} SortedDrop(ks: seq<Key>, at: Key -> nat, n: nat)
    requires Sorted(ks, at) && n <= |ks|
    ensures Sorted(ks[n..], at) && Members(ks[n..]) <= Members(ks)
    ensures forall i, k | 0 <= i < n && k in Members(ks[n..]) :: at(ks[i]) < at(k)
  {
    if n == 0 {
      assert ks[0..] == ks;
    } else {
      SortedDrop(ks[1..], at, n - 1);
      assert ks[1..][n - 1..] == ks[n..];
      forall i, k | 0 <= i < n && k in Members(ks[n..])
        ensures at(ks[i]) < at(k)
      {
        if i > 0 { assert ks[i] == ks[1..][i - 1]; }
      }
    }
  }

  /** A newly written key goes to the end. */
  lemma SortedTouch(ks: seq<Key>, at: Key -> nat, at': Key -> nat, k: Key)
    requires Sorted(ks, at)
    requires forall j | j in Members(ks) && j != k :: at'(j) == at(j) < at'(k)
    ensures Sorted(Touch(ks, k), at')
  {
    SortedWithout(ks, at, k);
    WithoutMembers(ks, k);
    SortedCong(Without(ks, k), at, at');
    SortedAppend(Without(ks, k), at', k);
  }

  predicate Consistent<E>(v: View<E>)
  {
    Distinct(v.order) && Members(v.order) == v.entries.Keys
  }

  /** How one operation changes the order. */
  lemma StepOrder<E, R>(v: View<E>, op: Op<E, R>, make: Make<E>)
    requires Consistent(v)
    ensures Consistent(Step(v, op, make))
    ensures !op.ExpirePass? ==>
              Step(v, op, make).order == match Touched(v, op, make) case Some(k) => Touch(v.order, k) case None => v.order
  {
    hide Consistent, Created, Touch, Expired, OnAll, OnField;
    match op
    case Update(k, f, fn) =>
      if Known(v, f) {
        UpdateOrder(v, k, f, fn, make);
      }
    case Query(k, f, fn) =>
      if Known(v, f) && Has(v, k, f) {
        OnOrder(v, k, f, fn);
      }
    case AllFields(k, fn) =>
      OnAllKeys(v, k, fn);
      SameKeys(v, OnAll(v, k, fn));
    case ClearField(k, f, clear) =>
      OnFieldKeys(v, k, f, clear);
      SameKeys(v, OnField(v, k, f, clear));
    case SetFields(fields) => SameKeys(v, v.(fields := fields));
    case SetSoft(n) => SameKeys(v, v.(soft := n));
    case ExpirePass => ExpiredConsistent(v);
    case GetSize =>
  }

  lemma OnAllKeys<E, R>(v: View<E>, k: Key, fn: E -> Outcome<E, R>)
    ensures OnAll(v, k, fn).order == v.order && OnAll(v, k, fn).entries.Keys == v.entries.Keys
  {
  }

  lemma OnFieldKeys<E>(v: View<E>, k: Key, f: string, clear: E -> E)
    ensures OnField(v, k, f, clear).order == v.order && OnField(v, k, f, clear).entries.Keys == v.entries.Keys
  {
  }

  lemma SameKeys<E>(v: View<E>, r: View<E>)
    requires Consistent(v) && r.order == v.order && r.entries.Keys == v.entries.Keys
    ensures Consistent(r)
  {
  }

  lemma OnOrder<E, R>(v: View<E>, k: Key, f: string, fn: E -> Outcome<E, R>)
    requires Consistent(v) && Has(v, k, f)
    ensures Consistent(On(v, k, f, fn))
  {
    WithoutMembers(v.order, k);
    MembersAppend(Without(v.order, k), k);
  }

  lemma UpdateOrder<E, R>(v: View<E>, k: Key, f: string, fn: E -> Outcome<E, R>, make: Make<E>)
    requires Consistent(v) && Known(v, f)
    ensures var c := Created(v, k, f, make);
            && Consistent(On(c, k, f, fn))
            && On(c, k, f, fn).order == if k !in v.entries || fn(c.entries[k][f]).wrote then Touch(v.order, k) else v.order
  {
    var c := Created(v, k, f, make);
    MembersAppend(v.order, k);
    OnOrder(c, k, f, fn);
    if k !in v.entries {
      WithoutAbsent(v.order, k);
      TouchTwice(v.order, k);
    }
  }

  lemma {:induction false} TouchTwice(ks: seq<Key>, k: Key)
    ensures Without(ks + [k], k) == Without(ks, k)
  {
    if ks == [] {
      assert (ks + [k])[1..] == [];
    } else {
      TouchTwice(ks[1..], k);
      assert (ks + [k])[1..] == ks[1..] + [k];
    }
  }

  lemma {:induction false} DistinctDrop(ks: seq<Key>, n: nat)
    requires Distinct(ks) && n <= |ks|
    ensures Distinct(ks[n..]) && Members(ks[n..]) <= Members(ks)
  {
    if n == 0 {
      assert ks[0..] == ks;
    } else {
      DistinctDrop(ks[1..], n - 1);
      assert ks[1..][n - 1..] == ks[n..];
    }
  }

  lemma ExpiredConsistent<E>(v: View<E>)
    requires Consistent(v)
    ensures Consistent(Expired(v))
    ensures |v.entries| > v.soft ==> |Expired(v).entries| == v.soft
    ensures |v.entries| <= v.soft ==> Expired(v) == v
  {
    hide Members, Distinct;
    MembersCount(v.order);
    SizeOfKeys(v.entries);
    if |v.order| > v.soft {
      var n := |v.order| - v.soft;
      var kept := v.order[n..];
      DistinctDrop(v.order, n);
      MembersCount(kept);
      var e := Restrict(v.entries, Members(kept));
      assert e.Keys == Members(kept);
      SizeOfKeys(e);
    }
  }

  lemma SizeOfKeys<E>(m: map<Key, map<string, E>>)
    ensures |m| == |m.Keys|
  {
  }

  /**
   In every run the list is duplicate-free, holds exactly the keys of the map, and is in
   the order of the keys' last writes.
   */
  lemma {:induction false} OrderIsLastWrite<E, R>(v: View<E>, ops: seq<Op<E, R>>, make: Make<E>)
    requires v.order == [] && v.entries == map[]
    ensures var r := Run(v, ops, make);
            && Consistent(r)
            && Sorted(r.order, k => LastWrite(v, ops, make, k))
  {
    hide Step, Touched, Members, Distinct;
    if ops == [] {
      NoKeys(k => LastWrite(v, ops, make, k));
    } else {
      var before := ops[..|ops| - 1];
      var op := ops[|ops| - 1];
      OrderIsLastWrite(v, before, make);
      var u := Run(v, before, make);
      var at := k => LastWrite(v, before, make, k);
      var at' := k => LastWrite(v, ops, make, k);
      StepOrder(u, op, make);
      match Touched(u, op, make) {
        case Some(k) =>
          NotExpiry(u, op, make);
          SortedTouch(u.order, at, at', k);
        case None =>
          if op.ExpirePass? {
            ExpireOrder(u, op, make);
            SortedDrop(u.order, at, |u.order| - |Step(u, op, make).order|);
          }
          SortedCong(Step(u, op, make).order, at, at');
      }
    }
  }

  lemma NoKeys(at: Key -> nat)
    ensures Distinct([]) && Members([]) == {} && Sorted([], at)
  {
  }

  lemma NotExpiry<E, R>(v: View<E>, op: Op<E, R>, make: Make<E>)
    requires Touched(v, op, make).Some?
    ensures !op.ExpirePass?
  {
  }

  lemma ExpireOrder<E, R>(v: View<E>, op: Op<E, R>, make: Make<E>)
    requires op.ExpirePass?
    ensures var r := Step(v, op, make);
            |r.order| <= |v.order| && r.order == v.order[|v.order| - |r.order|..]
  {
    assert v.order[0..] == v.order;
  }

  /** An expiry pass leaves exactly the soft limit of keys, every one written after all those it removed. */
  lemma ExpiryKeepsRecent<E, R>(v: View<E>, ops: seq<Op<E, R>>, make: Make<E>, gone: Key, kept: Key)
    requires v.order == [] && v.entries == map[]
    ensures var r := Run(v, ops, make);
            var e := Expired(r);
            && (|r.entries| <= r.soft ==> e == r)
            && (|r.entries| > r.soft ==> |e.entries| == r.soft)
            && (forall k | k in e.entries :: k in r.entries && e.entries[k] == r.entries[k])
            && (gone in r.entries && gone !in e.entries && kept in e.entries ==>
                  LastWrite(v, ops, make, gone) < LastWrite(v, ops, make, kept))
  {
    hide Run, LastWrite;
    OrderIsLastWrite(v, ops, make);
    ExpiryKeepsLast(Run(v, ops, make), k => LastWrite(v, ops, make, k), gone, kept);
  }

  lemma ExpiryKeepsLast<E>(r: View<E>, at: Key -> nat, gone: Key, kept: Key)
    requires Consistent(r) && Sorted(r.order, at)
    ensures var e := Expired(r);
            && (|r.entries| <= r.soft ==> e == r)
            && (|r.entries| > r.soft ==> |e.entries| == r.soft)
            && (forall k | k in e.entries :: k in r.entries && e.entries[k] == r.entries[k])
            && (gone in r.entries && gone !in e.entries && kept in e.entries ==> at(gone) < at(kept))
  {
    hide Members, Distinct, Sorted;
    ExpiredConsistent(r);
    if |r.order| > r.soft {
      var n := |r.order| - r.soft;
      SortedDrop(r.order, at, n);
      if gone in r.entries && gone !in Members(r.order[n..]) {
        MemberAt(r.order, n, gone);
      }
    }
  }

  lemma {:induction false} MemberAt(ks: seq<Key>, n: nat, k: Key)
    requires k in Members(ks) && 0 < n <= |ks| && k !in Members(ks[n..])
    ensures exists i :: 0 <= i < n && ks[i] == k
  {
    if ks[0] != k && n > 1 {
      assert ks[1..][n - 1..] == ks[n..];
      MemberAt(ks[1..], n - 1, k);
      var i :| 0 <= i < n - 1 && ks[1..][i] == k;
      assert ks[i + 1] == k;
    }
  }
}
