/**
 The IP list of a BlackWhiteListDB: a multi-index container (by key, by expiration,
 by insertion) kept coherent with a NetmaskGroup used for matching.

 A key is the string toStringNetwork prints.  Printing and parsing are taken as
 inverse, so a key is represented by what the string denotes: a family and the
 leading bits of the network.
 */
module BlackWhiteLists {
  import opened Basics
  import opened Words
  import opened Addresses
  import opened NetmaskTrees

  // ---------------------------------------------------------------- keys

  type Key = p: Prefix | p.path.Depth() <= Width(p.family) witness Prefix(V4, Root)

  function Bits(p: Path): (w: Word)
    ensures |w| == p.Depth()
  {
    if p.Root? then [] else Bits(p.up) + [p.bit]
  }

  lemma {:induction false} WalkBits(p: Path, rest: Word)
    ensures Walk(Bits(p) + rest, p.Depth()) == p
  {
    if p.Turn? {
      WalkBits(p.up, [p.bit] + rest);
      assert Bits(p.up) + ([p.bit] + rest) == Bits(p) + rest;
    }
  }

  /** The netmask a key string parses to. */
  function NetmaskOf(k: Key): (m: Netmask)
    ensures PrefixOf(m) == k
  {
    WalkBits(k.path, Zeros(Width(k.family) - k.path.Depth()));
    Netmask(Address(k.family, Bits(k.path) + Zeros(Width(k.family) - k.path.Depth())), k.path.Depth())
  }

  /** Printing a netmask's masked network and parsing it back gives that masked network. */
  lemma {:induction false} KeyRoundTrip(m: Netmask)
    ensures PrefixOf(m).path.Depth() <= Width(m.network.family)
    ensures NetmaskOf(PrefixOf(m)) == Netmask(Address(m.network.family, Keep(m.network.bits, m.bits)), m.bits)
  {
    BitsWalk(m.network.bits, m.bits);
  }

  lemma {:induction false} BitsWalk(w: Word, n: nat)
    requires n <= |w|
    ensures Bits(Walk(w, n)) == w[..n]
  {
    if n > 0 {
      BitsWalk(w, n - 1);
    }
  }

  // ---------------------------------------------------------------- the container

  datatype Entry = Entry(key: Key, reason: string, expiration: int)

  /** A multi_index_container: the sequenced view and the view ordered by expiration. */
  datatype MultiIndex = MultiIndex(bySeq: seq<Entry>, byTime: seq<Entry>)

  function Elems(es: seq<Entry>): (s: set<Entry>)
  {
    if es == [] then {} else {es[0]} + Elems(es[1..])
  }

  function KeysOf(es: seq<Entry>): (s: set<Key>)
    ensures forall e | e in Elems(es) :: e.key in s
  {
    if es == [] then {} else {es[0].key} + KeysOf(es[1..])
  }

  ghost predicate Distinct(es: seq<Entry>)
  {
    es == [] || (es[0].key !in KeysOf(es[1..]) && Distinct(es[1..]))
  }

  ghost predicate Sorted(es: seq<Entry>)
  {
    es == [] || ((forall e | e in Elems(es[1..]) :: es[0].expiration <= e.expiration) && Sorted(es[1..]))
  }

  /** Both views hold the same entries, keys are unique and the time view is ordered. */
  ghost predicate IndexOk(m: MultiIndex)
  {
    Distinct(m.bySeq) && Distinct(m.byTime) && Sorted(m.byTime) && Elems(m.bySeq) == Elems(m.byTime)
  }

  function WithoutKey(es: seq<Entry>, key: Key): (r: seq<Entry>)
  {
    if es == [] then [] else if es[0].key == key then WithoutKey(es[1..], key) else [es[0]] + WithoutKey(es[1..], key)
  }

  /** The entries still alive at `now`, in order. */
  function Alive(es: seq<Entry>, now: int): (r: seq<Entry>)
  {
    if es == [] then [] else if es[0].expiration <= now then Alive(es[1..], now) else [es[0]] + Alive(es[1..], now)
  }

  /** insert into the ordered index: after every entry that expires no later. */
  function InsertByTime(es: seq<Entry>, e: Entry): (r: seq<Entry>)
  {
    if es == [] || e.expiration < es[0].expiration then [e] + es else [es[0]] + InsertByTime(es[1..], e)
  }

  lemma {:induction false} WithoutKeyKeeps(es: seq<Entry>, key: Key)
    ensures Elems(WithoutKey(es, key)) == set e | e in Elems(es) && e.key != key
    ensures KeysOf(WithoutKey(es, key)) == KeysOf(es) - {key}
    ensures Distinct(es) ==> Distinct(WithoutKey(es, key))
    ensures Sorted(es) ==> Sorted(WithoutKey(es, key))
  {
    if es != [] {
      WithoutKeyKeeps(es[1..], key);
    }
  }

  lemma {:induction false} InsertByTimeKeeps(es: seq<Entry>, e: Entry)
    ensures Elems(InsertByTime(es, e)) == Elems(es) + {e}
    ensures KeysOf(InsertByTime(es, e)) == KeysOf(es) + {e.key}
    ensures Sorted(es) ==> Sorted(InsertByTime(es, e))
    ensures Distinct(es) && e.key !in KeysOf(es) ==> Distinct(InsertByTime(es, e))
  {
    if es != [] {
      InsertByTimeKeeps(es[1..], e);
    }
  }

  lemma {:induction false} AppendKeeps(es: seq<Entry>, e: Entry)
    ensures Elems(es + [e]) == Elems(es) + {e}
    ensures KeysOf(es + [e]) == KeysOf(es) + {e.key}
    ensures Distinct(es) && e.key !in KeysOf(es) ==> Distinct(es + [e])
  {
    if es != [] {
      AppendKeeps(es[1..], e);
      assert (es + [e])[1..] == es[1..] + [e];
    }
  }

  /** keyindex.erase(key) */
  function EraseKey(m: MultiIndex, key: Key): (r: MultiIndex)
  {
    MultiIndex(WithoutKey(m.bySeq, key), WithoutKey(m.byTime, key))
  }

  lemma EraseKeyKeeps(m: MultiIndex, key: Key)
    requires IndexOk(m)
    ensures IndexOk(EraseKey(m, key)) && KeysOf(EraseKey(m, key).bySeq) == KeysOf(m.bySeq) - {key}
  {
    WithoutKeyKeeps(m.bySeq, key);
    WithoutKeyKeeps(m.byTime, key);
  }

  /** _addEntry: a new entry replaces the one with its key and goes last in the sequence. */
  function AddTo(m: MultiIndex, e: Entry): (r: MultiIndex)
  {
    var c := EraseKey(m, e.key);
    MultiIndex(c.bySeq + [e], InsertByTime(c.byTime, e))
  }

  lemma AddToKeeps(m: MultiIndex, e: Entry)
    requires IndexOk(m)
    ensures IndexOk(AddTo(m, e)) && KeysOf(AddTo(m, e).bySeq) == KeysOf(m.bySeq) + {e.key}
  {
    WithoutKeyKeeps(m.bySeq, e.key);
    WithoutKeyKeeps(m.byTime, e.key);
    InsertByTimeKeeps(WithoutKey(m.byTime, e.key), e);
    AppendKeeps(WithoutKey(m.bySeq, e.key), e);
  }

  /** timeindex.erase(timeindex.begin()) */
  function EraseFront(m: MultiIndex): (r: MultiIndex)
    requires m.byTime != []
  {
    MultiIndex(WithoutKey(m.bySeq, m.byTime[0].key), m.byTime[1..])
  }

  lemma {:induction false} KeyDeterminesEntry(es: seq<Entry>, e: Entry, f: Entry)
    requires Distinct(es) && e in Elems(es) && f in Elems(es) && e.key == f.key
    ensures e == f
  {
    if e != es[0] && f != es[0] {
      KeyDeterminesEntry(es[1..], e, f);
    }
  }

  lemma EraseFrontKeeps(m: MultiIndex)
    requires IndexOk(m) && m.byTime != []
    ensures IndexOk(EraseFront(m)) && KeysOf(EraseFront(m).bySeq) == KeysOf(m.bySeq) - {m.byTime[0].key}
  {
    var e := m.byTime[0];
    WithoutKeyKeeps(m.bySeq, e.key);
    forall f | f in Elems(m.bySeq) && f.key == e.key
      ensures f == e
    {
      KeyDeterminesEntry(m.bySeq, e, f);
    }
  }

  /** Removing an expired entry does not change which entries are alive, nor their order. */
  lemma {:induction false} AliveWithout(es: seq<Entry>, e: Entry, now: int)
    requires Distinct(es) && e in Elems(es) && e.expiration <= now
    ensures Alive(WithoutKey(es, e.key), now) == Alive(es, now)
  {
    if es[0] == e {
      WithoutAbsent(es[1..], e.key);
    } else {
      AliveWithout(es[1..], e, now);
    }
  }

  lemma {:induction false} WithoutAbsent(es: seq<Entry>, key: Key)
    requires key !in KeysOf(es)
    ensures WithoutKey(es, key) == es
  {
    if es != [] {
      WithoutAbsent(es[1..], key);
    }
  }

  lemma {:induction false} AllAlive(es: seq<Entry>, now: int)
    requires forall e | e in Elems(es) :: e.expiration > now
    ensures Alive(es, now) == es
  {
    if es != [] {
      AllAlive(es[1..], now);
    }
  }

  // ---------------------------------------------------------------- matching

  predicate EntryMatches(e: Entry, ip: Address)
  {
    Matches(NetmaskOf(e.key), ip)
  }

  /** `r` is the entry of the list with the longest mask that matches. */
  ghost predicate Longest(s: set<Entry>, ip: Address, r: Option<Entry>)
  {
    match r
    case None => forall e | e in s :: !EntryMatches(e, ip)
    case Some(b) =>
      && b in s && EntryMatches(b, ip)
      && forall e | e in s && EntryMatches(e, ip) :: e.key.path.Depth() <= b.key.path.Depth()
  }

  /** Every mask in the tree is the positive mask its key denotes. */
  ghost predicate Positive(t: Table)
  {
    forall k | k in t :: k.path.Depth() <= Width(k.family) && t[k] == Stored(NetmaskOf(k), true)
  }

  /** keyindex.find(key) */
  function FindKey(es: seq<Entry>, key: Prefix): (r: Option<Entry>)
    ensures r.Some? ==> r.value in Elems(es) && r.value.key == key
    ensures r.None? ==> key !in KeysOf(es)
  {
    if es == [] then None else if es[0].key == key then Some(es[0]) else FindKey(es[1..], key)
  }

  /** What the tree finds is the key of the longest matching entry. */
  lemma ScanIsLongest(es: seq<Entry>, t: Table, ip: Address, found: Option<Stored>)
    requires t.Keys == KeysOf(es) && Positive(t) && ScanFinds(t, ip, 128, found)
    ensures match found
            case None => Longest(Elems(es), ip, None)
            case Some(f) => f.value && Longest(Elems(es), ip, FindKey(es, PrefixOf(f.key))) && FindKey(es, PrefixOf(f.key)).Some?
  {
    forall e | e in Elems(es)
      ensures e.key in t && (EntryMatches(e, ip) <==> Candidate(t[e.key], ip, 128)) && t[e.key].key.bits == e.key.path.Depth()
    {
    }
    if found.Some? {
      var k := PrefixOf(found.value.key);
      var r := FindKey(es, k);
      assert r.Some? && r.value.key == k;
    }
  }

  // ---------------------------------------------------------------- replication messages

  /** A blacklist replication operation; `ttl` travels as an unsigned 32-bit field. */
  datatype Message =
    | BLAdd(key: Key, ttl: nat, reason: string)
    | BLDelete(key: Key)

  function AddMessage(key: Key, seconds: int, reason: string): (m: Message)
  {
    BLAdd(key, seconds % TWO32, reason)
  }

  function AddSpec(es: seq<Entry>, e: Entry): (r: seq<Entry>)
  {
    WithoutKey(es, e.key) + [e]
  }

  /** What a received operation does to the list. */
  function ApplySpec(es: seq<Entry>, now: int, m: Message): (r: seq<Entry>)
  {
    match m
    case BLAdd(key, ttl, reason) => AddSpec(es, Entry(key, reason, now + ttl))
    case BLDelete(key) => WithoutKey(es, key)
  }

  /**
   Applying the replicated add has the effect of the local call exactly when the
   lifetime fits the message field.
   */
  lemma ReplicaAddAgrees(es: seq<Entry>, now: int, key: Key, seconds: int, reason: string)
    ensures ApplySpec(es, now, AddMessage(key, seconds, reason)) == AddSpec(es, Entry(key, reason, now + seconds))
            <==> 0 <= seconds < TWO32
  {
    var a := ApplySpec(es, now, AddMessage(key, seconds, reason));
    var b := AddSpec(es, Entry(key, reason, now + seconds));
    assert a[|a| - 1].expiration == now + seconds % TWO32;
    assert b[|b| - 1].expiration == now + seconds;
  }

  /** Applying the replicated delete has the effect of the local call. */
  lemma ReplicaDeleteAgrees(es: seq<Entry>, now: int, key: Key)
    ensures var r := ApplySpec(es, now, BLDelete(key));
            && r == WithoutKey(es, key) && key !in KeysOf(r)
            && forall e :: e in Elems(r) <==> e in Elems(es) && e.key != key
  {
    WithoutKeyKeeps(es, key);
  }

  // ---------------------------------------------------------------- on the memory

  /** The masks: a cleaning tree of positive masks. */
  ghost predicate MasksOk(masks: Store, g: Plan)
  {
    StoreOk(masks, g) && Dense(masks, g, Root) && Positive(TableIn(masks, g))
  }

  /** NetmaskGroup::addMask(key) */
  method AddMask(masks: Store, ghost g: Plan, key: Key) returns (masks': Store, ghost g': Plan)
    requires MasksOk(masks, g)
    ensures MasksOk(masks', g') && TableIn(masks', g').Keys == TableIn(masks, g).Keys + {key}
  {
    var m := NetmaskOf(key);
    ghost var t := TableIn(masks, g);
    masks', g' := InsertOrAssignIn(masks, g, m, true);
    MaskAdded(t, TableIn(masks', g'), key, m);
  }

  lemma MaskAdded(t: Table, t': Table, k: Key, m: Netmask)
    requires Positive(t) && m == NetmaskOf(k) && t' == t[PrefixOf(m) := Stored(m, true)]
    ensures Positive(t') && t'.Keys == t.Keys + {k}
  {
  }

  /** NetmaskGroup::deleteMask(key) */
  method DeleteMask(masks: Store, ghost g: Plan, key: Key) returns (masks': Store, ghost g': Plan)
    requires MasksOk(masks, g)
    ensures MasksOk(masks', g') && TableIn(masks', g').Keys == TableIn(masks, g).Keys - {key}
  {
    masks', g' := EraseIn(masks, g, NetmaskOf(key), true);
  }

  /** What every operation keeps: both views in order, and the prefixes of the masks are exactly the keys of the list. */
  ghost predicate StateOk(masks: Store, g: Plan, list: MultiIndex)
  {
    MasksOk(masks, g) && IndexOk(list) && TableIn(masks, g).Keys == KeysOf(list.bySeq)
  }

  method AddIn(masks: Store, ghost g: Plan, list: MultiIndex, e: Entry) returns (masks': Store, ghost g': Plan, list': MultiIndex)
    requires StateOk(masks, g, list)
    ensures StateOk(masks', g', list') && list'.bySeq == AddSpec(list.bySeq, e)
  {
    AddToKeeps(list, e);
    list' := AddTo(list, e);
    masks', g' := AddMask(masks, g, e.key);
  }

  method DeleteIn(masks: Store, ghost g: Plan, list: MultiIndex, key: Key) returns (masks': Store, ghost g': Plan, list': MultiIndex)
    requires StateOk(masks, g, list)
    ensures StateOk(masks', g', list') && list'.bySeq == WithoutKey(list.bySeq, key)
  {
    EraseKeyKeeps(list, key);
    list' := EraseKey(list, key);
    masks', g' := DeleteMask(masks, g, key);
  }

  /** One turn of the purge loop. */
  method PurgeFrontIn(masks: Store, ghost g: Plan, list: MultiIndex, now: int) returns (masks': Store, ghost g': Plan, list': MultiIndex)
    requires StateOk(masks, g, list) && list.byTime != [] && list.byTime[0].expiration <= now
    ensures StateOk(masks', g', list') && |list'.byTime| < |list.byTime|
    ensures Alive(list'.bySeq, now) == Alive(list.bySeq, now)
  {
    var e := list.byTime[0];
    EraseFrontKeeps(list);
    AliveWithout(list.bySeq, e, now);
    masks', g' := DeleteMask(masks, g, e.key);
    list' := EraseFront(list);
  }

  /** The purge loop walks the time view and stops at the first entry that is still alive. */
  method PurgeIn(masks: Store, ghost g: Plan, list: MultiIndex, now: int) returns (masks': Store, ghost g': Plan, list': MultiIndex)
    requires StateOk(masks, g, list)
    ensures StateOk(masks', g', list') && list'.bySeq == Alive(list.bySeq, now)
  {
    hide StateOk, Alive;
    masks', g', list' := masks, g, list;
    while list'.byTime != [] && list'.byTime[0].expiration <= now
      invariant StateOk(masks', g', list')
      invariant Alive(list'.bySeq, now) == Alive(list.bySeq, now)
      decreases |list'.byTime|
    {
      masks', g', list' := PurgeFrontIn(masks', g', list', now);
    }
    NoneExpired(masks', g', list', now);
  }

  lemma NoneExpired(masks: Store, g: Plan, list: MultiIndex, now: int)
    requires StateOk(masks, g, list) && (list.byTime == [] || list.byTime[0].expiration > now)
    ensures Alive(list.bySeq, now) == list.bySeq
  {
    hide MasksOk, TableIn;
    AllAlive(list.bySeq, now);
  }

  /** checkEntry: some entry's mask matches. */
  method CheckIn(masks: Store, ghost g: Plan, ghost list: MultiIndex, ip: Address) returns (r: bool)
    requires StateOk(masks, g, list)
    ensures r <==> exists e :: e in Elems(list.bySeq) && EntryMatches(e, ip)
  {
    var ret := LookupIn(masks, g, ip, 128);
    ScanIsLongest(list.bySeq, TableIn(masks, g), ip, if ret == NULL then None else Some(masks.pairs[ret]));
    r := ret != NULL && masks.pairs[ret].value;
  }

  /** getEntry: the netmask the tree finds is looked up by key in the list. */
  method GetIn(masks: Store, ghost g: Plan, list: MultiIndex, ip: Address) returns (r: Option<Entry>)
    requires StateOk(masks, g, list)
    ensures Longest(Elems(list.bySeq), ip, r)
  {
    var ret := LookupIn(masks, g, ip, 128);
    ScanIsLongest(list.bySeq, TableIn(masks, g), ip, if ret == NULL then None else Some(masks.pairs[ret]));
    // without a match the empty netmask is printed, which is no key of the list
    r := if ret == NULL then None else FindKey(list.bySeq, PrefixOf(masks.pairs[ret].key));
  }

  // ---------------------------------------------------------------- the database

  /** The fields of a database: the masks, the IP list and the operations handed to replicateOperation. */
  datatype Fields = Fields(masks: Store, ipList: MultiIndex, sent: seq<Message>)

  class BlackWhiteListDB {
    var db: Fields
    ghost var plan: Plan

    ghost predicate Valid()
      reads this
    {
      StateOk(db.masks, plan, db.ipList)
    }

    /** The entries in insertion order. */
    function Entries(): (es: seq<Entry>)
      reads this
    {
      db.ipList.bySeq
    }

    constructor ()
      ensures Valid() && Entries() == [] && db.sent == []
    {
      db, plan := Fields(Store(NULL, map[], map[], {}, 1), MultiIndex([], []), []), Plan(map[], map[], map[]);
    }

    method AddEntryInternal(now: int, key: Key, seconds: int, reason: string, replicate: bool)
      requires Valid()
      modifies this
      ensures Valid() && Entries() == AddSpec(old(Entries()), Entry(key, reason, now + seconds))
      ensures db.sent == old(db.sent) + if replicate then [AddMessage(key, seconds, reason)] else []
    {
      hide StateOk;
      var masks, list;
      ghost var g;
      masks, g, list := AddIn(db.masks, plan, db.ipList, Entry(key, reason, now + seconds));
      db, plan := Fields(masks, list, db.sent + if replicate then [AddMessage(key, seconds, reason)] else []), g;
    }

    method DeleteEntryInternal(key: Key, replicate: bool)
      requires Valid()
      modifies this
      ensures Valid() && Entries() == WithoutKey(old(Entries()), key)
      ensures db.sent == old(db.sent) + if replicate then [BLDelete(key)] else []
    {
      hide StateOk;
      var masks, list;
      ghost var g;
      masks, g, list := DeleteIn(db.masks, plan, db.ipList, key);
      db, plan := Fields(masks, list, db.sent + if replicate then [BLDelete(key)] else []), g;
    }

    /** addEntry(Netmask): the key is that of the masked network. */
    method AddEntry(now: int, m: Netmask, seconds: int, reason: string)
      requires Valid()
      modifies this
      ensures Valid() && Entries() == AddSpec(old(Entries()), Entry(PrefixOf(m), reason, now + seconds))
      ensures db.sent == old(db.sent) + [AddMessage(PrefixOf(m), seconds, reason)]
    {
      hide StateOk;
      var key: Key := PrintNetwork(m);
      AddEntryInternal(now, key, seconds, reason, true);
    }

    method DeleteEntry(m: Netmask)
      requires Valid()
      modifies this
      ensures Valid() && Entries() == WithoutKey(old(Entries()), PrefixOf(m))
      ensures db.sent == old(db.sent) + [BLDelete(PrefixOf(m))]
    {
      hide StateOk;
      var key: Key := PrintNetwork(m);
      DeleteEntryInternal(key, true);
    }

    /** BLReplicationOperation::applyOperation: the local effect, and nothing is sent on. */
    method ApplyOperation(now: int, m: Message)
      requires Valid()
      modifies this
      ensures Valid() && Entries() == ApplySpec(old(Entries()), now, m) && db.sent == old(db.sent)
      ensures m.BLDelete? ==> Entries() == WithoutKey(old(Entries()), m.key)
    {
      hide StateOk;
      match m {
        case BLAdd(key, ttl, reason) => AddEntryInternal(now, key, ttl, reason, false);
        case BLDelete(key) => DeleteEntryInternal(key, false);
      }
    }

    /** _purgeEntries removes exactly the expired entries and keeps the order of the others. */
    method PurgeEntries(now: int)
      requires Valid()
      modifies this
      ensures Valid() && Entries() == Alive(old(Entries()), now) && db.sent == old(db.sent)
    {
      hide StateOk;
      var masks, list;
      ghost var g;
      masks, g, list := PurgeIn(db.masks, plan, db.ipList, now);
      db, plan := Fields(masks, list, db.sent), g;
    }

    method CheckEntry(ip: Address) returns (r: bool)
      requires Valid()
      ensures r <==> exists e :: e in Elems(Entries()) && EntryMatches(e, ip)
    {
      r := CheckIn(db.masks, plan, db.ipList, ip);
    }

    method GetEntry(ip: Address) returns (r: Option<Entry>)
      requires Valid()
      ensures Longest(Elems(Entries()), ip, r)
    {
      r := GetIn(db.masks, plan, db.ipList, ip);
    }
  }

  /** toStringNetwork: the key of the network that is printed, which has the prefix of the netmask itself. */
  method PrintNetwork(m: Netmask) returns (k: Key)
    ensures k == PrefixOf(m)
  {
    var network := BuildNetwork(m);
    assert network.bits[..m.bits] == m.network.bits[..m.bits];
    WalkEqual(network.bits, m.network.bits, m.bits);
    k := Prefix(network.family, Walk(network.bits, m.bits));
  }

  /** checkEntry holds exactly when getEntry succeeds, and getEntry has one possible answer. */
  lemma CheckAgreesWithGet(es: seq<Entry>, ip: Address, r: Option<Entry>, s: Option<Entry>)
    requires Distinct(es) && Longest(Elems(es), ip, r) && Longest(Elems(es), ip, s)
    ensures r == s
    ensures r.Some? <==> exists e :: e in Elems(es) && EntryMatches(e, ip)
  {
    if r.Some? && s.Some? {
      MatchIsPrefix(NetmaskOf(r.value.key), ip);
      MatchIsPrefix(NetmaskOf(s.value.key), ip);
      KeyDeterminesEntry(es, r.value, s.value);
    }
  }

  // ---------------------------------------------------------------- runs

  datatype Op =
    | Add(m: Netmask, seconds: int, reason: string)
    | Delete(m: Netmask)
    | Receive(msg: Message)
    | Purge
    | Get(ip: Address)

  function Step(es: seq<Entry>, now: int, op: Op): (r: seq<Entry>)
  {
    match op
    case Add(m, seconds, reason) => AddSpec(es, Entry(PrefixOf(m), reason, now + seconds))
    case Delete(m) => WithoutKey(es, PrefixOf(m))
    case Receive(msg) => ApplySpec(es, now, msg)
    case Purge => Alive(es, now)
    case Get(_) => es
  }

  /** The list after a run, each operation with the time it happens at. */
  function EntriesAfter(ops: seq<(int, Op)>): (es: seq<Entry>)
  {
    if ops == [] then [] else Step(EntriesAfter(ops[..|ops| - 1]), ops[|ops| - 1].0, ops[|ops| - 1].1)
  }

  /** The answers a run gives: check and get for every query, over the list as it then is. */
  ghost predicate AnswerOk(es: seq<Entry>, op: Op, checked: bool, got: Option<Entry>)
  {
    op.Get? ==> (checked <==> got.Some?) && Longest(Elems(es), op.ip, got)
  }

  method Apply(db: BlackWhiteListDB, now: int, op: Op) returns (checked: bool, got: Option<Entry>)
    requires db.Valid()
    modifies db
    ensures db.Valid() && db.Entries() == Step(old(db.Entries()), now, op)
    ensures AnswerOk(old(db.Entries()), op, checked, got)
  {
    hide StateOk;
    checked, got := false, None;
    match op {
      case Add(m, seconds, reason) => db.AddEntry(now, m, seconds, reason);
      case Delete(m) => db.DeleteEntry(m);
      case Receive(msg) => db.ApplyOperation(now, msg);
      case Purge => db.PurgeEntries(now);
      case Get(ip) =>
        checked := db.CheckEntry(ip);
        got := db.GetEntry(ip);
    }
  }

  /** Any run on a new database: masks and list stay coherent, so every query sees the list. */
  method Run(ops: seq<(int, Op)>) returns (es: seq<Entry>, checks: seq<bool>, gots: seq<Option<Entry>>)
    ensures es == EntriesAfter(ops) && |checks| == |gots| == |ops|
    ensures forall i | 0 <= i < |ops| :: AnswerOk(EntriesAfter(ops[..i]), ops[i].1, checks[i], gots[i])
  {
    hide StateOk, AnswerOk, Step;
    var db := new BlackWhiteListDB();
    checks, gots := [], [];
    for n := 0 to |ops|
      invariant db.Valid() && fresh(db) && db.Entries() == EntriesAfter(ops[..n])
      invariant |checks| == |gots| == n
      invariant forall i | 0 <= i < n :: AnswerOk(EntriesAfter(ops[..i]), ops[i].1, checks[i], gots[i])
    {
      var checked, got := Apply(db, ops[n].0, ops[n].1);
      assert AnswerOk(EntriesAfter(ops[..n]), ops[n].1, checked, got);
      checks, gots := checks + [checked], gots + [got];
      assert ops[..n + 1][..n] == ops[..n];
    }
    assert ops[..|ops|] == ops;
    es := db.Entries();
  }
}
