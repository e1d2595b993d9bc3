/**
 The per-bit binary tree that stores IPv4 and IPv6 prefixes (NetmaskTree<bool>).

 The memory the tree owns is explicit: `mem` holds the live tree nodes and
 `pairs` the live value pairs, both by address, and nodes point at each other
 downwards (`left`/`right`) and upwards (`parent`).  Freeing a node removes it
 from `mem`, so a dangling pointer or a leak would be visible.  Ghost maps
 describe the shape: `at` gives the address reached by each path of bits,
 `where` is its inverse, and `filed` gives the pair stored for each prefix.
 */
module NetmaskTrees {
  import opened Basics
  import opened Words
  import opened Addresses

  // ---------------------------------------------------------------- prefixes

  /** A path of turns from the root; the last turn is outermost. */
  datatype Path = Root | Turn(up: Path, bit: bool)
  {
    function Depth(): (d: nat)
    {
      if Root? then 0 else up.Depth() + 1
    }
  }

  /** The first `n` turns taken for a word. */
  function Walk(w: Word, n: nat): (p: Path)
    requires n <= |w|
    ensures p.Depth() == n
  {
    if n == 0 then Root else Turn(Walk(w, n - 1), w[n - 1])
  }

  /** What a netmask stands for: a family and the leading bits of its network. */
  datatype Prefix = Prefix(family: Family, path: Path)

  function PrefixOf(m: Netmask): (p: Prefix)
  {
    Prefix(m.network.family, Walk(m.network.bits, m.bits))
  }

  lemma {:induction false} WalkEqual(x: Word, y: Word, n: nat)
    requires n <= |x| && n <= |y|
    ensures Walk(x, n) == Walk(y, n) <==> x[..n] == y[..n]
  {
    if n > 0 {
      WalkEqual(x, y, n - 1);
      assert x[..n] == x[..n - 1] + [x[n - 1]];
      assert y[..n] == y[..n - 1] + [y[n - 1]];
    }
  }

  predicate PrefixMatches(p: Prefix, ip: Address)
  {
    p.family == ip.family && p.path.Depth() <= |ip.bits| && p.path == Walk(ip.bits, p.path.Depth())
  }

  /** A netmask matches an address exactly when its prefix leads the address. */
  lemma MatchIsPrefix(m: Netmask, ip: Address)
    ensures Matches(m, ip) <==> PrefixMatches(PrefixOf(m), ip)
  {
    if m.network.family == ip.family {
      WalkEqual(m.network.bits, ip.bits, m.bits);
    }
  }

  /** What a stored prefix holds: the netmask last inserted there and its value. */
  datatype Stored = Stored(key: Netmask, value: bool)

  /** The finite map of prefixes that a tree represents. */
  type Table = map<Prefix, Stored>

  // ---------------------------------------------------------------- linear scan

  function Clamp(f: Family, maxBits: int): (m: nat)
    ensures m <= Width(f)
  {
    if maxBits < 0 then 0 else if maxBits > Width(f) then Width(f) else maxBits
  }

  /** A stored entry a lookup may return: one that matches and is no longer than `max_bits`; a length of zero always is. */
  predicate Candidate(s: Stored, ip: Address, maxBits: int)
  {
    Matches(s.key, ip) && (s.key.bits <= maxBits || s.key.bits == 0)
  }

  /** What a linear scan over the stored entries with Netmask::match finds: the longest candidate. */
  ghost predicate ScanFinds(t: Table, ip: Address, maxBits: int, r: Option<Stored>)
  {
    match r
    case None => forall k | k in t :: !Candidate(t[k], ip, maxBits)
    case Some(s) =>
      && PrefixOf(s.key) in t && t[PrefixOf(s.key)] == s && Candidate(s, ip, maxBits)
      && forall k | k in t && Candidate(t[k], ip, maxBits) :: t[k].key.bits <= s.key.bits
  }

  /** The same search on prefixes, for prefixes shallower than `bound`. */
  ghost predicate IsDeepest(keys: set<Prefix>, ip: Address, bound: nat, r: Option<Prefix>)
  {
    match r
    case None => forall p | p in keys :: !(PrefixMatches(p, ip) && p.path.Depth() < bound)
    case Some(b) =>
      && b in keys && PrefixMatches(b, ip) && b.path.Depth() < bound
      && forall p | p in keys && PrefixMatches(p, ip) && p.path.Depth() < bound :: p.path.Depth() <= b.path.Depth()
  }

  ghost predicate TableOk(t: Table)
  {
    forall k | k in t :: PrefixOf(t[k].key) == k
  }

  lemma DeepestIsScan(t: Table, ip: Address, maxBits: int, r: Option<Prefix>)
    requires TableOk(t) && IsDeepest(t.Keys, ip, Clamp(ip.family, maxBits) + 1, r)
    ensures r.Some? ==> r.value in t
    ensures ScanFinds(t, ip, maxBits, if r.Some? then Some(t[r.value]) else None)
  {
    forall k | k in t
      ensures Candidate(t[k], ip, maxBits) <==> PrefixMatches(k, ip) && k.path.Depth() <= Clamp(ip.family, maxBits)
      ensures k.path.Depth() == t[k].key.bits
    {
      MatchIsPrefix(t[k].key, ip);
    }
  }

  /** The scan has one answer, so any two trees with the same table answer alike. */
  lemma ScanIsUnique(t: Table, ip: Address, maxBits: int, r: Option<Stored>, s: Option<Stored>)
    requires TableOk(t) && ScanFinds(t, ip, maxBits, r) && ScanFinds(t, ip, maxBits, s)
    ensures r == s
  {
    if r.Some? && s.Some? {
      MatchIsPrefix(r.value.key, ip);
      MatchIsPrefix(s.value.key, ip);
      assert PrefixOf(r.value.key) == PrefixOf(s.value.key);
    }
  }

  /** insert: the netmask is (re)assigned, an existing value is kept and a new one is false. */
  function InsertSpec(t: Table, key: Netmask): (r: Table)
  {
    t[PrefixOf(key) := Stored(key, PrefixOf(key) in t && t[PrefixOf(key)].value)]
  }

  /** It changes one entry: its netmask becomes the key, its value stays what it was, or false. */
  lemma InsertIs(t: Table, key: Netmask, k: Prefix)
    ensures k == PrefixOf(key) ==> k in InsertSpec(t, key) && InsertSpec(t, key)[k].key == key
    ensures k == PrefixOf(key) ==> (InsertSpec(t, key)[k].value <==> k in t && t[k].value)
    ensures k != PrefixOf(key) ==> (k in InsertSpec(t, key) <==> k in t) && (k in t ==> InsertSpec(t, key)[k] == t[k])
  {
  }

  // ---------------------------------------------------------------- memory

  /** An address; 0 is the null pointer. */
  type Ptr = nat

  const NULL: Ptr := 0

  datatype Node = Node(left: Ptr, right: Ptr, parent: Ptr, node4: Ptr, node6: Ptr, depth: nat)
  {
    function Child(b: bool): (n: Ptr)
    {
      if b then right else left
    }

    function WithChild(b: bool, n: Ptr): (l: Node)
      ensures l.Child(b) == n && l.Child(!b) == Child(!b)
    {
      if b then this.(right := n) else this.(left := n)
    }

    function Value(f: Family): (v: Ptr)
    {
      if f.V4? then node4 else node6
    }

    function WithValue(f: Family, v: Ptr): (l: Node)
      ensures l.Value(f) == v && (forall g | g != f :: l.Value(g) == Value(g))
    {
      if f.V4? then this.(node4 := v) else this.(node6 := v)
    }

    predicate Bare()
    {
      !(left != NULL || right != NULL || node6 != NULL || node4 != NULL)
    }
  }

  type Memory = map<Ptr, Node>
  type Places = map<Path, Ptr>
  type Filing = map<Prefix, Ptr>

  function Look<K(==)>(m: map<K, Ptr>, k: K): (p: Ptr)
  {
    if k in m then m[k] else NULL
  }

  // ---------------------------------------------------------------- shape

  /** Everything one node promises: its links are mutual and its pairs are the filed ones. */
  ghost predicate NodeOk(mem: Memory, at: Places, filed: Filing, p: Path)
    requires p in at
  {
    && at[p] != NULL && at[p] in mem && p.Depth() <= 128
    && (p.Turn? ==> p.up in at)
    && mem[at[p]] == Node(Look(at, Turn(p, false)), Look(at, Turn(p, true)),
                          if p.Turn? then Look(at, p.up) else NULL,
                          Look(filed, Prefix(V4, p)), Look(filed, Prefix(V6, p)), p.Depth())
  }

  /** Each live node is reached by exactly one path, and each path reaches a live node. */
  ghost predicate Inverse(mem: Memory, at: Places, where: map<Ptr, Path>)
  {
    && (forall p | p in at :: at[p] in mem && at[p] in where && where[at[p]] == p)
    && (forall x | x in mem :: x in where && where[x] in at && at[where[x]] == x)
  }

  /** The nodes in memory are exactly those reached from the root, and their links are mutual. */
  ghost predicate Shape(root: Ptr, mem: Memory, at: Places, where: map<Ptr, Path>, filed: Filing)
  {
    && root == Look(at, Root)
    && (forall p {:trigger NodeOk(mem, at, filed, p)} | p in at :: NodeOk(mem, at, filed, p))
    && Inverse(mem, at, where)
    && (forall k | k in filed :: k.path in at && filed[k] != NULL)
  }

  /** `nodes` is exactly the set of live pairs, and each is filed under the prefix of its key. */
  ghost predicate Recorded(filed: Filing, pairs: map<Ptr, Stored>, nodes: set<Ptr>)
  {
    && nodes == pairs.Keys
    && (forall k | k in filed :: filed[k] in pairs && PrefixOf(pairs[filed[k]].key) == k)
    && (forall x | x in pairs :: Look(filed, PrefixOf(pairs[x].key)) == x && x != NULL)
  }

  /** The finite map of prefixes that the memory represents. */
  ghost function TableOf(filed: Filing, pairs: map<Ptr, Stored>): (t: Table)
    requires forall k | k in filed :: filed[k] in pairs
  {
    map k | k in filed :: pairs[filed[k]]
  }

  /** No childless node below the root is empty, except possibly the one at `hole`. */
  ghost predicate NoDeadLeaf(mem: Memory, at: Places, hole: Path)
    requires forall p | p in at :: at[p] in mem
  {
    forall p | p in at && p != Root && p != hole :: !mem[at[p]].Bare()
  }

  function Attached(mem: Memory, n: Ptr, b: bool, child: Ptr): (m: Memory)
    requires n in mem
  {
    mem[n := mem[n].WithChild(b, child)][child := Node(NULL, NULL, n, NULL, NULL, mem[n].depth + 1)]
  }

  lemma AttachNode(mem: Memory, at: Places, filed: Filing, p: Path, b: bool, child: Ptr, r: Path)
    requires p in at && Turn(p, b) !in at && p.Depth() < 128 && NodeOk(mem, at, filed, p)
    requires child != NULL && child !in mem
    requires r in at[Turn(p, b) := child]
    requires r != Turn(p, b) ==> NodeOk(mem, at, filed, r) && (r != p ==> at[r] != at[p])
    requires r == Turn(p, b) ==> (forall c :: Turn(r, c) !in at) && (forall f :: Prefix(f, r) !in filed)
    ensures NodeOk(Attached(mem, at[p], b, child), at[Turn(p, b) := child], filed, r)
  {
    assert Turn(p, b).Depth() == p.Depth() + 1;
  }

  lemma AttachInverse(mem: Memory, at: Places, where: map<Ptr, Path>, p: Path, b: bool, child: Ptr)
    requires Inverse(mem, at, where) && p in at && Turn(p, b) !in at && child !in mem
    ensures Inverse(Attached(mem, at[p], b, child), at[Turn(p, b) := child], where[child := Turn(p, b)])
  {
  }

  /** Linking a fresh, bare leaf below `p` keeps the shape. */
  lemma AttachKeepsShape(root: Ptr, mem: Memory, at: Places, where: map<Ptr, Path>, filed: Filing,
                         p: Path, b: bool, child: Ptr)
    requires Shape(root, mem, at, where, filed) && p in at && at[p] in mem
    requires Turn(p, b) !in at && p.Depth() < 128 && child != NULL && child !in mem
    ensures Shape(root, Attached(mem, at[p], b, child), at[Turn(p, b) := child], where[child := Turn(p, b)], filed)
  {
    var q := Turn(p, b);
    AttachInverse(mem, at, where, p, b, child);
    forall c
      ensures Turn(q, c) !in at
    {
      assert Turn(q, c) in at ==> NodeOk(mem, at, filed, Turn(q, c));
    }
    assert NodeOk(mem, at, filed, p);
    var at' := at[q := child];
    forall r | r in at'
      ensures NodeOk(Attached(mem, at[p], b, child), at', filed, r)
    {
      assert r in at ==> NodeOk(mem, at, filed, r);
      AttachNode(mem, at, filed, p, b, child, r);
    }
  }

  function Detached(mem: Memory, n: Ptr, b: bool, child: Ptr): (m: Memory)
    requires n in mem
  {
    mem[n := mem[n].WithChild(b, NULL)] - {child}
  }

  lemma DetachNode(mem: Memory, at: Places, filed: Filing, p: Path, b: bool, r: Path)
    requires p in at && Turn(p, b) in at && NodeOk(mem, at, filed, p) && NodeOk(mem, at, filed, Turn(p, b))
    requires mem[at[Turn(p, b)]].Bare() && at[p] != at[Turn(p, b)]
    requires r in at && r != Turn(p, b) && NodeOk(mem, at, filed, r) && at[r] != at[Turn(p, b)]
    requires r != p ==> at[r] != at[p]
    requires r.Turn? ==> r.up != Turn(p, b)
    ensures NodeOk(Detached(mem, at[p], b, at[Turn(p, b)]), at - {Turn(p, b)}, filed, r)
  {
  }

  lemma DetachInverse(mem: Memory, at: Places, where: map<Ptr, Path>, p: Path, q: Path, b: bool)
    requires Inverse(mem, at, where) && p in at && q in at && p != q
    ensures Inverse(Detached(mem, at[p], b, at[q]), at - {q}, where - {at[q]})
  {
  }

  lemma BareIsUnfiled(mem: Memory, at: Places, filed: Filing, q: Path, k: Prefix)
    requires q in at && NodeOk(mem, at, filed, q) && mem[at[q]].Bare() && k in filed && filed[k] != NULL
    ensures k.path != q
  {
    match k.family
    case V4 => assert Look(filed, Prefix(V4, q)) == NULL;
    case V6 => assert Look(filed, Prefix(V6, q)) == NULL;
  }

  /** Freeing a bare leaf below `p` keeps the shape. */
  lemma DetachKeepsShape(root: Ptr, mem: Memory, at: Places, where: map<Ptr, Path>, filed: Filing, p: Path, b: bool)
    requires Shape(root, mem, at, where, filed) && p in at && at[p] in mem
    requires Turn(p, b) in at && at[Turn(p, b)] in mem && mem[at[Turn(p, b)]].Bare()
    ensures Shape(root, Detached(mem, at[p], b, at[Turn(p, b)]), at - {Turn(p, b)}, where - {at[Turn(p, b)]}, filed)
  {
    var q := Turn(p, b);
    assert NodeOk(mem, at, filed, q) && NodeOk(mem, at, filed, p);
    assert p != q by { assert p.Depth() < q.Depth(); }
    DetachInverse(mem, at, where, p, q, b);
    forall r | r in at && r != q
      ensures NodeOk(Detached(mem, at[p], b, at[q]), at - {q}, filed, r)
    {
      assert NodeOk(mem, at, filed, r);
      DetachNode(mem, at, filed, p, b, r);
    }
    forall k | k in filed
      ensures k.path != q
    {
      BareIsUnfiled(mem, at, filed, q, k);
    }
  }

  lemma StoreNode(mem: Memory, at: Places, filed: Filing, k: Prefix, v: Ptr, filed': Filing, r: Path)
    requires k.path in at && NodeOk(mem, at, filed, k.path)
    requires r in at && NodeOk(mem, at, filed, r) && (r != k.path ==> at[r] != at[k.path])
    requires filed' == if v == NULL then filed - {k} else filed[k := v]
    ensures NodeOk(mem[at[k.path] := mem[at[k.path]].WithValue(k.family, v)], at, filed', r)
  {
  }

  lemma StoreInverse(mem: Memory, at: Places, where: map<Ptr, Path>, n: Ptr, node: Node)
    requires Inverse(mem, at, where) && n in mem
    ensures Inverse(mem[n := node], at, where)
  {
  }

  /** Storing or clearing (`v` null) the pair of one prefix keeps the shape. */
  lemma StoreKeepsShape(root: Ptr, mem: Memory, at: Places, where: map<Ptr, Path>, filed: Filing, k: Prefix, v: Ptr, filed': Filing)
    requires Shape(root, mem, at, where, filed) && k.path in at && at[k.path] in mem
    requires filed' == if v == NULL then filed - {k} else filed[k := v]
    ensures Shape(root, mem[at[k.path] := mem[at[k.path]].WithValue(k.family, v)], at, where, filed')
  {
    assert NodeOk(mem, at, filed, k.path);
    StoreInverse(mem, at, where, at[k.path], mem[at[k.path]].WithValue(k.family, v));
    forall r | r in at
      ensures NodeOk(mem[at[k.path] := mem[at[k.path]].WithValue(k.family, v)], at, filed', r)
    {
      assert NodeOk(mem, at, filed, r);
      StoreNode(mem, at, filed, k, v, filed', r);
    }
  }

  lemma {:induction false} AncestorsPresent(mem: Memory, at: Places, filed: Filing, w: Word, i: nat, n: nat)
    requires forall p {:trigger NodeOk(mem, at, filed, p)} | p in at :: NodeOk(mem, at, filed, p)
    requires i <= n <= |w| && Walk(w, n) in at
    ensures Walk(w, i) in at
    decreases n
  {
    if i < n {
      assert NodeOk(mem, at, filed, Walk(w, n));
      AncestorsPresent(mem, at, filed, w, i, n - 1);
    }
  }

  /** Moving one turn down moves the hole with it. */
  lemma HoleMovesDown(mem: Memory, at: Places, filed: Filing, p: Path, b: bool)
    requires forall r | r in at :: at[r] in mem
    requires NoDeadLeaf(mem, at, p) && p in at && NodeOk(mem, at, filed, p)
    requires Turn(p, b) in at && at[Turn(p, b)] != NULL
    ensures NoDeadLeaf(mem, at, Turn(p, b))
  {
    assert mem[at[p]].Child(b) == at[Turn(p, b)];
    assert !mem[at[p]].Bare();
  }

  lemma HoleMovesToNew(mem: Memory, at: Places, p: Path, b: bool, child: Ptr)
    requires forall r | r in at :: at[r] in mem
    requires NoDeadLeaf(mem, at, p) && p in at && child != NULL && child !in mem
    requires forall r | r in at && r != p :: at[r] != at[p]
    ensures NoDeadLeaf(Attached(mem, at[p], b, child), at[Turn(p, b) := child], Turn(p, b))
  {
    var m := Attached(mem, at[p], b, child);
    assert m[at[p]].Child(b) == child;
    assert !m[at[p]].Bare();
  }

  /** Giving a node a pair closes the hole. */
  lemma ValueFillsHole(mem: Memory, at: Places, k: Prefix, v: Ptr)
    requires forall r | r in at :: at[r] in mem
    requires NoDeadLeaf(mem, at, k.path) && k.path in at && v != NULL
    ensures NoDeadLeaf(mem[at[k.path] := mem[at[k.path]].WithValue(k.family, v)], at, Root)
  {
    var m := mem[at[k.path] := mem[at[k.path]].WithValue(k.family, v)];
    assert m[at[k.path]].Value(k.family) == v;
    assert !m[at[k.path]].Bare();
  }

  /** Freeing a bare leaf moves the hole up to its parent. */
  lemma HoleMovesUp(mem: Memory, at: Places, p: Path, b: bool)
    requires forall r | r in at :: at[r] in mem
    requires NoDeadLeaf(mem, at, Turn(p, b)) && p in at && Turn(p, b) in at
    requires forall r, r' | r in at && r' in at && r != r' :: at[r] != at[r']
    ensures forall r | r in at - {Turn(p, b)} :: at[r] in Detached(mem, at[p], b, at[Turn(p, b)])
    ensures NoDeadLeaf(Detached(mem, at[p], b, at[Turn(p, b)]), at - {Turn(p, b)}, p)
  {
  }

  // ---------------------------------------------------------------- the tree

  /** The bit that decides the turn at depth `i`, taken from the words the code loads. */
  function TurnBit(a: Address, i: nat): (b: bool)
    requires i < Width(a.family)
    ensures b == a.bits[i]
  {
    if a.family.V4? then BitsetGet(a.bits, 31 - i)
    else if i < 64 then BitsetGet(a.bits[..64], 63 - i)
    else BitsetGet(a.bits[64..], 127 - i)
  }

  /** Everything a tree owns: the root pointer, live nodes, live pairs, the set of pairs, and the first unused address. */
  datatype Store = Store(root: Ptr, mem: Memory, pairs: map<Ptr, Stored>, nodes: set<Ptr>, brk: Ptr)

  /** The ghost description of a store. */
  datatype Plan = Plan(at: Places, where: map<Ptr, Path>, filed: Filing)

  ghost predicate StoreOk(s: Store, g: Plan)
  {
    && Shape(s.root, s.mem, g.at, g.where, g.filed)
    && Recorded(g.filed, s.pairs, s.nodes)
    && s.brk != NULL
    && (forall x | x in s.mem :: x < s.brk)
    && (forall x | x in s.pairs :: x < s.brk)
  }

  ghost function TableIn(s: Store, g: Plan): (t: Table)
    requires StoreOk(s, g)
    ensures TableOk(t) && t.Keys == g.filed.Keys
  {
    TableOf(g.filed, s.pairs)
  }

  lemma LinksOk(s: Store, g: Plan)
    requires StoreOk(s, g)
    ensures forall p | p in g.at :: g.at[p] in s.mem && g.at[p] != NULL
    ensures forall p, q | p in g.at && q in g.at && p != q :: g.at[p] != g.at[q]
  {
    forall p | p in g.at
      ensures g.at[p] in s.mem && g.at[p] != NULL
    {
      assert NodeOk(s.mem, g.at, g.filed, p);
    }
  }

  /** Every childless node below the root holds a value, except possibly the one at `hole`. */
  ghost predicate Dense(s: Store, g: Plan, hole: Path)
    requires StoreOk(s, g)
  {
    LinksOk(s, g);
    NoDeadLeaf(s.mem, g.at, hole)
  }

  /** make_left / make_right: reuse the child if there is one, otherwise link a fresh node. */
  method MakeChild(s: Store, ghost g: Plan, n: Ptr, ghost p: Path, b: bool)
    returns (s': Store, ghost g': Plan, child: Ptr)
    requires StoreOk(s, g) && p in g.at && g.at[p] == n && p.Depth() < 128
    ensures StoreOk(s', g') && s'.pairs == s.pairs && s'.nodes == s.nodes && g'.filed == g.filed
    ensures Turn(p, b) in g'.at && g'.at[Turn(p, b)] == child
    ensures Dense(s, g, p) ==> Dense(s', g', Turn(p, b))
  {
    LinksOk(s, g);
    assert NodeOk(s.mem, g.at, g.filed, p);
    s', g', child := s, g, s.mem[n].Child(b);
    if child == NULL {
      child := s.brk;
      AttachKeepsShape(s.root, s.mem, g.at, g.where, g.filed, p, b, child);
      s' := s.(mem := Attached(s.mem, n, b, child), brk := s.brk + 1);
      g' := g.(at := g.at[Turn(p, b) := child], where := g.where[child := Turn(p, b)]);
      if Dense(s, g, p) { HoleMovesToNew(s.mem, g.at, p, b, child); }
    } else if Dense(s, g, p) {
      HoleMovesDown(s.mem, g.at, g.filed, p, b);
    }
  }

  /** Filing a pair, new or already filed under `k`, keeps the records and changes one entry of the table. */
  lemma StoreKeepsRecord(filed: Filing, pairs: map<Ptr, Stored>, nodes: set<Ptr>, k: Prefix, v: Ptr, e: Stored)
    requires Recorded(filed, pairs, nodes) && PrefixOf(e.key) == k && v != NULL
    requires if k in filed then v == filed[k] else v !in pairs
    ensures Recorded(filed[k := v], pairs[v := e], nodes + {v})
    ensures TableOf(filed[k := v], pairs[v := e]) == TableOf(filed, pairs)[k := e]
  {
    hide PrefixOf;
  }

  /** Unfiling a pair removes one entry of the table. */
  lemma ClearKeepsRecord(filed: Filing, pairs: map<Ptr, Stored>, nodes: set<Ptr>, k: Prefix)
    requires Recorded(filed, pairs, nodes) && k in filed
    ensures Recorded(filed - {k}, pairs - {filed[k]}, nodes - {filed[k]})
    ensures TableOf(filed - {k}, pairs - {filed[k]}) == TableOf(filed, pairs) - {k}
  {
    hide PrefixOf;
  }

  /** Node `n` holds the pair `v` for family `f`, and that pair is `e`. */
  function Filled(s: Store, n: Ptr, f: Family, v: Ptr, e: Stored): (r: Store)
    requires n in s.mem
  {
    s.(mem := s.mem[n := s.mem[n].WithValue(f, v)], pairs := s.pairs[v := e], nodes := s.nodes + {v},
       brk := if v < s.brk then s.brk else v + 1)
  }

  lemma FillKeepsValid(s: Store, g: Plan, k: Prefix, v: Ptr, e: Stored)
    requires StoreOk(s, g) && k.path in g.at && PrefixOf(e.key) == k
    requires if k in g.filed then v == g.filed[k] else v == s.brk
    ensures g.at[k.path] in s.mem
    ensures var s', g' := Filled(s, g.at[k.path], k.family, v, e), g.(filed := g.filed[k := v]);
            && StoreOk(s', g') && TableIn(s', g') == TableIn(s, g)[k := e]
            && (Dense(s, g, k.path) ==> Dense(s', g', Root))
  {
    hide PrefixOf, Shape, Recorded;
    LinksOk(s, g);
    NodeSays(s, g, k.path, k.family, true);
    StoreKeepsShape(s.root, s.mem, g.at, g.where, g.filed, k, v, g.filed[k := v]);
    StoreKeepsRecord(g.filed, s.pairs, s.nodes, k, v, e);
    if Dense(s, g, k.path) { ValueFillsHole(s.mem, g.at, k, v); }
  }

  /** The end of insert: the node's pair for the key's family, created if missing, takes the key. */
  method Occupy(s: Store, ghost g: Plan, n: Ptr, key: Netmask) returns (s': Store, ghost g': Plan, value: Ptr)
    requires StoreOk(s, g) && PrefixOf(key).path in g.at && g.at[PrefixOf(key).path] == n
    ensures StoreOk(s', g') && TableIn(s', g') == InsertSpec(TableIn(s, g), key)
    ensures PrefixOf(key) in g'.filed && g'.filed[PrefixOf(key)] == value
    ensures Dense(s, g, PrefixOf(key).path) ==> Dense(s', g', Root)
  {
    ghost var k := PrefixOf(key);
    assert NodeOk(s.mem, g.at, g.filed, k.path);
    var f := key.network.family;
    value := s.mem[n].Value(f);
    assert value == Look(g.filed, k);
    if value == NULL {
      value := s.brk;
      s' := s.(mem := s.mem[n := s.mem[n].WithValue(f, value)],
               pairs := s.pairs[value := Stored(key, false)],
               nodes := s.nodes + {value},
               brk := s.brk + 1);
    } else {
      s' := s.(pairs := s.pairs[value := Stored(key, s.pairs[value].value)]);
      assert s.mem[n := s.mem[n].WithValue(f, value)] == s.mem;
      assert s.nodes + {value} == s.nodes;
    }
    assert s' == Filled(s, n, f, value, s'.pairs[value]);
    g' := g.(filed := g.filed[k := value]);
    FillKeepsValid(s, g, k, value, s'.pairs[value]);
  }

  /** A node that is missing hides everything below it. */
  lemma NothingBelow(s: Store, g: Plan, ip: Address, i: nat, r: Option<Prefix>, bound: nat)
    requires StoreOk(s, g) && i < |ip.bits| && Walk(ip.bits, i + 1) !in g.at
    requires IsDeepest(g.filed.Keys, ip, i + 1, r) && i < bound
    ensures IsDeepest(g.filed.Keys, ip, bound, r)
  {
    forall p | p in g.filed.Keys && PrefixMatches(p, ip)
      ensures p.path.Depth() < i + 1
    {
      if p.path.Depth() >= i + 1 {
        AncestorsPresent(s.mem, g.at, g.filed, ip.bits, i + 1, p.path.Depth());
      }
    }
  }

  /** What the pointers of one node say about the plan. */
  lemma NodeSays(s: Store, g: Plan, p: Path, f: Family, b: bool)
    requires StoreOk(s, g) && p in g.at
    ensures g.at[p] != NULL && g.at[p] in s.mem
    ensures var v := s.mem[g.at[p]].Value(f);
            if Prefix(f, p) in g.filed then v == g.filed[Prefix(f, p)] != NULL else v == NULL
    ensures var c := s.mem[g.at[p]].Child(b);
            if Turn(p, b) in g.at then c == g.at[Turn(p, b)] != NULL else c == NULL
  {
    assert NodeOk(s.mem, g.at, g.filed, p);
    assert Turn(p, b) in g.at ==> NodeOk(s.mem, g.at, g.filed, Turn(p, b));
  }

  lemma EmptyHasNothing(s: Store, g: Plan)
    requires StoreOk(s, g) && s.root == NULL
    ensures g.filed == map[]
  {
    forall k | k in g.filed
      ensures false
    {
      RootPresent(s, g, k.path);
    }
  }

  lemma RootIsPlaced(s: Store, g: Plan)
    requires StoreOk(s, g) && s.root != NULL
    ensures Root in g.at && g.at[Root] == s.root
  {
  }

  lemma {:induction false} RootPresent(s: Store, g: Plan, p: Path)
    requires StoreOk(s, g) && p in g.at
    ensures Root in g.at && s.root != NULL
  {
    assert NodeOk(s.mem, g.at, g.filed, p);
    if p.Turn? {
      RootPresent(s, g, p.up);
    }
  }

  /** The search result after also looking at the node of depth `i`. */
  ghost function Improve(g: Plan, ip: Address, i: nat, r: Option<Prefix>): (b: Option<Prefix>)
    requires i <= |ip.bits|
  {
    if Prefix(ip.family, Walk(ip.bits, i)) in g.filed then Some(Prefix(ip.family, Walk(ip.bits, i))) else r
  }

  lemma OneDeeper(g: Plan, ip: Address, i: nat, r: Option<Prefix>)
    requires i <= |ip.bits| && IsDeepest(g.filed.Keys, ip, i, r)
    ensures IsDeepest(g.filed.Keys, ip, i + 1, Improve(g, ip, i, r))
  {
  }

  /** `ret` is the address of the pair filed under `best`. */
  ghost predicate Denotes(g: Plan, best: Option<Prefix>, ret: Ptr)
  {
    if best.Some? then best.value in g.filed && g.filed[best.value] == ret else ret == NULL
  }

  /** Remembering the last non-empty node. */
  method Visit(s: Store, ghost g: Plan, ip: Address, node: Ptr, ghost i: nat, ret: Ptr, ghost best: Option<Prefix>) returns (ret': Ptr)
    requires StoreOk(s, g) && i <= |ip.bits| && Walk(ip.bits, i) in g.at && node == g.at[Walk(ip.bits, i)]
    requires Denotes(g, best, ret)
    ensures Denotes(g, Improve(g, ip, i, best), ret')
  {
    NodeSays(s, g, Walk(ip.bits, i), ip.family, true);
    ret' := ret;
    if s.mem[node].Value(ip.family) != NULL {
      ret' := s.mem[node].Value(ip.family);
    }
  }

  /** NetmaskTree::lookup on the memory. */
  method Search(s: Store, ghost g: Plan, ip: Address, maxBits: int) returns (ret: Ptr, ghost best: Option<Prefix>)
    requires StoreOk(s, g)
    ensures Denotes(g, best, ret)
    ensures IsDeepest(g.filed.Keys, ip, Clamp(ip.family, maxBits) + 1, best)
  {
    hide StoreOk, TurnBit;
    ret, best := NULL, None;
    if s.root == NULL {
      EmptyHasNothing(s, g);
      return;
    }
    RootIsPlaced(s, g);
    var node := s.root;
    var max := Clamp(ip.family, maxBits);
    var bits := 0;
    while bits < max
      invariant bits <= max
      invariant Walk(ip.bits, bits) in g.at && node == g.at[Walk(ip.bits, bits)]
      invariant Denotes(g, best, ret)
      invariant IsDeepest(g.filed.Keys, ip, bits, best)
    {
      ret := Visit(s, g, ip, node, bits, ret, best);
      OneDeeper(g, ip, bits, best);
      best := Improve(g, ip, bits, best);
      var val := TurnBit(ip, bits);
      assert Walk(ip.bits, bits + 1) == Turn(Walk(ip.bits, bits), val);
      NodeSays(s, g, Walk(ip.bits, bits), V4, val);
      if s.mem[node].Child(val) == NULL {
        NothingBelow(s, g, ip, bits, best, max + 1);
        return;
      }
      node := s.mem[node].Child(val);
      bits := bits + 1;
    }
    ret := Visit(s, g, ip, node, bits, ret, best);
    OneDeeper(g, ip, bits, best);
    best := Improve(g, ip, bits, best);
  }

  lemma UnlinkKeepsValid(s: Store, g: Plan, p: Path, b: bool)
    requires StoreOk(s, g) && p in g.at && Turn(p, b) in g.at
    ensures g.at[p] in s.mem && g.at[Turn(p, b)] in s.mem
    ensures s.mem[g.at[Turn(p, b)]].Bare() ==>
              StoreOk(s.(mem := Detached(s.mem, g.at[p], b, g.at[Turn(p, b)])),
                    g.(at := g.at - {Turn(p, b)}, where := g.where - {g.at[Turn(p, b)]}))
  {
    LinksOk(s, g);
    if s.mem[g.at[Turn(p, b)]].Bare() {
      DetachKeepsShape(s.root, s.mem, g.at, g.where, g.filed, p, b);
    }
  }

  /** cleanup_tree: frees the node if it is bare, then looks at its parent. */
  method CleanupTree(s: Store, ghost g: Plan, n: Ptr, ghost p: Path) returns (s': Store, ghost g': Plan)
    requires StoreOk(s, g) && p in g.at && g.at[p] == n && Dense(s, g, p)
    ensures StoreOk(s', g') && Dense(s', g', Root)
    ensures s'.pairs == s.pairs && s'.nodes == s.nodes && g'.filed == g.filed
    decreases p
  {
    LinksOk(s, g);
    s', g' := s, g;
    if s.mem[n].Bare() {
      assert NodeOk(s.mem, g.at, g.filed, p);
      var parent := s.mem[n].parent;
      if parent != NULL {
        NodeSays(s, g, p.up, V4, false);
        NodeSays(s, g, p.up, V4, true);
        assert p == Turn(p.up, p.bit);
        var b := s.mem[parent].left != n;
        assert b == p.bit;
        UnlinkKeepsValid(s, g, p.up, b);
        HoleMovesUp(s.mem, g.at, p.up, b);
        s' := s.(mem := Detached(s.mem, parent, b, n));
        g' := g.(at := g.at - {p}, where := g.where - {n});
        s', g' := CleanupTree(s', g', parent, p.up);
      }
    }
  }

  /** erase's walk: the node at the key's path, or null. */
  method Find(s: Store, ghost g: Plan, a: Address, n: nat) returns (node: Ptr)
    requires StoreOk(s, g) && n <= Width(a.family)
    ensures node == Look(g.at, Walk(a.bits, n))
    ensures node == NULL <==> Walk(a.bits, n) !in g.at
  {
    node := s.root;
    var bits := 0;
    assert Root in g.at ==> NodeOk(s.mem, g.at, g.filed, Root);
    while node != NULL && bits < n
      decreases n - bits
      invariant bits <= n
      invariant node == Look(g.at, Walk(a.bits, bits))
      invariant node == NULL <==> Walk(a.bits, bits) !in g.at
    {
      var val := TurnBit(a, bits);
      NodeSays(s, g, Walk(a.bits, bits), V4, val);
      assert Walk(a.bits, bits + 1) == Turn(Walk(a.bits, bits), val);
      node := s.mem[node].Child(val);
      bits := bits + 1;
    }
    if node == NULL && Walk(a.bits, n) in g.at {
      AncestorsPresent(s.mem, g.at, g.filed, a.bits, bits, n);
    }
  }

  lemma EmptyingKeepsDense(mem: Memory, at: Places, k: Prefix)
    requires forall r | r in at :: at[r] in mem
    requires forall r | r in at && r != k.path :: k.path in at ==> at[r] != at[k.path]
    requires NoDeadLeaf(mem, at, Root) && k.path in at
    ensures NoDeadLeaf(mem[at[k.path] := mem[at[k.path]].WithValue(k.family, NULL)], at, k.path)
  {
  }

  lemma NullIsNoPair(s: Store, g: Plan)
    requires StoreOk(s, g)
    ensures NULL !in s.pairs
  {
  }

  /** What the memory is after the pair of prefix `k` is freed. */
  function Emptied(s: Store, n: Ptr, f: Family): (r: Store)
    requires n in s.mem
  {
    var v := s.mem[n].Value(f);
    s.(mem := s.mem[n := s.mem[n].WithValue(f, NULL)], pairs := s.pairs - {v}, nodes := s.nodes - {v})
  }

  lemma EmptyKeepsRecord(s: Store, g: Plan, k: Prefix)
    requires StoreOk(s, g) && k.path in g.at && g.at[k.path] in s.mem
    ensures var s' := Emptied(s, g.at[k.path], k.family);
            && Recorded(g.filed - {k}, s'.pairs, s'.nodes)
            && TableOf(g.filed - {k}, s'.pairs) == TableIn(s, g) - {k}
  {
    NodeSays(s, g, k.path, k.family, true);
    if k in g.filed {
      ClearKeepsRecord(g.filed, s.pairs, s.nodes, k);
    } else {
      NullIsNoPair(s, g);
      assert g.filed - {k} == g.filed && s.pairs - {NULL} == s.pairs && s.nodes - {NULL} == s.nodes;
      assert TableIn(s, g) - {k} == TableIn(s, g);
    }
  }

  lemma EmptyKeepsValid(s: Store, g: Plan, k: Prefix)
    requires StoreOk(s, g) && k.path in g.at && g.at[k.path] in s.mem
    ensures var s', g' := Emptied(s, g.at[k.path], k.family), g.(filed := g.filed - {k});
            && StoreOk(s', g') && TableIn(s', g') == TableIn(s, g) - {k}
            && (Dense(s, g, Root) ==> Dense(s', g', k.path))
  {
    hide PrefixOf, Shape, Recorded;
    LinksOk(s, g);
    StoreKeepsShape(s.root, s.mem, g.at, g.where, g.filed, k, NULL, g.filed - {k});
    EmptyKeepsRecord(s, g, k);
    if Dense(s, g, Root) { EmptyingKeepsDense(s.mem, g.at, k); }
  }

  /** The end of erase: the node's pair for the key's family is freed, if there is one. */
  method Vacate(s: Store, ghost g: Plan, n: Ptr, ghost k: Prefix, f: Family) returns (s': Store, ghost g': Plan)
    requires StoreOk(s, g) && k.path in g.at && g.at[k.path] == n && k.family == f
    ensures StoreOk(s', g') && TableIn(s', g') == TableIn(s, g) - {k}
    ensures g'.at == g.at
    ensures Dense(s, g, Root) ==> Dense(s', g', k.path)
  {
    NodeSays(s, g, k.path, f, true);
    EmptyKeepsValid(s, g, k);
    s', g' := Emptied(s, n, f), g.(filed := g.filed - {k});
  }

  /** The first insert makes the root. */
  method EnsureRoot(s: Store, ghost g: Plan) returns (s': Store, ghost g': Plan)
    requires StoreOk(s, g)
    ensures StoreOk(s', g') && Root in g'.at
    ensures s'.pairs == s.pairs && s'.nodes == s.nodes && g'.filed == g.filed
    ensures Dense(s, g, Root) ==> Dense(s', g', Root)
  {
    s', g' := s, g;
    if s.root == NULL {
      EmptyHasNothing(s, g);
      assert forall p | p in g.at :: false by {
        forall p | p in g.at ensures false { RootPresent(s, g, p); }
      }
      s' := s.(root := s.brk, mem := s.mem[s.brk := Node(NULL, NULL, NULL, NULL, NULL, 0)], brk := s.brk + 1);
      g' := g.(at := map[Root := s.brk], where := g.where[s.brk := Root]);
      assert NodeOk(s'.mem, g'.at, g'.filed, Root);
    }
  }

  /** insert's walk: follows the first `n` bits down from the root, making the missing nodes. */
  method Descend(s: Store, ghost g: Plan, a: Address, n: nat) returns (s': Store, ghost g': Plan, node: Ptr)
    requires StoreOk(s, g) && Root in g.at && n <= Width(a.family)
    ensures StoreOk(s', g') && s'.pairs == s.pairs && s'.nodes == s.nodes && g'.filed == g.filed
    ensures Walk(a.bits, n) in g'.at && g'.at[Walk(a.bits, n)] == node
    ensures Dense(s, g, Root) ==> Dense(s', g', Walk(a.bits, n))
  {
    s', g', node := s, g, s.root;
    var bits := 0;
    while bits < n
      invariant bits <= n
      invariant StoreOk(s', g') && s'.pairs == s.pairs && s'.nodes == s.nodes && g'.filed == g.filed
      invariant Walk(a.bits, bits) in g'.at && g'.at[Walk(a.bits, bits)] == node
      invariant Dense(s, g, Root) ==> Dense(s', g', Walk(a.bits, bits))
    {
      var val := TurnBit(a, bits);
      assert Walk(a.bits, bits + 1) == Turn(Walk(a.bits, bits), val);
      s', g', node := MakeChild(s', g', node, Walk(a.bits, bits), val);
      bits := bits + 1;
    }
  }

  /** Distinct prefixes hold distinct pairs, so the pairs count the prefixes. */
  lemma {:induction false} FilingSize(filed: Filing, pairs: map<Ptr, Stored>)
    requires forall k | k in filed :: filed[k] in pairs && PrefixOf(pairs[filed[k]].key) == k
    requires forall x | x in pairs :: PrefixOf(pairs[x].key) in filed && filed[PrefixOf(pairs[x].key)] == x
    ensures |pairs.Keys| == |filed.Keys|
    decreases |filed|
  {
    if filed != map[] {
      var k :| k in filed;
      var filed', pairs' := filed - {k}, pairs - {filed[k]};
      FilingSize(filed', pairs');
      assert pairs.Keys == pairs'.Keys + {filed[k]};
      assert filed.Keys == filed'.Keys + {k};
    }
  }

  /** Creates or finds the pair for a key and assigns the key. */
  method InsertIn(s: Store, ghost g: Plan, key: Netmask) returns (s': Store, ghost g': Plan, value: Ptr)
    requires StoreOk(s, g)
    ensures StoreOk(s', g') && TableIn(s', g') == InsertSpec(TableIn(s, g), key)
    ensures PrefixOf(key) in g'.filed && g'.filed[PrefixOf(key)] == value
    ensures Dense(s, g, Root) ==> Dense(s', g', Root)
  {
    var node;
    s', g' := EnsureRoot(s, g);
    s', g', node := Descend(s', g', key.network, key.bits);
    s', g', value := Occupy(s', g', node, key);
  }

  /** Assigns through the reference that insert returned. */
  method SetSecondIn(s: Store, ghost g: Plan, value: Ptr, ghost k: Prefix, v: bool) returns (s': Store)
    requires StoreOk(s, g) && k in g.filed && g.filed[k] == value
    ensures StoreOk(s', g) && TableIn(s', g) == TableIn(s, g)[k := TableIn(s, g)[k].(value := v)]
    ensures Dense(s, g, Root) ==> Dense(s', g, Root)
  {
    var e := s.pairs[value].(value := v);
    StoreKeepsRecord(g.filed, s.pairs, s.nodes, k, value, e);
    assert g.filed[k := value] == g.filed && s.nodes + {value} == s.nodes;
    s' := s.(pairs := s.pairs[value := e]);
  }

  /** insert(key).second = v */
  method InsertOrAssignIn(s: Store, ghost g: Plan, key: Netmask, v: bool) returns (s': Store, ghost g': Plan)
    requires StoreOk(s, g)
    ensures StoreOk(s', g') && TableIn(s', g') == TableIn(s, g)[PrefixOf(key) := Stored(key, v)]
    ensures Dense(s, g, Root) ==> Dense(s', g', Root)
  {
    var value;
    s', g', value := InsertIn(s, g, key);
    InsertThenSet(TableIn(s, g), key, v);
    s' := SetSecondIn(s', g', value, PrefixOf(key), v);
  }

  lemma InsertThenSet(t: Table, key: Netmask, v: bool)
    ensures var k, r := PrefixOf(key), InsertSpec(t, key);
            k in r && r[k := r[k].(value := v)] == t[k := Stored(key, v)]
  {
  }

  /** Copies one pair of another tree. */
  method CopyOne(s: Store, ghost g: Plan, from: Store, ghost gf: Plan, todo: set<Ptr>, x: Ptr) returns (s': Store, ghost g': Plan)
    requires StoreOk(s, g) && StoreOk(from, gf) && x in todo && todo <= from.nodes
    requires Partial(TableIn(s, g), TableIn(from, gf), gf.filed, todo)
    ensures StoreOk(s', g') && Partial(TableIn(s', g'), TableIn(from, gf), gf.filed, todo - {x})
    ensures Dense(s, g, Root) ==> Dense(s', g', Root)
  {
    ghost var t := TableIn(from, gf);
    ghost var k := PrefixOf(from.pairs[x].key);
    assert k in gf.filed && gf.filed[k] == x && t[k] == from.pairs[x];
    PartialStep(TableIn(s, g), t, gf.filed, todo, k);
    s', g' := InsertOrAssignIn(s, g, from.pairs[x].key, from.pairs[x].value);
  }

  /** Copying: inserts every pair of another tree, in any order. */
  method InsertAllIn(s: Store, ghost g: Plan, from: Store, ghost gf: Plan) returns (s': Store, ghost g': Plan)
    requires StoreOk(s, g) && TableIn(s, g) == map[] && StoreOk(from, gf)
    ensures StoreOk(s', g') && TableIn(s', g') == TableIn(from, gf)
    ensures Dense(s, g, Root) ==> Dense(s', g', Root)
  {
    s', g' := s, g;
    var todo := from.nodes;
    ghost var t := TableIn(from, gf);
    PartialStart(t, gf.filed, todo);
    while todo != {}
      invariant StoreOk(s', g') && todo <= from.nodes
      invariant Dense(s, g, Root) ==> Dense(s', g', Root)
      invariant Partial(TableIn(s', g'), t, gf.filed, todo)
    {
      var x :| x in todo;
      s', g' := CopyOne(s', g', from, gf, todo, x);
      todo := todo - {x};
    }
    PartialDone(TableIn(s', g'), t, gf.filed);
  }

  lemma PartialStart(t: Table, filed: Filing, nodes: set<Ptr>)
    requires filed.Keys == t.Keys && forall k | k in filed :: filed[k] in nodes
    ensures Partial(map[], t, filed, nodes)
  {
  }

  lemma PartialDone(a: Table, t: Table, filed: Filing)
    requires filed.Keys == t.Keys && Partial(a, t, filed, {})
    ensures a == t
  {
  }

  /** `a` holds the entries of `t` except those still to do. */
  ghost predicate Partial(a: Table, t: Table, filed: Filing, todo: set<Ptr>)
    requires filed.Keys == t.Keys
  {
    && (forall k | k in a :: k in t && a[k] == t[k])
    && (forall k | k in t && filed[k] !in todo :: k in a)
  }

  lemma PartialStep(a: Table, t: Table, filed: Filing, todo: set<Ptr>, k: Prefix)
    requires filed.Keys == t.Keys && Partial(a, t, filed, todo) && TableOk(t) && k in t
    requires forall j | j in filed && filed[j] == filed[k] :: j == k
    ensures Partial(a[k := t[k]], t, filed, todo - {filed[k]})
  {
  }

  /** Removes a key; with cleanup on, the branch it leaves bare is freed. */
  method EraseIn(s: Store, ghost g: Plan, key: Netmask, cleanup: bool) returns (s': Store, ghost g': Plan)
    requires StoreOk(s, g) && (cleanup ==> Dense(s, g, Root))
    ensures StoreOk(s', g') && TableIn(s', g') == TableIn(s, g) - {PrefixOf(key)}
    ensures cleanup ==> Dense(s', g', Root)
  {
    var node := Find(s, g, key.network, key.bits);
    ghost var k := PrefixOf(key);
    s', g' := s, g;
    if node == NULL {
      assert k !in g.filed;
      assert TableIn(s, g) - {k} == TableIn(s, g);
      return;
    }
    s', g' := Vacate(s, g, node, k, key.network.family);
    if cleanup {
      s', g' := CleanupTree(s', g', node, k.path);
    }
  }

  /** Best match for an address, using at most `maxBits` bits. */
  method LookupIn(s: Store, ghost g: Plan, ip: Address, maxBits: int) returns (ret: Ptr)
    requires StoreOk(s, g)
    ensures ret != NULL <==> ret in s.nodes
    ensures ret != NULL ==> ret in s.pairs
    ensures ScanFinds(TableIn(s, g), ip, maxBits, if ret == NULL then None else Some(s.pairs[ret]))
  {
    ghost var best;
    ret, best := Search(s, g, ip, maxBits);
    DeepestIsScan(TableIn(s, g), ip, maxBits, best);
    NullIsNoPair(s, g);
  }

  class NetmaskTree {
    var store: Store
    ghost var plan: Plan
    const cleanup: bool

    /** With cleanup on, every childless node below the root holds a value. */
    ghost predicate Valid()
      reads this
    {
      StoreOk(store, plan) && (cleanup ==> Dense(store, plan, Root))
    }

    ghost function Table(): (t: Table)
      requires Valid()
      reads this
    {
      TableIn(store, plan)
    }

    constructor (cleanup: bool)
      ensures Valid() && Table() == map[] && this.cleanup == cleanup
    {
      this.cleanup := cleanup;
      store, plan := Store(NULL, map[], map[], {}, 1), Plan(map[], map[], map[]);
    }

    /** Creates or finds the pair for a key and assigns the key; the pair is returned by address. */
    method Insert(key: Netmask) returns (value: Ptr)
      requires Valid()
      modifies this
      ensures Valid() && Table() == InsertSpec(old(Table()), key)
      ensures value in store.pairs && store.pairs[value] == Table()[PrefixOf(key)]
    {
      var s;
      ghost var g;
      s, g, value := InsertIn(store, plan, key);
      store, plan := s, g;
    }

    method InsertOrAssign(key: Netmask, v: bool)
      requires Valid()
      modifies this
      ensures Valid() && Table() == old(Table())[PrefixOf(key) := Stored(key, v)]
    {
      var s;
      ghost var g;
      s, g := InsertOrAssignIn(store, plan, key, v);
      store, plan := s, g;
    }

    /** Best match for an address, using at most `maxBits` bits. */
    method Lookup(ip: Address, maxBits: int) returns (ret: Ptr)
      requires Valid()
      ensures ret != NULL <==> ret in store.nodes
      ensures ret != NULL ==> ret in store.pairs
      ensures ScanFinds(Table(), ip, maxBits, if ret == NULL then None else Some(store.pairs[ret]))
    {
      ret := LookupIn(store, plan, ip, maxBits);
    }

    /** A key is present when the best match for its own network is stored under that very key. */
    method HasKey(key: Netmask) returns (r: bool)
      requires Valid()
      ensures r <==> PrefixOf(key) in Table() && Table()[PrefixOf(key)].key == key
    {
      var ret := Lookup(key.network, key.bits);
      r := ret != NULL && store.pairs[ret].key == key;
      ghost var t, k := Table(), PrefixOf(key);
      if k in t && t[k].key == key {
        assert Candidate(t[k], key.network, key.bits);
        assert ScanFinds(t, key.network, key.bits, Some(t[k]));
        ScanIsUnique(t, key.network, key.bits, Some(t[k]), if ret == NULL then None else Some(store.pairs[ret]));
      }
    }

    /** Removes a key; with cleanup on, the branch it leaves bare is freed. */
    method Erase(key: Netmask)
      requires Valid()
      modifies this
      ensures Valid() && Table() == old(Table()) - {PrefixOf(key)}
    {
      var s;
      ghost var g;
      s, g := EraseIn(store, plan, key, cleanup);
      store, plan := s, g;
    }

    method Clear()
      requires Valid()
      modifies this
      ensures Valid() && Table() == map[]
    {
      store, plan := Store(NULL, map[], map[], {}, store.brk), Plan(map[], map[], map[]);
    }

    method Size() returns (n: nat)
      requires Valid()
      ensures n == |Table()|
    {
      n := |store.nodes|;
      ghost var t := Table();
      FilingSize(plan.filed, store.pairs);
      assert t.Keys == plan.filed.Keys;
    }

    /** The copy constructor. */
    constructor Copy(rhs: NetmaskTree)
      requires rhs.Valid()
      ensures Valid() && cleanup == rhs.cleanup && Table() == rhs.Table()
    {
      cleanup := rhs.cleanup;
      var s := Store(NULL, map[], map[], {}, 1);
      ghost var g := Plan(map[], map[], map[]);
      s, g := InsertAllIn(s, g, rhs.store, rhs.plan);
      store, plan := s, g;
    }

    /** Assignment clears first and then reads the right-hand side, so assigning a tree to itself empties it. */
    method Assign(rhs: NetmaskTree)
      requires Valid() && rhs.Valid()
      modifies this
      ensures Valid()
      ensures Table() == if rhs == this then map[] else old(rhs.Table())
    {
      Clear();
      var s;
      ghost var g;
      s, g := InsertAllIn(store, plan, rhs.store, rhs.plan);
      store, plan := s, g;
    }
  }
}
