/**
 The registers of a HyperLogLog sketch ("hll" fields).  The 32-bit hash of an item
 is given; its arithmetic is written out on natural numbers.
 */
module HyperLogLogs {

  import opened Basics

  function Pow2(n: nat): (p: nat)
    ensures p > 0
  {
    if n == 0 then 1 else 2 * Pow2(n - 1)
  }

  type Hash = h: nat | h < TWO32

  // ---------------------------------------------------------------- rank

  /** What the rank says: its first rank - 1 bits are zero, and the next one is not unless the limit is reached. */
  predicate IsRank(x: nat, limit: nat, v: nat)
    requires limit <= 32
  {
    && 1 <= v <= limit + 1
    && x < Pow2(33 - v)
    && (v <= limit ==> Pow2(32 - v) <= x)
  }

  lemma {:induction false} Pow2Monotone(a: nat, b: nat)
    requires a <= b
    ensures Pow2(a) <= Pow2(b)
  {
    if a < b {
      Pow2Monotone(a, b - 1);
    }
  }

  lemma RankIsUnique(x: nat, limit: nat, v: nat, w: nat)
    requires limit <= 32 && IsRank(x, limit, v) && IsRank(x, limit, w)
    ensures v == w
  {
    if v < w { Pow2Monotone(33 - w, 32 - v); }
    if w < v { Pow2Monotone(33 - v, 32 - w); }
  }

  /** _get_leading_zero_count: shifts left until the top bit is set, at most `limit` times. */
  method LeadingZeroCount(x: Hash, limit: nat) returns (v: nat)
    requires limit <= 32
    ensures IsRank(x, limit, v)
  {
    v := 1;
    var y: nat := x;
    Pow2Of32();
    while v <= limit && y < Pow2(31)
      invariant 1 <= v <= limit + 1
      invariant y == x * Pow2(v - 1) && y < Pow2(32)
      invariant x < Pow2(33 - v)
      decreases limit + 1 - v
    {
      ShiftStep(x, v);
      v := v + 1;
      y := (2 * y) % TWO32;
    }
    if v <= limit {
      TopBit(x, v);
    }
  }

  lemma Pow2Of32()
    ensures Pow2(31) == 0x8000_0000 && Pow2(32) == TWO32
  {
    assert Pow2(8) == 256;
    assert Pow2(16) == 0x1_0000;
    assert Pow2(24) == 0x100_0000;
    assert Pow2(31) == 0x8000_0000;
  }

  lemma {:induction false} Pow2Add(a: nat, b: nat)
    ensures Pow2(a + b) == Pow2(a) * Pow2(b)
  {
    if a > 0 {
      Pow2Add(a - 1, b);
    }
  }

  lemma MulOrder(a: nat, b: nat, c: nat)
    requires c > 0
    ensures a < b <==> a * c < b * c
  {
    assert a < b ==> (b - a) * c > 0;
    assert a >= b ==> (a - b) * c >= 0;
  }

  /** While the top bit is clear, shifting loses nothing. */
  lemma ShiftStep(x: nat, v: nat)
    requires 1 <= v <= 32 && x * Pow2(v - 1) < Pow2(31)
    ensures 2 * (x * Pow2(v - 1)) == x * Pow2(v) < Pow2(32)
    ensures x < Pow2(32 - v)
  {
    assert Pow2(v) == 2 * Pow2(v - 1) && Pow2(32) == 2 * Pow2(31);
    Pow2Add(32 - v, v - 1);
    Twice(x, Pow2(v - 1), Pow2(v));
    hide Pow2;
    MulOrder(x, Pow2(32 - v), Pow2(v - 1));
  }

  lemma Twice(x: nat, p: nat, q: nat)
    requires q == 2 * p
    ensures x * q == 2 * (x * p)
  {
  }

  /** When the top bit is set, the value has that many bits. */
  lemma TopBit(x: nat, v: nat)
    requires 1 <= v <= 32 && x * Pow2(v - 1) >= Pow2(31)
    ensures Pow2(32 - v) <= x
  {
    Pow2Add(32 - v, v - 1);
    hide Pow2;
    MulOrder(x, Pow2(32 - v), Pow2(v - 1));
  }

  // ---------------------------------------------------------------- registers

  /** 2^b registers of eight bits. */
  datatype Sketch = Sketch(b: nat, regs: seq<bv8>)

  predicate SketchOk(s: Sketch)
  {
    4 <= s.b <= 30 && |s.regs| == Pow2(s.b)
  }

  function Index(b: nat, h: Hash): (i: nat)
    ensures i < Pow2(b)
  {
    h % Pow2(b)
  }

  /** The rank of an item: of its hash shifted left by b. */
  ghost function Rank(b: nat, h: Hash): (v: nat)
    requires 4 <= b <= 30
    ensures IsRank((h * Pow2(b)) % TWO32, 32 - b, v)
  {
    RankExists((h * Pow2(b)) % TWO32, 32 - b);
    var v :| IsRank((h * Pow2(b)) % TWO32, 32 - b, v);
    v
  }

  lemma RankExists(x: Hash, limit: nat)
    requires limit <= 32
    ensures exists v :: IsRank(x, limit, v)
  {
    Pow2Of32();
    var v := 1;
    while v <= limit && x < Pow2(32 - v)
      invariant 1 <= v <= limit + 1 && x < Pow2(33 - v)
      decreases limit + 1 - v
    {
      v := v + 1;
    }
    assert IsRank(x, limit, v);
  }

  /** Ranks fit five bits, so the eight-bit register holds them unchanged. */
  lemma RankFits(b: nat, h: Hash)
    requires 4 <= b <= 30
    ensures 1 <= Rank(b, h) <= 29
  {
  }

  /**
   Register and rank both come from the lower bits: with at most 2^16 registers, hashes that
   differ in their top b bits only are the same item to the sketch.
   */
  lemma TopBitsIgnored(b: nat, h: Hash, g: Hash)
    requires 4 <= b <= 16 && h % Pow2(32 - b) == g % Pow2(32 - b)
    ensures Index(b, h) == Index(b, g) && Rank(b, h) == Rank(b, g)
  {
    Pow2Of32();
    Pow2Add(32 - b, b);
    Pow2Add(32 - 2 * b, b);
    hide Pow2, IsRank, Rank;
    var p, q := Pow2(32 - b), Pow2(b);
    LowBitsDecide(h, g, Pow2(32 - 2 * b), q);
    Shifted(h, p, q);
    Shifted(g, p, q);
    RankIsUnique((h * q) % TWO32, 32 - b, Rank(b, h), Rank(b, g));
  }

  /** Equal remainders modulo a multiple of q are equal modulo q. */
  lemma LowBitsDecide(h: nat, g: nat, a: nat, q: nat)
    requires a > 0 && q > 0 && a * q > 0 && h % (a * q) == g % (a * q)
    ensures h % q == g % q
  {
    LowBits(h, a, q);
    LowBits(g, a, q);
  }

  lemma LowBits(h: nat, a: nat, q: nat)
    requires a > 0 && q > 0 && a * q > 0
    ensures h % q == (h % (a * q)) % q
  {
    var m, r := h / (a * q), h % (a * q);
    assert h == (m * a) * q + r by { assert h == m * (a * q) + r; assert m * (a * q) == (m * a) * q; }
    AddMultiple(r, m * a, q);
  }

  lemma AddMultiple(r: nat, n: nat, q: nat)
    requires q > 0
    ensures (n * q + r) % q == r % q
  {
    var x, y := r / q, r % q;
    assert n * q + r == (n + x) * q + y by { assert (n + x) * q == n * q + x * q; }
    RemainderIs(n * q + r, n + x, q, y);
  }

  lemma RemainderIs(z: nat, k: nat, q: nat, y: nat)
    requires q > 0 && y < q && z == k * q + y
    ensures z % q == y
  {
    var d := z / q - k;
    assert z == (z / q) * q + z % q;
    assert d * q == y - z % q by { assert d * q == (z / q) * q - k * q; }
    assert d >= 1 ==> d * q >= q;
    assert d <= -1 ==> d * q + q <= 0;
  }

  /** Shifting left by b drops the top b bits. */
  lemma Shifted(h: nat, p: nat, q: nat)
    requires p > 0 && q > 0 && p * q == TWO32
    ensures (h * q) % TWO32 == (h % p) * q
  {
    var m, r := h / p, h % p;
    assert h * q == m * TWO32 + r * q by { assert h == m * p + r; assert h * q == (m * p) * q + r * q; assert (m * p) * q == m * (p * q); }
    assert r * q < p * q by { MulOrder(r, p, q); }
    RemainderIs(h * q, m, TWO32, r * q);
  }

  function Max(x: bv8, y: bv8): (m: bv8)
    ensures m >= x && m >= y && (m == x || m == y)
  {
    if x < y then y else x
  }

  ghost function RankByte(b: nat, h: Hash): (v: bv8)
    requires 4 <= b <= 30
  {
    RankFits(b, h);
    Rank(b, h) as bv8
  }

  lemma RankByteIs(b: nat, h: Hash)
    requires 4 <= b <= 30
    ensures 1 <= Rank(b, h) <= 29 && RankByte(b, h) == Rank(b, h) as bv8
  {
    RankFits(b, h);
  }

  ghost function Add(s: Sketch, h: Hash): (r: Sketch)
    requires SketchOk(s)
    ensures SketchOk(r) && r.b == s.b
  {
    s.(regs := s.regs[Index(s.b, h) := Max(RankByte(s.b, h), s.regs[Index(s.b, h)])])
  }

  function Empty(b: nat): (s: Sketch)
    requires 4 <= b <= 30
    ensures SketchOk(s)
  {
    Sketch(b, seq(Pow2(b), i => 0))
  }

  ghost function After(s: Sketch, items: seq<Hash>): (r: Sketch)
    requires SketchOk(s)
    ensures SketchOk(r) && r.b == s.b
  {
    if items == [] then s else Add(After(s, items[..|items| - 1]), items[|items| - 1])
  }

  /** `m` is the largest rank among the items of register i, or 0 if there is none. */
  ghost predicate IsMaxRank(b: nat, items: set<Hash>, i: nat, m: bv8)
    requires 4 <= b <= 30
  {
    && (forall h | h in items && Index(b, h) == i :: RankByte(b, h) <= m)
    && (m == 0 || exists h :: h in items && Index(b, h) == i && RankByte(b, h) == m)
  }

  function Items(s: seq<Hash>): (r: set<Hash>)
  {
    if s == [] then {} else Items(s[..|s| - 1]) + {s[|s| - 1]}
  }

  lemma MaxRankStep(b: nat, items: set<Hash>, i: nat, m: bv8, h: Hash)
    requires 4 <= b <= 30 && IsMaxRank(b, items, i, m)
    ensures IsMaxRank(b, items + {h}, i, if Index(b, h) == i then Max(RankByte(b, h), m) else m)
  {
    hide RankByte, Index, Max;
    var all, r := items + {h}, if Index(b, h) == i then Max(RankByte(b, h), m) else m;
    forall g | g in all && Index(b, g) == i
      ensures RankByte(b, g) <= r
    {
      if g != h { AtMost(RankByte(b, g), m, r); }
    }
    if r != 0 {
      var g :| g in all && Index(b, g) == i && RankByte(b, g) == r by {
        if r == m {
          var x :| x in items && Index(b, x) == i && RankByte(b, x) == m;
          assert x in all;
        } else {
          assert h in all;
        }
      }
    }
  }

  lemma AtMost(x: bv8, y: bv8, z: bv8)
    requires x <= y <= z
    ensures x <= z
  {
  }

  /** Registers are the pointwise maximum over the set of distinct items. */
  lemma {:induction false} RegistersAreMax(b: nat, items: seq<Hash>, i: nat)
    requires 4 <= b <= 30 && i < Pow2(b)
    ensures IsMaxRank(b, Items(items), i, After(Empty(b), items).regs[i])
  {
    if items != [] {
      hide IsMaxRank, RankByte, Index, Max;
      var rest, h := items[..|items| - 1], items[|items| - 1];
      RegistersAreMax(b, rest, i);
      MaxRankStep(b, Items(rest), i, After(Empty(b), rest).regs[i], h);
    }
  }

  /** So order and repetition do not matter. */
  lemma {:induction false} RegistersDependOnSet(b: nat, x: seq<Hash>, y: seq<Hash>)
    requires 4 <= b <= 30 && Items(x) == Items(y)
    ensures After(Empty(b), x) == After(Empty(b), y)
  {
    var p, q := After(Empty(b), x).regs, After(Empty(b), y).regs;
    forall i | 0 <= i < Pow2(b)
      ensures p[i] == q[i]
    {
      RegistersAreMax(b, x, i);
      RegistersAreMax(b, y, i);
    }
    assert p == q;
  }

  // ---------------------------------------------------------------- merge

  /** One register of merge: a smaller register takes the bitwise or. */
  function MergeReg(x: bv8, y: bv8): (r: bv8)
  {
    if x < y then x | y else x
  }

  lemma MergeOne(x: bv8, y: bv8)
    ensures MergeReg(x, y) == (if x < y then x | y else x) && MergeReg(x, x) == x
  {
  }

  /** The or is the maximum exactly when the smaller register's bits are among the larger's. */
  lemma MergeIsMaxIff(x: bv8, y: bv8)
    ensures MergeReg(x, y) == Max(x, y) <==> x >= y || x & !y == 0
  {
  }

  predicate Below(x: bv8, k: nat)
  {
    match k
    case 0 => x < 1
    case 1 => x < 2
    case 2 => x < 4
    case 3 => x < 8
    case 4 => x < 16
    case 5 => x < 32
    case 6 => x < 64
    case 7 => x < 128
    case _ => true
  }

  lemma MergeRegBounds(x: bv8, y: bv8, k: nat)
    ensures MergeReg(x, y) >= x && MergeReg(x, y) >= y
    ensures Below(x, k) && Below(y, k) ==> Below(MergeReg(x, y), k)
  {
    match k
    case 0 =>
    case 1 =>
    case 2 =>
    case 3 =>
    case 4 =>
    case 5 =>
    case 6 =>
    case 7 =>
    case _ =>
  }

  function Merge(s: Sketch, t: Sketch): (r: Sketch)
    requires SketchOk(s) && SketchOk(t) && s.b == t.b
    ensures SketchOk(r) && r.b == s.b
  {
    s.(regs := seq(|s.regs|, i requires 0 <= i < |s.regs| => MergeReg(s.regs[i], t.regs[i])))
  }

  predicate AllOk(b: nat, ts: seq<Sketch>)
  {
    forall j | 0 <= j < |ts| :: SketchOk(ts[j]) && ts[j].b == b
  }

  /** TWStatsMemberHLL::sum merges every slot into an empty sketch. */
  function MergeAll(b: nat, ts: seq<Sketch>): (r: Sketch)
    requires 4 <= b <= 30 && AllOk(b, ts)
    ensures SketchOk(r) && r.b == b
  {
    if ts == [] then Empty(b) else Merge(MergeAll(b, ts[..|ts| - 1]), ts[|ts| - 1])
  }

  /**
   Merging is not the maximum, and not independent of the order of the slots: with 1 and 2 in
   a register, the first order gives 3 and the second 2.
   */
  lemma MergeDependsOnOrder(b: nat, s: Sketch, t: Sketch)
    requires 4 <= b <= 30 && s == Sketch(b, seq(Pow2(b), i => 1)) && t == Sketch(b, seq(Pow2(b), i => 2))
    ensures MergeAll(b, [s, t]) == Sketch(b, seq(Pow2(b), i => 3)) && MergeAll(b, [t, s]) == t
  {
    hide Pow2;
    assert [s, t][..1] == [s] && [t, s][..1] == [t] && [s][..0] == [] && [t][..0] == [];
    assert MergeAll(b, []) == Empty(b);
    assert MergeAll(b, [s]).regs == s.regs && MergeAll(b, [t]).regs == t.regs;
    assert MergeAll(b, [s, t]).regs == seq(Pow2(b), i => 3);
    assert MergeAll(b, [t, s]).regs == t.regs;
  }

  /** The merged registers are at least every input and below any power of two that bounds them all. */
  lemma {:induction false} MergeAllBounds(b: nat, ts: seq<Sketch>, i: nat, k: nat)
    requires 4 <= b <= 30 && AllOk(b, ts) && i < Pow2(b)
    ensures AtLeastAll(ts, i, MergeAll(b, ts).regs[i])
    ensures AllBelow(ts, i, k) ==> Below(MergeAll(b, ts).regs[i], k)
  {
    if ts != [] {
      hide MergeReg, Below, AtLeastAll, AllBelow;
      var n := |ts| - 1;
      var m, x := MergeAll(b, ts[..n]).regs[i], ts[n].regs[i];
      MergeAllBounds(b, ts[..n], i, k);
      MergeRegBounds(m, x, k);
      OneMoreSketch(ts, i, k, m, MergeReg(m, x));
    }
  }

  lemma OneMoreSketch(ts: seq<Sketch>, i: nat, k: nat, m: bv8, r: bv8)
    requires ts != [] && i < |ts[|ts| - 1].regs| && AtLeastAll(ts[..|ts| - 1], i, m) && m <= r && ts[|ts| - 1].regs[i] <= r
    ensures AtLeastAll(ts, i, r)
    ensures AllBelow(ts, i, k) ==> AllBelow(ts[..|ts| - 1], i, k) && Below(ts[|ts| - 1].regs[i], k)
  {
    hide Below;
    forall j | 0 <= j < |ts| && i < |ts[j].regs|
      ensures ts[j].regs[i] <= r
    {
      if j < |ts| - 1 {
        assert ts[..|ts| - 1][j] == ts[j];
      }
    }
  }

  predicate AtLeastAll(ts: seq<Sketch>, i: nat, m: bv8)
  {
    forall j | 0 <= j < |ts| && i < |ts[j].regs| :: ts[j].regs[i] <= m
  }

  predicate AllBelow(ts: seq<Sketch>, i: nat, k: nat)
  {
    forall j | 0 <= j < |ts| && i < |ts[j].regs| :: Below(ts[j].regs[i], k)
  }

  /** Sketches filled by add, merged in any order, keep every register at most 31. */
  lemma MergedRegistersFit(b: nat, logs: seq<seq<Hash>>, i: nat)
    requires 4 <= b <= 30 && i < Pow2(b)
    ensures var ts := seq(|logs|, j requires 0 <= j < |logs| => After(Empty(b), logs[j]));
            AllOk(b, ts) && MergeAll(b, ts).regs[i] <= 31
  {
    var ts := seq(|logs|, j requires 0 <= j < |logs| => After(Empty(b), logs[j]));
    forall j | 0 <= j < |logs|
      ensures Below(ts[j].regs[i], 5)
    {
      RegistersAreMax(b, logs[j], i);
      MaxRankFits(b, Items(logs[j]), i, ts[j].regs[i]);
    }
    MergeAllBounds(b, ts, i, 5);
  }

  lemma MaxRankFits(b: nat, items: set<Hash>, i: nat, m: bv8)
    requires 4 <= b <= 30 && IsMaxRank(b, items, i, m)
    ensures m < 32
  {
    if m != 0 {
      var h :| h in items && Index(b, h) == i && RankByte(b, h) == m;
      RankFits(b, h);
      SmallByte(Rank(b, h));
    }
  }

  lemma SmallByte(n: nat)
    requires 1 <= n <= 29
    ensures (n as bv8) < 32
  {
    if n <= 10 {
      assert n == 1 || n == 2 || n == 3 || n == 4 || n == 5 || n == 6 || n == 7 || n == 8 || n == 9 || n == 10;
    } else if n <= 20 {
      assert n == 11 || n == 12 || n == 13 || n == 14 || n == 15 || n == 16 || n == 17 || n == 18 || n == 19 || n == 20;
    } else {
      assert n == 21 || n == 22 || n == 23 || n == 24 || n == 25 || n == 26 || n == 27 || n == 28 || n == 29;
    }
  }

  lemma SizeDeterminesBits(a: nat, b: nat)
    ensures Pow2(a) == Pow2(b) <==> a == b
  {
    if a < b { Pow2Monotone(a + 1, b); }
    if b < a { Pow2Monotone(b + 1, a); }
  }

  // ---------------------------------------------------------------- in place

  class HyperLogLog {
    const b: nat
    const regs: array<bv8>

    ghost predicate Valid()
    {
      4 <= b <= 30 && regs.Length == Pow2(b)
    }

    ghost function Value(): (s: Sketch)
      requires Valid()
      reads regs
      ensures SketchOk(s)
    {
      Sketch(b, regs[..])
    }

    constructor (b: nat)
      requires 4 <= b <= 30
      ensures Valid() && fresh(regs) && Value() == Empty(b)
    {
      this.b := b;
      regs := new bv8[Pow2(b)](i => 0);
      new;
      assert regs[..] == Empty(b).regs;
    }

    /** A register only grows, to the rank of the item. */
    method AddItem(h: Hash)
      requires Valid()
      modifies regs
      ensures Value() == Add(old(Value()), h)
    {
      hide IsRank, Rank, RankByte, Index;
      var x := (h * Pow2(b)) % TWO32;
      var rank := LeadingZeroCount(x, 32 - b);
      RankIsUnique(x, 32 - b, rank, Rank(b, h));
      RankFits(b, h);
      RankByteIs(b, h);
      var i, byte := Index(b, h), rank as bv8;
      if byte > regs[i] {
        regs[i] := byte;
      }
      assert regs[..] == Add(old(Value()), h).regs;
    }

    /** merge refuses a sketch of another size. */
    method MergeWith(other: HyperLogLog) returns (ok: bool)
      requires Valid() && other.Valid()
      modifies regs
      ensures ok <==> b == other.b
      ensures Value() == if ok then Merge(old(Value()), old(other.Value())) else old(Value())
    {
      hide Pow2, MergeReg;
      ok := regs.Length == other.regs.Length;
      SizeDeterminesBits(b, other.b);
      if !ok {
        return;
      }
      ghost var was, theirs := regs[..], other.regs[..];
      for r := 0 to regs.Length
        invariant forall i | 0 <= i < r :: regs[i] == MergeReg(was[i], theirs[i])
        invariant forall i | r <= i < regs.Length :: other.regs[i] == theirs[i]
        invariant forall i | r <= i < regs.Length :: regs[i] == was[i]
      {
        MergeOne(regs[r], other.regs[r]);
        if regs[r] < other.regs[r] {
          regs[r] := regs[r] | other.regs[r];
        }
      }
      assert regs[..] == Merge(old(Value()), old(other.Value())).regs;
    }

    method Clear()
      requires Valid()
      modifies regs
      ensures Value() == Empty(b)
    {
      for i := 0 to regs.Length
        invariant forall j | 0 <= j < i :: regs[j] == 0
      {
        regs[i] := 0;
      }
      assert regs[..] == Empty(b).regs;
    }
  }
}
