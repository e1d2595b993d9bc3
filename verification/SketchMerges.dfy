/**
 What sum() of an "hll" field makes of its slots: it merges them one after the other into
 an empty sketch.  When a register of the result is the maximum over the slots, and when
 not.
 */
module SketchMerges {

  import opened Basics
  import opened HyperLogLogs

  /** Register i of every slot. */
  function Column(b: nat, ts: seq<Sketch>, i: nat): (xs: seq<bv8>)
    requires AllOk(b, ts) && i < Pow2(b)
    ensures |xs| == |ts|
  {
    seq(|ts|, j requires 0 <= j < |ts| => ts[j].regs[i])
  }

  /** The register that merging them in this order gives. */
  function Folded(xs: seq<bv8>): (m: bv8)
  {
    if xs == [] then 0 else MergeReg(Folded(xs[..|xs| - 1]), xs[|xs| - 1])
  }

  function Largest(xs: seq<bv8>): (m: bv8)
  {
    if xs == [] then 0 else Max(Largest(xs[..|xs| - 1]), xs[|xs| - 1])
  }

  /** Every bit of x is one of y's. */
  predicate Inside(x: bv8, y: bv8)
  {
    x & !y == 0
  }

  lemma {:induction false} MergedRegister(b: nat, ts: seq<Sketch>, i: nat)
    requires 4 <= b <= 30 && AllOk(b, ts) && i < Pow2(b)
    ensures MergeAll(b, ts).regs[i] == Folded(Column(b, ts, i))
  {
    hide MergeReg, Pow2;
    if ts == [] {
    } else {
      MergedRegister(b, ts[..|ts| - 1], i);
      assert Column(b, ts, i)[..|ts| - 1] == Column(b, ts[..|ts| - 1], i);
    }
  }

  /** The merge after every slot has the maximum of register i over the slots so far. */
  ghost predicate MergesAreMax(b: nat, ts: seq<Sketch>, i: nat)
    requires 4 <= b <= 30 && AllOk(b, ts) && i < Pow2(b)
  {
    ts != [] ==> MergesAreMax(b, ts[..|ts| - 1], i) && MergeAll(b, ts).regs[i] == Largest(Column(b, ts, i))
  }

  /** Every register is no larger than the maximum before it, or has all of that maximum's bits. */
  predicate Nested(xs: seq<bv8>)
  {
    xs != [] ==>
      var before, x := xs[..|xs| - 1], xs[|xs| - 1];
      Nested(before) && (Largest(before) >= x || Inside(Largest(before), x))
  }

  lemma MergesToMaxIff(m: bv8, x: bv8)
    ensures MergeReg(m, x) == Max(m, x) <==> m >= x || Inside(m, x)
  {
    MergeIsMaxIff(m, x);
  }

  /** Every merge on the way gives the maximum if and only if the registers are nested. */
  lemma {:induction false} MergesAreMaxIff(b: nat, ts: seq<Sketch>, i: nat)
    requires 4 <= b <= 30 && AllOk(b, ts) && i < Pow2(b)
    ensures MergesAreMax(b, ts, i) <==> Nested(Column(b, ts, i))
    ensures MergesAreMax(b, ts, i) ==> MergeAll(b, ts).regs[i] == Largest(Column(b, ts, i))
  {
    hide MergeReg, Max, Inside, MergeAll, Pow2, Folded, Largest, Nested, Column;
    MergedRegister(b, ts, i);
    if ts == [] {
      NoneNested();
    } else {
      var rest, x := ts[..|ts| - 1], ts[|ts| - 1].regs[i];
      MergesAreMaxIff(b, rest, i);
      MergedRegister(b, rest, i);
      ColumnSnoc(b, ts, i);
      OneMore(Column(b, rest, i), x);
      MergesToMaxIff(Largest(Column(b, rest, i)), x);
    }
  }

  lemma ColumnSnoc(b: nat, ts: seq<Sketch>, i: nat)
    requires ts != [] && AllOk(b, ts) && i < Pow2(b)
    ensures Column(b, ts, i) == Column(b, ts[..|ts| - 1], i) + [ts[|ts| - 1].regs[i]]
  {
    hide Pow2;
  }

  lemma NoneNested()
    ensures forall xs: seq<bv8> | |xs| == 0 :: Nested(xs) && Folded(xs) == Largest(xs)
  {
  }

  lemma OneMore(xs: seq<bv8>, x: bv8)
    ensures Folded(xs + [x]) == MergeReg(Folded(xs), x) && Largest(xs + [x]) == Max(Largest(xs), x)
    ensures Nested(xs + [x]) <==> Nested(xs) && (Largest(xs) >= x || Inside(Largest(xs), x))
  {
    hide MergeReg, Max, Inside;
    assert (xs + [x])[..|xs|] == xs;
  }

  // ---------------------------------------------------------------- the final register

  /** xs[j] is the first of the largest registers. */
  predicate FirstLargest(xs: seq<bv8>, j: nat)
  {
    && j < |xs|
    && (forall i | 0 <= i < j :: xs[i] < xs[j])
    && (forall i | 0 <= i < |xs| :: xs[i] <= xs[j])
  }

  lemma LastIsNoLarger(xs: seq<bv8>, j: nat)
    requires FirstLargest(xs, j)
    ensures j < |xs| && xs[|xs| - 1] <= xs[j] && (j < |xs| - 1 ==> FirstLargest(xs[..|xs| - 1], j))
  {
  }

  lemma MergeIntoIff(g: bv8, m: bv8)
    ensures MergeReg(g, m) >= m
    ensures MergeReg(g, m) == m <==> Inside(g, m)
  {
  }

  lemma NoMore(f: bv8, m: bv8, x: bv8)
    requires x <= m <= f
    ensures MergeReg(f, x) == f
  {
  }

  /** After the first largest register nothing changes. */
  lemma {:induction false} FoldStops(xs: seq<bv8>, j: nat)
    requires FirstLargest(xs, j)
    ensures j < |xs| && Folded(xs) == MergeReg(Folded(xs[..j]), xs[j]) >= xs[j]
    decreases |xs|
  {
    hide MergeReg, FirstLargest;
    var n := |xs| - 1;
    LastIsNoLarger(xs, j);
    if j == n {
      MergeIntoIff(Folded(xs[..j]), xs[j]);
    } else {
      assert xs[..n][..j] == xs[..j];
      FoldStops(xs[..n], j);
      NoMore(Folded(xs[..n]), xs[j], xs[n]);
    }
  }

  /**
   The merged register is the maximum over all slots if and only if what the slots before
   the first largest one merge to has no bit outside that one.
   */
  lemma SumIsMaxIff(b: nat, ts: seq<Sketch>, i: nat, j: nat)
    requires 4 <= b <= 30 && AllOk(b, ts) && i < Pow2(b) && FirstLargest(Column(b, ts, i), j)
    ensures MergeAll(b, ts).regs[i] == ts[j].regs[i] <==> Inside(MergeAll(b, ts[..j]).regs[i], ts[j].regs[i])
  {
    hide MergeAll, MergeReg, Pow2;
    var xs := Column(b, ts, i);
    MergedRegister(b, ts, i);
    MergedRegister(b, ts[..j], i);
    assert Column(b, ts[..j], i) == xs[..j];
    FoldStops(xs, j);
    MergeIntoIff(Folded(xs[..j]), xs[j]);
  }

  // ---------------------------------------------------------------- two items

  /** A hash with register 0 and rank r. */
  lemma HashOfRank(b: nat, r: nat)
    requires 4 <= b && 1 <= r && 2 * b + r <= 32
    ensures Pow2(32 - b - r) < TWO32
    ensures Index(b, Pow2(32 - b - r)) == 0 && Rank(b, Pow2(32 - b - r)) == r
  {
    hide Pow2, IsRank, Rank;
    var h := Pow2(32 - b - r);
    ShiftedPower(b, r);
    TopPower(b, r);
    RankIsUnique(Pow2(32 - r), 32 - b, r, Rank(b, h));
    Pow2Add(32 - 2 * b - r, b);
    Multiple(Pow2(32 - 2 * b - r), Pow2(b));
  }

  lemma ShiftedPower(b: nat, r: nat)
    requires 4 <= b && 1 <= r && 2 * b + r <= 32
    ensures Pow2(32) == TWO32 && (Pow2(32 - b - r) * Pow2(b)) % TWO32 == Pow2(32 - r)
  {
    hide Pow2;
    Pow2Of32();
    Pow2Add(32 - b - r, b);
    TopPower(b, r);
    SmallMod(Pow2(32 - r), TWO32);
  }

  lemma SmallMod(x: nat, m: nat)
    requires x < m
    ensures x % m == x
  {
  }

  lemma TopPower(b: nat, r: nat)
    requires 4 <= b && 1 <= r && 2 * b + r <= 32
    ensures IsRank(Pow2(32 - r), 32 - b, r) && Pow2(32 - r) < Pow2(32) && Pow2(32 - b - r) < Pow2(32)
  {
    Pow2Monotone(33 - r, 32);
    Pow2Monotone(33 - b - r, 32);
  }

  lemma Multiple(a: nat, p: nat)
    requires p > 0
    ensures (a * p) % p == 0
  {
    var q, r := (a * p) / p, (a * p) % p;
    assert (a - q) * p == r;
    assert a - q >= 1 ==> (a - q) * p >= p;
    assert a - q <= -1 ==> (a - q) * p < 0;
  }

  lemma OneItem(b: nat, h: Hash)
    requires 4 <= b <= 30 && Index(b, h) == 0
    ensures After(Empty(b), [h]).regs[0] == RankByte(b, h)
  {
    hide Rank, RankByte;
    assert [h][..0] == [];
  }

  /**
   Merging depends on the order of the slots.  Two slots of one item each, both in register
   0, of rank 1 and 2: in this order the sum's register is 3, in the other it is 2.
   */
  lemma {:induction false} ItemsDependOnOrder(b: nat, g: nat, h: nat)
    requires 4 <= b <= 15 && g == Pow2(31 - b) && h == Pow2(30 - b)
    ensures g < TWO32 && h < TWO32
    ensures var s, t := After(Empty(b), [g]), After(Empty(b), [h]);
            MergeAll(b, [s, t]).regs[0] == 3 && MergeAll(b, [t, s]).regs[0] == 2
  {
    hide Pow2, Rank, RankByte, Index, After, MergeAll;
    HashOfRank(b, 1);
    HashOfRank(b, 2);
    OneItem(b, g);
    OneItem(b, h);
    RankByteIs(b, g);
    RankByteIs(b, h);
    var s, t := After(Empty(b), [g]), After(Empty(b), [h]);
    MergedRegister(b, [s, t], 0);
    MergedRegister(b, [t, s], 0);
    assert Column(b, [s, t], 0) == [1, 2] && Column(b, [t, s], 0) == [2, 1];
    OneAndTwo();
  }

  lemma OneAndTwo()
    ensures Folded([1, 2]) == 3 && Folded([2, 1]) == 2
  {
    var x: seq<bv8>, y: seq<bv8> := [1, 2], [2, 1];
    assert x[..1] == [1] && y[..1] == [2] && x[..1][..0] == [] && y[..1][..0] == [];
  }
}
