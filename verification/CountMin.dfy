/**
 The count-min sketch behind "countmin" fields.  Counters are unbounded integers
 here; the 32-bit hash arithmetic is written out.  The sketch's width, depth and
 hash coefficients are arbitrary.
 */
module CountMin {

  import opened Basics

  /** The pairwise hash coefficients {aj, bj}. */
  datatype Coeff = Coeff(a: int, b: int)

  datatype Sketch = Sketch(width: nat, hashes: seq<Coeff>, total: int, cells: seq<seq<int>>)

  predicate SketchOk(s: Sketch)
  {
    && s.width > 0 && |s.hashes| > 0 && |s.cells| == |s.hashes|
    && forall j | 0 <= j < |s.cells| :: |s.cells[j]| == s.width
  }

  /** (aj * item + bj) % w in unsigned 32-bit arithmetic. */
  function Column(h: Coeff, width: nat, item: int): (v: nat)
    requires width > 0
    ensures v < width
  {
    ((h.a * item + h.b) % TWO32) % width
  }

  /** Without a wrap-around the column is the remainder of the linear hash. */
  lemma ColumnIs(h: Coeff, width: nat, item: int)
    requires width > 0 && 0 <= h.a * item + h.b < TWO32
    ensures exists q :: h.a * item + h.b == q * width + Column(h, width, item)
  {
    var x := h.a * item + h.b;
    assert x % TWO32 == x;
    assert x == (x / width) * width + x % width;
  }

  /** djb2 over the characters before the first NUL, in 32 bits. */
  function HashStr(s: seq<int>): (h: int)
  {
    HashFrom(s, 5381)
  }

  function HashFrom(s: seq<int>, h: int): (r: int)
  {
    if s == [] || s[0] == 0 then h % TWO32 else HashFrom(s[1..], 33 * h + s[0])
  }

  lemma HashOfOne(c: int)
    requires c != 0
    ensures HashStr([c]) == (5381 * 33 + c) % TWO32
  {
    HashStep([c], 5381);
    assert [c][1..] == [];
    HashStep([], 33 * 5381 + c);
  }

  /** The characters as digits of base 33, after a leading 5381. */
  function Digits(s: seq<int>): (n: int)
  {
    if s == [] then 5381 else Digits(s[..|s| - 1]) * 33 + s[|s| - 1]
  }

  lemma {:induction false} HashIsDigits(s: seq<int>, k: nat)
    requires k <= |s| && forall i | 0 <= i < |s| :: s[i] != 0
    ensures HashFrom(s[k..], Digits(s[..k])) == Digits(s) % TWO32
    decreases |s| - k
  {
    if k == |s| {
      assert s[..k] == s && s[k..] == [];
    } else {
      HashIsDigits(s, k + 1);
      assert s[..k + 1][..k] == s[..k] && s[k..][1..] == s[k + 1..];
    }
  }

  const UINT64: int := 0x1_0000_0000_0000_0000

  /** Only the low 32 bits of the running hash matter. */
  lemma {:induction false} HashCongruent(s: seq<int>, h: int, k: int)
    requires h % TWO32 == k % TWO32
    ensures HashFrom(s, h) == HashFrom(s, k)
    decreases |s|
  {
    if s != [] && s[0] != 0 {
      TimesCongruent(h, k, s[0]);
      HashCongruent(s[1..], 33 * h + s[0], 33 * k + s[0]);
    }
  }

  lemma TimesCongruent(h: int, k: int, c: int)
    requires h % TWO32 == k % TWO32
    ensures (33 * h + c) % TWO32 == (33 * k + c) % TWO32
  {
    var p, q := h / TWO32, k / TWO32;
    assert 33 * h + c == 33 * k + c + 33 * (p - q) * TWO32;
  }

  function Wrap64(x: int): (r: int)
  {
    x % UINT64
  }

  lemma Wrapped(s: seq<int>, x: int)
    ensures HashFrom(s, Wrap64(x)) == HashFrom(s, x)
  {
    hide HashFrom;
    LowBits(x);
    HashCongruent(s, x, Wrap64(x));
  }

  lemma LowBits(x: int)
    ensures x % TWO32 == Wrap64(x) % TWO32
  {
    var r, q := x % UINT64, x / UINT64;
    AddMultiple(r, q * TWO32);
    assert x == r + q * TWO32 * TWO32;
  }

  lemma AddMultiple(r: int, n: int)
    ensures (r + n * TWO32) % TWO32 == r % TWO32
  {
    var a, b := r / TWO32, r % TWO32;
    assert r + n * TWO32 == (a + n) * TWO32 + b;
  }

  /** hashstr: the running hash has 64 bits, the result 32. */
  method HashString(str: seq<int>) returns (h: int)
    ensures h == HashStr(str)
  {
    hide HashFrom, Wrap64;
    var hash, i := 5381, 0;
    assert str[0..] == str;
    while i < |str| && str[i] != 0
      invariant i <= |str| && HashFrom(str[i..], hash) == HashStr(str)
    {
      HashStep(str[i..], hash);
      assert str[i..][1..] == str[i + 1..];
      Wrapped(str[i + 1..], 33 * hash + str[i]);
      hash := Wrap64(33 * hash + str[i]);
      i := i + 1;
    }
    HashStep(str[i..], hash);
    h := hash % TWO32;
  }

  lemma HashStep(s: seq<int>, h: int)
    ensures HashFrom(s, h) == if s == [] || s[0] == 0 then h % TWO32 else HashFrom(s[1..], 33 * h + s[0])
  {
  }

  // ---------------------------------------------------------------- the sketch as a value

  function Empty(width: nat, hashes: seq<Coeff>): (s: Sketch)
    requires width > 0 && |hashes| > 0
    ensures SketchOk(s)
  {
    Sketch(width, hashes, 0, seq(|hashes|, j => seq(width, v => 0)))
  }

  function Erase(s: Sketch): (r: Sketch)
    requires SketchOk(s)
    ensures SketchOk(r)
  {
    Empty(s.width, s.hashes)
  }

  function Bump(row: seq<int>, v: nat, c: int): (r: seq<int>)
    requires v < |row|
  {
    row[v := row[v] + c]
  }

  function Update(s: Sketch, item: int, c: int): (r: Sketch)
    requires SketchOk(s)
    ensures SketchOk(r) && r.width == s.width && r.hashes == s.hashes
  {
    s.(total := s.total + c,
       cells := seq(|s.cells|, j requires 0 <= j < |s.cells| => Bump(s.cells[j], Column(s.hashes[j], s.width, item), c)))
  }

  /** The minimum over the rows, starting from the largest int. */
  function EstimateRows(s: Sketch, item: int, d: nat): (m: int)
    requires SketchOk(s) && d <= |s.cells|
  {
    if d == 0 then INT_MAX
    else
      var m := EstimateRows(s, item, d - 1);
      var x := s.cells[d - 1][Column(s.hashes[d - 1], s.width, item)];
      if x < m then x else m
  }

  function Estimate(s: Sketch, item: int): (m: int)
    requires SketchOk(s)
  {
    EstimateRows(s, item, |s.cells|)
  }

  // ---------------------------------------------------------------- what the counters mean

  /** One update: an item and a count. */
  datatype Count = Count(item: int, c: int)

  function After(s: Sketch, log: seq<Count>): (r: Sketch)
    requires SketchOk(s)
    ensures SketchOk(r) && r.width == s.width && r.hashes == s.hashes
  {
    if log == [] then s else Update(After(s, log[..|log| - 1]), log[|log| - 1].item, log[|log| - 1].c)
  }

  function Sum(log: seq<Count>): (n: int)
  {
    if log == [] then 0 else Sum(log[..|log| - 1]) + log[|log| - 1].c
  }

  /** How often an item was really counted. */
  function TrueCount(log: seq<Count>, item: int): (n: int)
  {
    if log == [] then 0
    else TrueCount(log[..|log| - 1], item) + if log[|log| - 1].item == item then log[|log| - 1].c else 0
  }

  /** The updates that fall in column v under hash h. */
  function ColumnCount(log: seq<Count>, h: Coeff, width: nat, v: nat): (n: int)
    requires width > 0
  {
    if log == [] then 0
    else ColumnCount(log[..|log| - 1], h, width, v)
         + if Column(h, width, log[|log| - 1].item) == v then log[|log| - 1].c else 0
  }

  /** Every counter is the count of its column, whatever the order of the updates. */
  lemma {:induction false} CellIsColumnCount(width: nat, hashes: seq<Coeff>, log: seq<Count>, j: nat, v: nat)
    requires width > 0 && j < |hashes| && v < width
    ensures After(Empty(width, hashes), log).cells[j][v] == ColumnCount(log, hashes[j], width, v)
    ensures After(Empty(width, hashes), log).total == Sum(log)
  {
    if log != [] {
      CellIsColumnCount(width, hashes, log[..|log| - 1], j, v);
    }
  }

  ghost predicate NonNegative(log: seq<Count>)
  {
    forall i | 0 <= i < |log| :: log[i].c >= 0
  }

  /** An item's own updates all fall in its column, and a column holds no more than everything. */
  lemma {:induction false} ColumnBounds(log: seq<Count>, h: Coeff, width: nat, item: int)
    requires width > 0 && NonNegative(log)
    ensures 0 <= TrueCount(log, item) <= ColumnCount(log, h, width, Column(h, width, item)) <= Sum(log)
  {
    if log != [] {
      ColumnBounds(log[..|log| - 1], h, width, item);
    }
  }

  function SumTo(row: seq<int>): (n: int)
  {
    if row == [] then 0 else SumTo(row[..|row| - 1]) + row[|row| - 1]
  }

  lemma {:induction false} BumpAddsOnce(row: seq<int>, v: nat, c: int)
    requires v < |row|
    ensures SumTo(Bump(row, v, c)) == SumTo(row) + c
  {
    var b := Bump(row, v, c);
    var k := |row| - 1;
    if v == k {
      assert b[..k] == row[..k];
    } else {
      BumpAddsOnce(row[..k], v, c);
      assert b[..k] == Bump(row[..k], v, c);
    }
  }

  lemma {:induction false} ZeroRow(n: nat)
    ensures SumTo(seq(n, v => 0)) == 0
  {
    if n > 0 {
      ZeroRow(n - 1);
      assert seq(n, v => 0)[..n - 1] == seq(n - 1, v => 0);
    }
  }

  /** Every row sums to the total. */
  lemma {:induction false} RowsSumToTotal(width: nat, hashes: seq<Coeff>, log: seq<Count>, j: nat)
    requires width > 0 && j < |hashes|
    ensures SumTo(After(Empty(width, hashes), log).cells[j]) == After(Empty(width, hashes), log).total
  {
    if log == [] {
      ZeroRow(width);
    } else {
      var s, last := After(Empty(width, hashes), log[..|log| - 1]), log[|log| - 1];
      RowsSumToTotal(width, hashes, log[..|log| - 1], j);
      BumpAddsOnce(s.cells[j], Column(hashes[j], width, last.item), last.c);
    }
  }

  lemma {:induction false} EstimateRowsBounds(width: nat, hashes: seq<Coeff>, log: seq<Count>, item: int, d: nat)
    requires width > 0 && NonNegative(log) && Sum(log) <= INT_MAX && d <= |hashes|
    requires |hashes| > 0
    ensures var m := EstimateRows(After(Empty(width, hashes), log), item, d);
            TrueCount(log, item) <= m && (d > 0 ==> m <= Sum(log))
  {
    if d == 0 {
      ColumnBounds(log, hashes[0], width, item);
    } else {
      EstimateRowsBounds(width, hashes, log, item, d - 1);
      ColumnBounds(log, hashes[d - 1], width, item);
      CellIsColumnCount(width, hashes, log, d - 1, Column(hashes[d - 1], width, item));
    }
  }

  /** The sketch never under-counts and never counts more than everything. */
  lemma {:induction false} NeverUnderCounts(width: nat, hashes: seq<Coeff>, log: seq<Count>, item: int)
    requires width > 0 && |hashes| > 0 && NonNegative(log) && Sum(log) <= INT_MAX
    ensures var s := After(Empty(width, hashes), log);
            TrueCount(log, item) <= Estimate(s, item) <= s.total
  {
    EstimateRowsBounds(width, hashes, log, item, |hashes|);
    CellIsColumnCount(width, hashes, log, 0, 0);
  }

  /** The estimate is the smallest counter of the item, or the largest int if all are larger. */
  lemma {:induction false} EstimateRowsMin(s: Sketch, item: int, d: nat)
    requires SketchOk(s) && d <= |s.cells|
    ensures var m := EstimateRows(s, item, d);
            && m <= INT_MAX && (forall j | 0 <= j < d :: m <= s.cells[j][Column(s.hashes[j], s.width, item)])
            && (m == INT_MAX || exists j :: 0 <= j < d && m == s.cells[j][Column(s.hashes[j], s.width, item)])
  {
    if d > 0 {
      EstimateRowsMin(s, item, d - 1);
    }
  }

  /** What a row has counted in the item's column. */
  function RowCount(log: seq<Count>, h: Coeff, width: nat, item: int): (n: int)
    requires width > 0
  {
    ColumnCount(log, h, width, Column(h, width, item))
  }

  lemma EstimateIsMin(width: nat, hashes: seq<Coeff>, log: seq<Count>, item: int)
    requires width > 0 && |hashes| > 0
    ensures var m := Estimate(After(Empty(width, hashes), log), item);
            && m <= INT_MAX && (forall j | 0 <= j < |hashes| :: m <= RowCount(log, hashes[j], width, item))
            && (m == INT_MAX || exists j :: 0 <= j < |hashes| && m == RowCount(log, hashes[j], width, item))
  {
    hide ColumnCount, Column, After, EstimateRows;
    var s := After(Empty(width, hashes), log);
    EstimateRowsMin(s, item, |hashes|);
    forall j | 0 <= j < |hashes|
      ensures s.cells[j][Column(s.hashes[j], s.width, item)] == RowCount(log, hashes[j], width, item)
    {
      CellIsColumnCount(width, hashes, log, j, Column(hashes[j], width, item));
    }
  }

  /** No other item was counted in the item's column. */
  ghost predicate Alone(log: seq<Count>, h: Coeff, width: nat, item: int)
    requires width > 0
  {
    forall i | 0 <= i < |log| && log[i].item != item && log[i].c != 0 :: Column(h, width, log[i].item) != Column(h, width, item)
  }

  lemma {:induction false} AloneIff(log: seq<Count>, h: Coeff, width: nat, item: int)
    requires width > 0 && NonNegative(log)
    ensures Alone(log, h, width, item) <==> RowCount(log, h, width, item) == TrueCount(log, item)
  {
    hide Column;
    if log != [] {
      var rest := log[..|log| - 1];
      AloneIff(rest, h, width, item);
      ColumnBounds(rest, h, width, item);
      assert Alone(log, h, width, item) <==>
             Alone(rest, h, width, item)
             && (log[|rest|].item != item && log[|rest|].c != 0 ==> Column(h, width, log[|rest|].item) != Column(h, width, item)) by {
        AloneSnoc(log, h, width, item);
      }
    }
  }

  lemma AloneSnoc(log: seq<Count>, h: Coeff, width: nat, item: int)
    requires width > 0 && log != []
    ensures var rest, e := log[..|log| - 1], log[|log| - 1];
            Alone(log, h, width, item)
            <==> Alone(rest, h, width, item) && (e.item != item && e.c != 0 ==> Column(h, width, e.item) != Column(h, width, item))
  {
    hide Column;
    var rest := log[..|log| - 1];
    if Alone(log, h, width, item) {
      forall i | 0 <= i < |rest| && rest[i].item != item && rest[i].c != 0
        ensures Column(h, width, rest[i].item) != Column(h, width, item)
      {
        assert log[i] == rest[i];
      }
    }
  }

  /** The estimate is exact if and only if in some row nothing else was counted in the item's column. */
  lemma EstimateExactIff(width: nat, hashes: seq<Coeff>, log: seq<Count>, item: int)
    requires width > 0 && |hashes| > 0 && NonNegative(log) && Sum(log) <= INT_MAX
    ensures Estimate(After(Empty(width, hashes), log), item) == TrueCount(log, item)
       <==> exists j :: 0 <= j < |hashes| && Alone(log, hashes[j], width, item)
  {
    hide ColumnCount, Column, After, EstimateRows, Alone, TrueCount, Sum;
    EstimateIsMin(width, hashes, log, item);
    forall j | 0 <= j < |hashes|
      ensures Alone(log, hashes[j], width, item) <==> RowCount(log, hashes[j], width, item) == TrueCount(log, item)
      ensures TrueCount(log, item) <= RowCount(log, hashes[j], width, item) <= Sum(log)
    {
      AloneIff(log, hashes[j], width, item);
      ColumnBounds(log, hashes[j], width, item);
    }
    assert RowCount(log, hashes[0], width, item) <= INT_MAX;
  }

  // ---------------------------------------------------------------- two sketches with coefficients of their own

  /** Every item falls in the same column of every row. */
  ghost predicate SameColumns(width: nat, a: seq<Coeff>, b: seq<Coeff>)
    requires width > 0
  {
    |a| == |b| && forall j, item | 0 <= j < |a| :: Column(a[j], width, item) == Column(b[j], width, item)
  }

  ghost predicate SameCells(width: nat, a: seq<Coeff>, b: seq<Coeff>, log: seq<Count>)
    requires width > 0 && |a| > 0 && |b| > 0
  {
    After(Empty(width, a), log).cells == After(Empty(width, b), log).cells
  }

  /** Totals do not depend on the coefficients. */
  lemma {:induction false} TotalIsSum(width: nat, hashes: seq<Coeff>, log: seq<Count>)
    requires width > 0 && |hashes| > 0
    ensures After(Empty(width, hashes), log).total == Sum(log)
  {
    if log != [] {
      TotalIsSum(width, hashes, log[..|log| - 1]);
    }
  }

  lemma {:induction false} SameColumnsSameCells(width: nat, a: seq<Coeff>, b: seq<Coeff>, log: seq<Count>)
    requires width > 0 && |a| > 0 && SameColumns(width, a, b)
    ensures SameCells(width, a, b, log)
  {
    hide Column;
    if log == [] {
    } else {
      var rest, e := log[..|log| - 1], log[|log| - 1];
      SameColumnsSameCells(width, a, b, rest);
      var p, q := After(Empty(width, a), log).cells, After(Empty(width, b), log).cells;
      forall j | 0 <= j < |a|
        ensures p[j] == q[j]
      {
        assert Column(a[j], width, e.item) == Column(b[j], width, e.item);
      }
      assert p == q;
    }
  }

  /** An item whose columns differ somewhere tells the two apart when it is counted once. */
  lemma OneItemDiverges(width: nat, a: seq<Coeff>, b: seq<Coeff>, j: nat, item: int)
    requires width > 0 && |a| == |b| && j < |a| && Column(a[j], width, item) != Column(b[j], width, item)
    ensures !SameCells(width, a, b, [Count(item, 1)])
  {
    hide Column;
    var log := [Count(item, 1)];
    assert log[..0] == [];
    var v := Column(a[j], width, item);
    assert After(Empty(width, a), log).cells[j][v] == 1;
    assert After(Empty(width, b), log).cells[j][v] == 0;
  }

  /** The counters agree after every sequence of updates if and only if every item has the same columns. */
  lemma CellsAgreeIff(width: nat, a: seq<Coeff>, b: seq<Coeff>)
    requires width > 0 && |a| == |b| > 0
    ensures (forall log :: SameCells(width, a, b, log)) <==> SameColumns(width, a, b)
  {
    hide SameCells;
    if SameColumns(width, a, b) {
      forall log ensures SameCells(width, a, b, log) {
        SameColumnsSameCells(width, a, b, log);
      }
    } else {
      var j, item :| 0 <= j < |a| && Column(a[j], width, item) != Column(b[j], width, item);
      OneItemDiverges(width, a, b, j, item);
    }
  }

  /** Coefficients that are equal modulo 2^32 give the same columns. */
  lemma {:induction false} CongruentCoefficients(width: nat, a: seq<Coeff>, b: seq<Coeff>)
    requires width > 0 && |a| == |b|
    requires forall j | 0 <= j < |a| :: (a[j].a - b[j].a) % TWO32 == 0 && (a[j].b - b[j].b) % TWO32 == 0
    ensures SameColumns(width, a, b)
  {
    forall j, item | 0 <= j < |a|
      ensures Column(a[j], width, item) == Column(b[j], width, item)
    {
      var p, q := (a[j].a - b[j].a) / TWO32, (a[j].b - b[j].b) / TWO32;
      var x := b[j].a * item + b[j].b;
      Spread(b[j].a, p, b[j].b, q, item);
      AddMultiple(x, p * item + q);
    }
  }

  lemma Spread(a: int, p: int, b: int, q: int, item: int)
    ensures (a + p * TWO32) * item + (b + q * TWO32) == (a * item + b) + (p * item + q) * TWO32
  {
  }

  /** Two sketches of one row and two columns that count the item 0 apart. */
  lemma CellsDiffer()
    ensures !SameCells(2, [Coeff(1, 0)], [Coeff(1, 1)], [Count(0, 1)])
  {
    OneItemDiverges(2, [Coeff(1, 0)], [Coeff(1, 1)], 0, 0);
  }

  // ---------------------------------------------------------------- the sketch in place

  class CountMinSketch {
    const width: nat
    const hashes: seq<Coeff>
    const counters: array2<int>
    var total: int

    ghost predicate Valid()
      reads this
    {
      width > 0 && |hashes| > 0 && counters.Length0 == |hashes| && counters.Length1 == width
    }

    ghost function Value(): (s: Sketch)
      requires Valid()
      reads this, counters
      ensures SketchOk(s)
    {
      Sketch(width, hashes, total,
             seq(|hashes|, j requires 0 <= j < |hashes| reads counters =>
                   seq(width, v requires 0 <= v < width reads counters => counters[j, v])))
    }

    constructor (width: nat, hashes: seq<Coeff>)
      requires width > 0 && |hashes| > 0
      ensures Valid() && fresh(counters) && Value() == Empty(width, hashes)
    {
      this.width, this.hashes, this.total := width, hashes, 0;
      counters := new int[|hashes|, width]((i, j) => 0);
      new;
      forall j | 0 <= j < |hashes|
        ensures Value().cells[j] == Empty(width, hashes).cells[j]
      {
      }
      assert Value().cells == Empty(width, hashes).cells;
    }

    method Add(item: int, c: int)
      requires Valid()
      modifies this, counters
      ensures Valid() && Value() == Update(old(Value()), item, c)
    {
      total := total + c;
      for j := 0 to |hashes|
        invariant Valid() && total == old(total) + c
        invariant forall i, v | 0 <= i < |hashes| && 0 <= v < width ::
                    counters[i, v] == old(counters[i, v]) + if i < j && v == Column(hashes[i], width, item) then c else 0
      {
        var hashval := Column(hashes[j], width, item);
        counters[j, hashval] := counters[j, hashval] + c;
      }
      ghost var s := Update(old(Value()), item, c);
      forall j | 0 <= j < |hashes|
        ensures Value().cells[j] == s.cells[j]
      {
      }
      assert Value().cells == s.cells;
    }

    method Query(item: int) returns (minval: int)
      requires Valid()
      ensures minval == Estimate(Value(), item)
      ensures minval <= INT_MAX && forall j | 0 <= j < |hashes| :: minval <= counters[j, Column(hashes[j], width, item)]
      ensures minval == INT_MAX || exists j :: 0 <= j < |hashes| && minval == counters[j, Column(hashes[j], width, item)]
    {
      minval := INT_MAX;
      for j := 0 to |hashes|
        invariant minval == EstimateRows(Value(), item, j)
      {
        var hashval := Column(hashes[j], width, item);
        if counters[j, hashval] < minval {
          minval := counters[j, hashval];
        }
      }
      EstimateRowsMin(Value(), item, |hashes|);
    }

    method EraseAll()
      requires Valid()
      modifies this, counters
      ensures Valid() && Value() == Erase(old(Value()))
    {
      for i := 0 to |hashes|
        invariant Valid()
        invariant forall k, v | 0 <= k < i && 0 <= v < width :: counters[k, v] == 0
      {
        for j := 0 to width
          invariant Valid()
          invariant forall k, v | 0 <= k < i && 0 <= v < width :: counters[k, v] == 0
          invariant forall v | 0 <= v < j :: counters[i, v] == 0
        {
          counters[i, j] := 0;
        }
      }
      total := 0;
      forall j | 0 <= j < |hashes|
        ensures Value().cells[j] == Empty(width, hashes).cells[j]
      {
      }
      assert Value().cells == Empty(width, hashes).cells;
    }
  }
}
