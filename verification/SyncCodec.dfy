/**
 The byte form of the members in a full synchronisation, and the round trip of whole
 databases through it.  How a count-min sketch is sized from its two floats is an argument.
 */
module SyncCodec {

  import opened Basics
  import opened Rings
  import opened Members
  import opened Sharding
  import FS = FullSync
  import DB = StatsDBs
  import R = Replication
  import C = CountMin
  import H = HyperLogLogs
  import N = Nonces

  type Bytes = seq<N.Byte>

  // ---------------------------------------------------------------- 32-bit words

  /** A word in the order of a little-endian host, as the sketches write it. */
  function HostBytes(u: nat): (s: Bytes)
    requires u < TWO32
    ensures |s| == 4
  {
    var b := N.CounterBytes(u);
    [b[3], b[2], b[1], b[0]]
  }

  function HostWord(s: Bytes): (u: nat)
    requires |s| >= 4
    ensures u < TWO32
  {
    Word(s[3], s[2], s[1], s[0])
  }

  function Word(a: N.Byte, b: N.Byte, c: N.Byte, d: N.Byte): (u: nat)
    ensures u < TWO32
  {
    N.BigEndian(a, b, c, d)
  }

  lemma WordRoundTrip(u: nat)
    requires u < TWO32
    ensures var b := N.CounterBytes(u); Word(b[0], b[1], b[2], b[3]) == u
  {
    assert u / 0x1_0000 == u / 256 / 256 && u / 0x100_0000 == u / 256 / 256 / 256;
  }

  function PutWords(ws: seq<int>): (s: Bytes)
    ensures |s| == 4 * |ws|
  {
    if ws == [] then [] else HostBytes(R.ToUnsigned(ws[0])) + PutWords(ws[1..])
  }

  /** The first n words of a stream. */
  function TakeWords(s: Bytes, n: nat): (ws: seq<int>)
    requires |s| >= 4 * n
    ensures |ws| == n
  {
    if n == 0 then [] else [HostWord(s)] + TakeWords(s[4..], n - 1)
  }

  function Unsigned(ws: seq<int>): (r: seq<int>)
    ensures |r| == |ws|
  {
    seq(|ws|, i requires 0 <= i < |ws| => R.ToUnsigned(ws[i]))
  }

  lemma FirstWord(u: nat, rest: Bytes)
    requires u < TWO32
    ensures HostWord(HostBytes(u) + rest) == u && (HostBytes(u) + rest)[4..] == rest
  {
    hide Word, N.CounterBytes;
    WordRoundTrip(u);
  }

  lemma {:induction false} WordsRoundTrip(ws: seq<int>)
    ensures TakeWords(PutWords(ws), |ws|) == Unsigned(ws)
  {
    hide HostBytes, HostWord, R.ToUnsigned;
    if ws == [] {
    } else {
      WordsRoundTrip(ws[1..]);
      FirstWord(R.ToUnsigned(ws[0]), PutWords(ws[1..]));
      assert Unsigned(ws) == [R.ToUnsigned(ws[0])] + Unsigned(ws[1..]);
    }
  }

  // ---------------------------------------------------------------- integers

  /** The bytes of htonl(i). */
  function PutInt(i: int): (s: Bytes)
    ensures |s| == 4
  {
    N.CounterBytes(R.ToUnsigned(i))
  }

  /** The most significant byte comes first. */
  lemma IntBytesAre(i: int)
    ensures var s := PutInt(i);
            i % TWO32 == Weighted(s[3], s[2], s[1], s[0])
  {
    WordRoundTrip(R.ToUnsigned(i));
  }

  /** Four bytes, least significant first. */
  function Weighted(a: int, b: int, c: int, d: int): (n: int)
  {
    a + b * 256 + c * 0x1_0000 + d * 0x100_0000
  }

  /** A short stream leaves the remaining bytes zero. */
  function GetInt(s: Bytes): (i: int)
  {
    var t := s + [0, 0, 0, 0];
    R.ToSigned(Word(t[0], t[1], t[2], t[3]))
  }

  /** Integers, negative ones included, come back exactly if they are ints. */
  lemma {:induction false} IntRoundTrip(i: int)
    ensures GetInt(PutInt(i)) == i <==> R.IsInt(i)
  {
    WordRoundTrip(R.ToUnsigned(i));
    R.SignedRoundTrip(i);
  }

  // ---------------------------------------------------------------- HyperLogLog

  function PutHll(h: H.Sketch): (s: Bytes)
    requires H.SketchOk(h)
  {
    [h.b] + seq(|h.regs|, i requires 0 <= i < |h.regs| => h.regs[i] as int)
  }

  lemma HllLayout(h: H.Sketch, i: nat)
    requires H.SketchOk(h) && i < |h.regs|
    ensures PutHll(h)[0] == h.b && PutHll(h)[i + 1] == h.regs[i] as int && |PutHll(h)| == |h.regs| + 1
  {
  }

  /** None if the constructor or the read throws. */
  function GetHll(s: Bytes): (h: Option<H.Sketch>)
    ensures h.Some? ==> H.SketchOk(h.value)
  {
    if s == [] || s[0] < 4 || s[0] > 30 || |s| < 1 + H.Pow2(s[0]) then None
    else Some(H.Sketch(s[0], seq(H.Pow2(s[0]), i requires 0 <= i < H.Pow2(s[0]) => s[i + 1] as bv8)))
  }

  lemma HllRoundTrip(h: H.Sketch)
    requires H.SketchOk(h)
    ensures GetHll(PutHll(h)) == Some(h)
  {
    hide H.Pow2;
    var s := PutHll(h);
    var r := GetHll(s).value;
    forall i | 0 <= i < |h.regs|
      ensures r.regs[i] == h.regs[i]
    {
      ByteRoundTrip(h.regs[i]);
    }
    assert r.regs == h.regs;
  }

  lemma ByteRoundTrip(x: bv8)
    ensures 0 <= x as int < 256 && (x as int) as bv8 == x
  {
  }

  // ---------------------------------------------------------------- count-min

  /** Width and depth as the constructor computes them; None where it exits. */
  datatype Size = Size(width: nat, depth: nat)

  type Sizing = Shape -> Option<Size>

  function Flat(rows: seq<seq<int>>): (ws: seq<int>)
  {
    if rows == [] then [] else rows[0] + Flat(rows[1..])
  }

  function Rows(ws: seq<int>, d: nat, w: nat): (rows: seq<seq<int>>)
    requires |ws| == d * w
    ensures |rows| == d && forall j | 0 <= j < d :: |rows[j]| == w
  {
    if d == 0 then [] else
      OneRowLess(d, w);
      [ws[..w]] + Rows(ws[w..], d - 1, w)
  }

  lemma OneRowLess(d: nat, w: nat)
    requires d > 0
    ensures d * w >= w && d * w - w == (d - 1) * w
  {
  }

  lemma {:induction false} RowsOfFlat(rows: seq<seq<int>>, w: nat)
    requires forall j | 0 <= j < |rows| :: |rows[j]| == w
    ensures |Flat(rows)| == |rows| * w && Rows(Flat(rows), |rows|, w) == rows
  {
    if rows == [] {
    } else {
      RowsOfFlat(rows[1..], w);
      OneRowLess(|rows|, w);
      var ws := Flat(rows);
      assert ws[..w] == rows[0] && ws[w..] == Flat(rows[1..]);
    }
  }

  function Spread(hs: seq<C.Coeff>): (ws: seq<int>)
    ensures |ws| == 2 * |hs|
  {
    if hs == [] then [] else [hs[0].a, hs[0].b] + Spread(hs[1..])
  }

  function Pairs(ws: seq<int>, d: nat): (hs: seq<C.Coeff>)
    requires |ws| == 2 * d
    ensures |hs| == d
  {
    if d == 0 then [] else [C.Coeff(ws[0], ws[1])] + Pairs(ws[2..], d - 1)
  }

  lemma {:induction false} PairsOfSpread(hs: seq<C.Coeff>)
    ensures Pairs(Spread(hs), |hs|) == hs
  {
    if hs == [] {
    } else {
      PairsOfSpread(hs[1..]);
      assert Spread(hs)[2..] == Spread(hs[1..]);
    }
  }

  function Signed(ws: seq<int>): (r: seq<int>)
    requires forall i | 0 <= i < |ws| :: ws[i] >= 0
    ensures |r| == |ws|
  {
    seq(|ws|, i requires 0 <= i < |ws| => R.ToSigned(ws[i]))
  }

  predicate AllInts(ws: seq<int>)
  {
    forall i | 0 <= i < |ws| :: R.IsInt(ws[i])
  }

  function CmWords(sh: Shape, c: C.Sketch): (ws: seq<int>)
  {
    [sh.eps, sh.gamma, c.total] + (Flat(c.cells) + Spread(c.hashes))
  }

  function PutCm(sh: Shape, c: C.Sketch): (s: Bytes)
  {
    PutWords(CmWords(sh, c))
  }

  /** None if the stream is too short, or the constructor exits. */
  function GetCm(sizing: Sizing, s: Bytes): (r: Option<(Shape, C.Sketch)>)
    ensures r.Some? ==> C.SketchOk(r.value.1)
  {
    if |s| < 8 then None else
      var two := TakeWords(s, 2);
      var sh := Shape(two[0], two[1]);
      match sizing(sh)
      case None => None
      case Some(Size(w, d)) =>
        if w == 0 || d == 0 || |s| < 4 * (3 + d * w + 2 * d) then None else
          var ws := TakeWords(s, 3 + d * w + 2 * d);
          WordsAreUnsigned(s, 3 + d * w + 2 * d);
          var body := Signed(ws[3..]);
          Some((sh, C.Sketch(w, Pairs(body[d * w..], d), ws[2], Rows(body[..d * w], d, w))))
  }

  lemma {:induction false} WordsAreUnsigned(s: Bytes, n: nat)
    requires |s| >= 4 * n
    ensures forall i | 0 <= i < n :: TakeWords(s, n)[i] >= 0
  {
    if n > 0 { WordsAreUnsigned(s[4..], n - 1); }
  }

  lemma {:induction false} TakePrefix(s: Bytes, n: nat, k: nat)
    requires k <= n && |s| >= 4 * n
    ensures TakeWords(s, k) == TakeWords(s, n)[..k]
  {
    if k > 0 {
      TakePrefix(s[4..], n - 1, k - 1);
      assert TakeWords(s, n)[..k] == [HostWord(s)] + TakeWords(s[4..], n - 1)[..k - 1];
    }
  }

  /** The values that fit the words they are written to, and the size the peer will compute. */
  predicate CmSendable(sizing: Sizing, sh: Shape, c: C.Sketch)
  {
    && C.SketchOk(c) && sizing(sh) == Some(Size(c.width, |c.hashes|))
    && 0 <= sh.eps < TWO32 && 0 <= sh.gamma < TWO32 && 0 <= c.total < TWO32
    && AllInts(Flat(c.cells)) && AllInts(Spread(c.hashes))
  }

  lemma SignedUnsigned(ws: seq<int>)
    requires AllInts(ws)
    ensures Signed(Unsigned(ws)) == ws
  {
    forall i | 0 <= i < |ws|
      ensures Signed(Unsigned(ws))[i] == ws[i]
    {
      R.SignedRoundTrip(ws[i]);
    }
  }

  lemma CmRoundTrip(sizing: Sizing, sh: Shape, c: C.Sketch)
    requires CmSendable(sizing, sh, c)
    ensures GetCm(sizing, PutCm(sh, c)) == Some((sh, c))
  {
    hide TakeWords, PutWords, Flat, Rows, Spread, Pairs, AllInts, Signed;
    var w, d, all, s := c.width, |c.hashes|, CmWords(sh, c), PutCm(sh, c);
    RowsOfFlat(c.cells, w);
    PairsOfSpread(c.hashes);
    var body := Flat(c.cells) + Spread(c.hashes);
    assert |all| == 3 + d * w + 2 * d;
    WordsRoundTrip(all);
    TakePrefix(s, |all|, 2);
    var ws := Unsigned(all);
    assert ws[0] == sh.eps && ws[1] == sh.gamma && ws[2] == c.total;
    assert ws[3..] == Unsigned(body);
    BothInts(Flat(c.cells), Spread(c.hashes));
    SignedUnsigned(body);
    assert body[..d * w] == Flat(c.cells) && body[d * w..] == Spread(c.hashes);
  }

  lemma BothInts(a: seq<int>, b: seq<int>)
    requires AllInts(a) && AllInts(b)
    ensures AllInts(a + b)
  {
  }

  /** Word k of a stream, least significant byte first. */
  function WordAt(s: Bytes, k: nat): (u: int)
    requires 4 * k + 4 <= |s|
  {
    Weighted(s[4 * k], s[4 * k + 1], s[4 * k + 2], s[4 * k + 3])
  }

  lemma {:induction false} WordsAt(ws: seq<int>, k: nat)
    requires k < |ws|
    ensures WordAt(PutWords(ws), k) == ws[k] % TWO32
  {
    hide HostBytes;
    var s := PutWords(ws);
    if k == 0 {
      HostBytesAre(R.ToUnsigned(ws[0]));
    } else {
      WordsAt(ws[1..], k - 1);
      assert s[4..] == PutWords(ws[1..]);
      assert WordAt(s, k) == WordAt(s[4..], k - 1);
    }
  }

  lemma HostBytesAre(u: nat)
    requires u < TWO32
    ensures WordAt(HostBytes(u), 0) == u
  {
    WordRoundTrip(u);
  }

  lemma {:induction false} FlatAt(rows: seq<seq<int>>, w: nat, j: nat, v: nat)
    requires (forall i | 0 <= i < |rows| :: |rows[i]| == w) && j < |rows| && v < w
    ensures |Flat(rows)| == |rows| * w && j * w + v < |Flat(rows)| && Flat(rows)[j * w + v] == rows[j][v]
  {
    RowsOfFlat(rows, w);
    if j == 0 {
      FirstRow(|rows|, w, v);
    } else {
      FlatAt(rows[1..], w, j - 1, v);
      NextRow(j, w);
      assert Flat(rows)[w..] == Flat(rows[1..]);
    }
  }

  lemma FirstRow(n: nat, w: nat, v: nat)
    requires n > 0 && v < w
    ensures 0 * w + v == v < n * w
  {
    OneRowLess(n, w);
  }

  lemma NextRow(j: nat, w: nat)
    requires j > 0
    ensures j * w == (j - 1) * w + w
  {
  }

  lemma {:induction false} SpreadAt(hs: seq<C.Coeff>, j: nat)
    requires j < |hs|
    ensures Spread(hs)[2 * j] == hs[j].a && Spread(hs)[2 * j + 1] == hs[j].b
  {
    if j > 0 {
      SpreadAt(hs[1..], j - 1);
      assert Spread(hs)[2..] == Spread(hs[1..]);
    }
  }

  lemma CmWordsAre(sh: Shape, c: C.Sketch, j: nat, v: nat, n: nat, k: nat)
    requires C.SketchOk(c) && j < |c.hashes| && v < c.width && n == |c.hashes| * c.width && k == j * c.width + v
    ensures var ws := CmWords(sh, c);
            && |ws| == 3 + n + 2 * |c.hashes| && k < n
            && ws[0] == sh.eps && ws[1] == sh.gamma && ws[2] == c.total && ws[3 + k] == c.cells[j][v]
            && ws[3 + n + 2 * j] == c.hashes[j].a && ws[3 + n + 2 * j + 1] == c.hashes[j].b
  {
    hide Flat, Spread;
    FlatAt(c.cells, c.width, j, v);
    SpreadAt(c.hashes, j);
    WordsOf(sh, c, n);
  }

  lemma WordsOf(sh: Shape, c: C.Sketch, n: nat)
    requires |Flat(c.cells)| == n
    ensures var ws := CmWords(sh, c);
            && |ws| == 3 + n + 2 * |c.hashes| && ws[0] == sh.eps && ws[1] == sh.gamma && ws[2] == c.total
            && (forall i | 0 <= i < n :: ws[3 + i] == Flat(c.cells)[i])
            && (forall i | 0 <= i < 2 * |c.hashes| :: ws[3 + n + i] == Spread(c.hashes)[i])
  {
    hide Flat, Spread;
  }

  /** The words of a count-min sketch: the two floats, the total, the counters row by row, and a pair for every row. */
  lemma CmLayout(sh: Shape, c: C.Sketch, j: nat, v: nat, n: nat, k: nat)
    requires C.SketchOk(c) && j < |c.hashes| && v < c.width && n == |c.hashes| * c.width && k == j * c.width + v
    ensures var s := PutCm(sh, c);
            && |s| == 4 * (3 + n + 2 * |c.hashes|) && k < n
            && WordAt(s, 0) == sh.eps % TWO32 && WordAt(s, 1) == sh.gamma % TWO32 && WordAt(s, 2) == c.total % TWO32
            && WordAt(s, 3 + k) == c.cells[j][v] % TWO32
            && WordAt(s, 3 + n + 2 * j) == c.hashes[j].a % TWO32 && WordAt(s, 3 + n + 2 * j + 1) == c.hashes[j].b % TWO32
  {
    CmWordsAre(sh, c, j, v, n, k);
    var ws := CmWords(sh, c);
    hide PutWords, CmWords, WordAt, C.SketchOk;
    WordsAt(ws, 0);
    WordsAt(ws, 1);
    WordsAt(ws, 2);
    WordsAt(ws, 3 + k);
    WordsAt(ws, 3 + n + 2 * j);
    WordsAt(ws, 3 + n + 2 * j + 1);
  }

  // ---------------------------------------------------------------- members

  function PutMember(m: Member): (s: Bytes)
  {
    match m
    case IntM(i) => PutInt(i)
    case HllM(h) => PutHll(h)
    case CmM(sh, c) => PutCm(sh, c)
  }

  /** What the existing member `like` becomes; None if it throws. */
  function GetMember(sizing: Sizing, like: Member, s: Bytes): (m: Option<Member>)
  {
    match like
    case IntM(_) => Some(IntM(GetInt(s)))
    case HllM(_) => (match GetHll(s) case Some(h) => Some(HllM(h)) case None => None)
    case CmM(_, _) => (match GetCm(sizing, s) case Some((sh, c)) => Some(CmM(sh, c)) case None => None)
  }

  predicate SameKind(a: Member, b: Member)
  {
    a.IntM? == b.IntM? && a.HllM? == b.HllM?
  }

  predicate Sendable(sizing: Sizing, m: Member)
  {
    match m
    case IntM(i) => R.IsInt(i)
    case HllM(_) => true
    case CmM(sh, c) => CmSendable(sizing, sh, c)
  }

  lemma MemberRoundTrip(sizing: Sizing, like: Member, m: Member)
    requires SameKind(like, m) && Sendable(sizing, m)
    ensures GetMember(sizing, like, PutMember(m)) == Some(m)
  {
    hide GetInt, PutInt, GetHll, PutHll, GetCm, PutCm, CmSendable;
    match m
    case IntM(i) => IntRoundTrip(i);
    case HllM(h) => HllRoundTrip(h);
    case CmM(sh, c) => CmRoundTrip(sizing, sh, c);
  }

  // ---------------------------------------------------------------- entries

  datatype SlotDump = SlotDump(stamp: int, bytes: Bytes)

  datatype EntryDump = EntryDump(start: int, slots: seq<SlotDump>)

  function DumpSlots(slots: seq<Slot<Member>>): (ds: seq<SlotDump>)
    ensures |ds| == |slots|
  {
    seq(|slots|, i requires 0 <= i < |slots| => SlotDump(slots[i].stamp, PutMember(slots[i].val)))
  }

  function DumpEntry(e: Entry): (d: EntryDump)
  {
    EntryDump(e.start, DumpSlots(e.slots))
  }

  datatype Restored = Restored(slots: seq<Slot<Member>>, ok: bool)

  /** The loop of restore: it stops where a member throws, after taking the stamp. */
  function RestoreSlots(sizing: Sizing, was: seq<Slot<Member>>, ds: seq<SlotDump>): (r: Restored)
    requires |ds| <= |was|
    ensures |r.slots| <= |ds|
  {
    if ds == [] then Restored([], true) else
      var n := |ds| - 1;
      var r := RestoreSlots(sizing, was, ds[..n]);
      if !r.ok then r else
        match GetMember(sizing, was[n].val, ds[n].bytes)
        case Some(m) => Restored(r.slots + [Slot(ds[n].stamp, m)], true)
        case None => Restored(r.slots + [Slot(ds[n].stamp, was[n].val)], false)
  }

  /**
   A restore takes the slots in order: each one that decodes is replaced, and the first that
   does not gets its stamp only and ends the restore.
   */
  lemma {:induction false} RestoreStops(sizing: Sizing, was: seq<Slot<Member>>, ds: seq<SlotDump>)
    requires |ds| <= |was|
    ensures var r := RestoreSlots(sizing, was, ds);
            && (r.ok <==> forall i | 0 <= i < |ds| :: GetMember(sizing, was[i].val, ds[i].bytes).Some?)
            && (r.ok ==> |r.slots| == |ds|) && (!r.ok ==> r.slots != [])
            && (forall i | 0 <= i < |r.slots| :: r.slots[i].stamp == ds[i].stamp)
            && (forall i | 0 <= i < |r.slots| && (r.ok || i < |r.slots| - 1) ::
                  GetMember(sizing, was[i].val, ds[i].bytes) == Some(r.slots[i].val))
            && (!r.ok ==> var n := |r.slots| - 1;
                          GetMember(sizing, was[n].val, ds[n].bytes).None? && r.slots[n].val == was[n].val)
  {
    hide GetMember;
    if ds != [] {
      RestoreStops(sizing, was, ds[..|ds| - 1]);
    }
  }

  /** restore; more windows than the entry has, or a start time of zero, are not accounted for. */
  function RestoreEntry(sizing: Sizing, e: Entry, d: EntryDump): (o: DB.Outcome<Entry, bool>)
  {
    if d.start <= 0 || |d.slots| > |e.slots| then DB.Outcome(e, false, true) else
      var r := RestoreSlots(sizing, e.slots, d.slots);
      DB.Outcome(Restore(e, r.slots, d.start), r.ok, !r.ok)
  }

  /** Entries of the same configuration: windows, window size and kinds of members. */
  predicate Alike(a: Entry, b: Entry)
  {
    && |a.slots| == |b.slots| && a.size == b.size
    && forall i | 0 <= i < |a.slots| :: SameKind(a.slots[i].val, b.slots[i].val)
  }

  predicate EntrySendable(sizing: Sizing, e: Entry)
  {
    forall i | 0 <= i < |e.slots| :: Sendable(sizing, e.slots[i].val)
  }

  lemma {:induction false} SlotsReturn(sizing: Sizing, a: Entry, e: Entry, n: nat)
    requires Alike(a, e) && EntrySendable(sizing, e) && n <= |e.slots|
    ensures RestoreSlots(sizing, a.slots, DumpSlots(e.slots)[..n]) == Restored(e.slots[..n], true)
  {
    hide GetMember, PutMember, Sendable, SameKind;
    if n == 0 {
    } else {
      SlotsReturn(sizing, a, e, n - 1);
      var ds := DumpSlots(e.slots);
      assert ds[..n][..n - 1] == ds[..n - 1];
      MemberRoundTrip(sizing, a.slots[n - 1].val, e.slots[n - 1].val);
      assert e.slots[..n] == e.slots[..n - 1] + [e.slots[n - 1]];
    }
  }

  /** A restored entry is due for cleaning; the rest of it is as it was. */
  function Uncleaned(e: Entry): (r: Entry)
  {
    e.(cleaned := 0)
  }

  /** An entry restored into a new one of the same configuration: its start time, stamps and members. */
  lemma EntryRoundTrip(sizing: Sizing, a: Entry, e: Entry)
    requires Alike(a, e) && EntrySendable(sizing, e)
    ensures RestoreEntry(sizing, a, DumpEntry(e)) == DB.Outcome(Uncleaned(e), true, false)
  {
    hide RestoreSlots, DumpSlots, EntrySendable;
    var n := |e.slots|;
    SlotsReturn(sizing, a, e, n);
    assert DumpSlots(e.slots)[..n] == DumpSlots(e.slots) && e.slots[..n] == e.slots;
    assert e.slots + a.slots[n..] == e.slots;
  }

  // ---------------------------------------------------------------- databases

  /** Every entry of a known field is like a new one of the field's type, and fits the encoding. */
  predicate AllSendable(sizing: Sizing, types: map<string, string>, k: DB.Key, m: map<string, Entry>, make: DB.Make<Entry>)
  {
    forall f | f in m && f in types && types[f] in DB.TYPES :: Alike(make(k, f, types[f]), m[f]) && EntrySendable(sizing, m[f])
  }

  /**
   The round trip of a whole database.  The messages are any dump of the source's shards;
   the peer is empty, has the source's fields and windows, and any number of shards.  Then
   it holds exactly the source's keys and known fields, with their start times, stamps and
   members, in the shards its own hash selects.
   */
  lemma FullSyncRoundTrip(sizing: Sizing, source: seq<DB.View<Entry>>, sourceHash: DB.Key -> nat, one: DB.View<Entry>,
                          ms: seq<FS.SyncMsg<EntryDump>>, peer: seq<DB.View<Entry>>, peerHash: DB.Key -> nat,
                          make: DB.Make<Entry>, k: DB.Key)
    requires |source| > 0 && Simulates(source, one, sourceHash) && FS.Dumps(ms, one, DumpEntry)
    requires |peer| > 0 && forall i | 0 <= i < |peer| :: peer[i].entries == map[] && peer[i].fields == one.fields
    requires forall j | j in one.entries :: AllSendable(sizing, one.fields, j, one.entries[j], make)
    ensures var restore := (e: Entry, d: EntryDump) => RestoreEntry(sizing, e, d);
            var r := FS.ShardSync(peer, ms, restore, make, peerHash);
            && Homed(r, peerHash)
            && Lookup(r[Place(peerHash, |r|, k)], k)
            == match Lookup(source[Place(sourceHash, |source|, k)], k)
               case Some(m) => FS.Filled(FS.Stripped(one.fields, m, Uncleaned))
               case None => None
  {
    hide Simulates, FS.Dumps, FS.ShardSync, RestoreEntry, DumpEntry, Alike, EntrySendable, FS.Stripped, Uncleaned, Homed, Place;
    var restore := (e: Entry, d: EntryDump) => RestoreEntry(sizing, e, d);
    forall j | j in one.entries
      ensures FS.FieldReturns(one.fields, j, one.entries[j], DumpEntry, restore, make, Uncleaned)
    {
      var m := one.entries[j];
      forall f | f in m && f in one.fields && one.fields[f] in DB.TYPES
        ensures restore(make(j, f, one.fields[f]), DumpEntry(m[f])) == DB.Outcome(Uncleaned(m[f]), true, false)
      {
        EntryRoundTrip(sizing, make(j, f, one.fields[f]), m[f]);
      }
    }
    FS.FullSyncReturns(source, sourceHash, one, ms, peer, one.fields, peerHash, DumpEntry, restore, make, Uncleaned, k);
  }
}
