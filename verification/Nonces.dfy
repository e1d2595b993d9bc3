/**
 The nonces of an encrypted channel.  A nonce is a buffer of 12 or 24 bytes whose first
 four are a big-endian counter; each side derives one nonce for reading and one for
 writing from the two nonces exchanged at the start.  Encryption itself is abstract: a
 sealed text opens only with the key and nonce that sealed it.
 */
module Nonces {

  import opened Basics

  type Byte = x: int | 0 <= x < 256

  type Nonce = v: seq<Byte> | |v| == 12 || |v| == 24 witness seq(12, i => 0)

  function BigEndian(a: int, b: int, c: int, d: int): (n: int)
  {
    ((a * 256 + b) * 256 + c) * 256 + d
  }

  function Counter(v: Nonce): (c: int)
    ensures 0 <= c < TWO32
  {
    BigEndian(v[0], v[1], v[2], v[3])
  }

  function CounterBytes(c: int): (s: seq<Byte>)
    requires 0 <= c < TWO32
    ensures |s| == 4
  {
    [c / 0x100_0000, c / 0x1_0000 % 256, c / 256 % 256, c % 256]
  }

  function Increment(v: Nonce): (r: Nonce)
    ensures |r| == |v|
  {
    CounterBytes((Counter(v) + 1) % TWO32) + v[4..]
  }

  function Merge(lower: Nonce, higher: Nonce): (r: Nonce)
    requires |lower| == |higher|
    ensures |r| == |lower|
  {
    var half := |lower| / 2;
    lower[..half] + higher[half..]
  }

  /** The fourth byte counts up, and the others change only when it wraps around. */
  lemma IncrementIs(v: Nonce)
    ensures Increment(v)[4..] == v[4..]
    ensures v[3] != 255 ==> Increment(v)[..3] == v[..3] && Increment(v)[3] - v[3] == 1
    ensures v[3] == 255 ==> Increment(v)[3] == 0
  {
    hide BigEndian, CounterBytes, Counter;
    if v[3] != 255 {
      CountsUp(v);
      LastByte(v[0], v[1], v[2], v[3] + 1);
      assert Increment(v)[..3] == v[..3];
    } else {
      LastOf(v);
      CarriedByte(Counter(v));
      LastOfBytes((Counter(v) + 1) % TWO32);
    }
  }

  lemma CountsUp(v: Nonce)
    requires v[3] != 255
    ensures (Counter(v) + 1) % TWO32 == BigEndian(v[0], v[1], v[2], v[3] + 1)
  {
    hide BigEndian, CounterBytes;
    NextDigit(v[0], v[1], v[2], v[3]);
    LastByte(v[0], v[1], v[2], v[3] + 1);
    SmallMod(BigEndian(v[0], v[1], v[2], v[3] + 1), TWO32);
  }

  lemma NextDigit(a: int, b: int, c: int, d: int)
    ensures BigEndian(a, b, c, d + 1) == BigEndian(a, b, c, d) + 1
  {
  }

  lemma SmallMod(n: int, m: int)
    requires 0 <= n < m
    ensures n % m == n
  {
  }

  lemma LastOf(v: Nonce)
    ensures Counter(v) % 256 == v[3]
  {
  }

  lemma LastOfBytes(c: int)
    requires 0 <= c < TWO32
    ensures CounterBytes(c)[3] == c % 256
  {
  }

  lemma LastByte(a: int, b: int, c: int, d: int)
    requires 0 <= a < 256 && 0 <= b < 256 && 0 <= c < 256 && 0 <= d < 256
    ensures var n := BigEndian(a, b, c, d); 0 <= n < TWO32 && CounterBytes(n) == [a, b, c, d]
  {
    var n, x, y := BigEndian(a, b, c, d), (a * 256 + b) * 256 + c, a * 256 + b;
    Digit(x, d);
    Digit(y, c);
    Digit(a, b);
    DivDiv(n);
  }

  lemma Digit(x: int, d: int)
    requires 0 <= d < 256
    ensures (x * 256 + d) / 256 == x && (x * 256 + d) % 256 == d
  {
  }

  lemma DivDiv(n: int)
    requires n >= 0
    ensures n / 0x1_0000 == n / 256 / 256 && n / 0x100_0000 == n / 256 / 256 / 256
  {
  }

  lemma CarriedByte(c: int)
    requires 0 <= c < TWO32 && c % 256 == 255
    ensures ((c + 1) % TWO32) % 256 == 0
  {
  }

  // ---------------------------------------------------------------- the counter

  lemma CounterRoundTrip(c: int, v: Nonce)
    requires 0 <= c < TWO32 && v[..4] == CounterBytes(c)
    ensures Counter(v) == c
  {
    assert v[0] == v[..4][0] && v[1] == v[..4][1] && v[2] == v[..4][2] && v[3] == v[..4][3];
    assert c / 0x1_0000 == c / 256 / 256 && c / 0x100_0000 == c / 256 / 256 / 256;
  }

  /** The counter and the other bytes determine a nonce. */
  lemma CounterDetermines(v: Nonce, w: Nonce)
    requires |v| == |w| && Counter(v) == Counter(w) && v[4..] == w[4..]
    ensures v == w
  {
    BytesOfCounter(v[0], v[1], v[2], v[3], w[0], w[1], w[2], w[3]);
    assert v == [v[0], v[1], v[2], v[3]] + v[4..];
    assert w == [w[0], w[1], w[2], w[3]] + w[4..];
  }

  lemma BytesOfCounter(a0: Byte, a1: Byte, a2: Byte, a3: Byte, b0: Byte, b1: Byte, b2: Byte, b3: Byte)
    requires BigEndian(a0, a1, a2, a3) == BigEndian(b0, b1, b2, b3)
    ensures a0 == b0 && a1 == b1 && a2 == b2 && a3 == b3
  {
    var x: int, y: int := (a0 as int * 256 + a1) * 256 + a2, (b0 as int * 256 + b1) * 256 + b2;
    assert x == y && a3 == b3;
    var z: int, w: int := a0 as int * 256 + a1, b0 as int * 256 + b1;
    assert z == w && a2 == b2;
  }

  lemma IncrementCounts(v: Nonce)
    ensures Counter(Increment(v)) == (Counter(v) + 1) % TWO32 && Increment(v)[4..] == v[4..]
  {
    var r := Increment(v);
    assert r[..4] == CounterBytes((Counter(v) + 1) % TWO32);
    CounterRoundTrip((Counter(v) + 1) % TWO32, r);
  }

  function After(v: Nonce, n: nat): (r: Nonce)
    ensures |r| == |v|
  {
    if n == 0 then v else Increment(After(v, n - 1))
  }

  lemma {:induction false} AfterCounts(v: Nonce, n: nat)
    ensures Counter(After(v, n)) == (Counter(v) + n) % TWO32 && After(v, n)[4..] == v[4..]
  {
    hide Counter, Increment;
    if n == 0 {
    } else {
      AfterCounts(v, n - 1);
      IncrementCounts(After(v, n - 1));
      ModStep(Counter(v) + n - 1);
    }
  }

  lemma ModStep(a: int)
    ensures (a % TWO32 + 1) % TWO32 == (a + 1) % TWO32
  {
  }

  /** A sender repeats a nonce exactly after every 2^32 messages. */
  lemma NonceReuse(v: Nonce, i: nat, j: nat)
    ensures After(v, i) == After(v, j) <==> (j - i) % TWO32 == 0
  {
    hide Counter, After;
    AfterCounts(v, i);
    AfterCounts(v, j);
    if (j - i) % TWO32 == 0 {
      SameModulo(Counter(v) + i, Counter(v) + j);
      CounterDetermines(After(v, i), After(v, j));
    } else {
      SameModulo(Counter(v) + i, Counter(v) + j);
    }
  }

  lemma SameModulo(a: int, b: int)
    ensures a % TWO32 == b % TWO32 <==> (b - a) % TWO32 == 0
  {
  }

  /** The two directions of a channel have a nonce in common exactly if the exchanged nonces differ in their counters only. */
  lemma DirectionsCollide(ours: Nonce, theirs: Nonce)
    requires |ours| == |theirs|
    ensures (exists i: nat, j: nat :: After(Merge(theirs, ours), i) == After(Merge(ours, theirs), j)) <==> ours[4..] == theirs[4..]
  {
    hide Counter, After;
    var v, w := Merge(theirs, ours), Merge(ours, theirs);
    var half := |ours| / 2;
    assert v[4..] == theirs[4..half] + ours[half..] && w[4..] == ours[4..half] + theirs[half..];
    assert ours[4..] == ours[4..half] + ours[half..] && theirs[4..] == theirs[4..half] + theirs[half..];
    if ours[4..] == theirs[4..] {
      assert ours[4..][..half - 4] == ours[4..half] && theirs[4..][..half - 4] == theirs[4..half];
      assert ours[4..][half - 4..] == ours[half..] && theirs[4..][half - 4..] == theirs[half..];
      var d: nat := (Counter(w) - Counter(v)) % TWO32;
      AfterCounts(v, d);
      AfterCounts(w, 0);
      SameModulo(Counter(v) + d, Counter(w));
      CounterDetermines(After(v, d), After(w, 0));
    }
    if i: nat, j: nat :| After(v, i) == After(w, j) {
      AfterCounts(v, i);
      AfterCounts(w, j);
      assert v[4..][..half - 4] == theirs[4..half] && w[4..][..half - 4] == ours[4..half];
      assert v[4..][half - 4..] == ours[half..] && w[4..][half - 4..] == theirs[half..];
    }
  }

  // ---------------------------------------------------------------- the buffer

  class SodiumNonce {
    const value: array<Byte>

    ghost predicate Valid()
    {
      value.Length == 12 || value.Length == 24
    }

    constructor (v: Nonce)
      ensures Valid() && fresh(value) && value[..] == v
    {
      value := new Byte[|v|](i requires 0 <= i < |v| => v[i]);
    }

    method MergeFrom(lower: SodiumNonce, higher: SodiumNonce)
      requires Valid() && lower.Valid() && higher.Valid()
      requires lower.value.Length == value.Length == higher.value.Length
      modifies value
      ensures value[..] == Merge(old(lower.value[..]), old(higher.value[..]))
    {
      var halfSize := value.Length / 2;
      forall i | 0 <= i < halfSize {
        value[i] := lower.value[i];
      }
      forall i | halfSize <= i < value.Length {
        value[i] := higher.value[i];
      }
    }

    method IncrementIt()
      requires Valid()
      modifies value
      ensures value[..] == Increment(old(value[..]))
    {
      hide BigEndian, CounterBytes;
      ghost var v: Nonce := value[..];
      var count := (BigEndian(value[0], value[1], value[2], value[3]) + 1) % TWO32;
      assert count == (Counter(v) + 1) % TWO32;
      var bytes := CounterBytes(count);
      value[0], value[1], value[2], value[3] := bytes[0], bytes[1], bytes[2], bytes[3];
      assert value[..] == bytes + v[4..];
    }
  }

  // ---------------------------------------------------------------- a conversation

  type Text = seq<Byte>

  datatype Cipher = Cipher(nonce: Nonce, text: Text)

  datatype Opened = Opened(text: Text) | Failed

  /** sodDecryptSym: a text without content is not verified; the nonce moves on unless decryption throws. */
  function Decrypt(c: Cipher, nonce: Nonce): (r: (Opened, Nonce))
  {
    if |c.text| == 0 then (Opened([]), Increment(nonce))
    else if c.nonce == nonce then (Opened(c.text), Increment(nonce))
    else (Failed, nonce)
  }

  /** A cipher text opens if and only if it has no content or was made with the reader's nonce, which then moves on. */
  lemma DecryptIff(c: Cipher, nonce: Nonce)
    ensures Decrypt(c, nonce).0 == Opened(c.text) <==> c.text == [] || c.nonce == nonce
    ensures Decrypt(c, nonce).1 == if c.text == [] || c.nonce == nonce then Increment(nonce) else nonce
  {
  }

  /** One direction: the writer's nonce, the reader's, what is on the wire, and both logs. */
  datatype Direction = Direction(writing: Nonce, reading: Nonce, wire: seq<Cipher>, sent: seq<Cipher>, received: seq<Opened>)

  /** Both directions of a control connection, client to server first. */
  datatype Channel = Channel(up: Direction, down: Direction)

  datatype Act = Send(up: bool, text: Text) | Receive(up: bool)

  /** What one end derives from its own nonce and the other's. */
  function Reading(ours: Nonce, theirs: Nonce): (r: Nonce)
    requires |ours| == |theirs|
  {
    Merge(ours, theirs)
  }

  function Writing(ours: Nonce, theirs: Nonce): (r: Nonce)
    requires |ours| == |theirs|
  {
    Merge(theirs, ours)
  }

  /** Both ends after exchanging `client` and `server`. */
  function Connect(client: Nonce, server: Nonce): (c: Channel)
    requires |client| == |server|
  {
    Channel(Direction(Writing(client, server), Reading(server, client), [], [], []),
            Direction(Writing(server, client), Reading(client, server), [], [], []))
  }

  function SendOn(d: Direction, text: Text): (r: Direction)
  {
    var c := Cipher(d.writing, text);
    d.(writing := Increment(d.writing), wire := d.wire + [c], sent := d.sent + [c])
  }

  function ReceiveOn(d: Direction): (r: Direction)
  {
    if d.wire == [] then d else
      var (o, nonce) := Decrypt(d.wire[0], d.reading);
      d.(reading := nonce, wire := d.wire[1..], received := d.received + [o])
  }

  function ActOn(c: Channel, a: Act): (r: Channel)
  {
    var d := if a.up then c.up else c.down;
    var d' := if a.Send? then SendOn(d, a.text) else ReceiveOn(d);
    if a.up then c.(up := d') else c.(down := d')
  }

  function Talk(c: Channel, acts: seq<Act>): (r: Channel)
  {
    if acts == [] then c else ActOn(Talk(c, acts[..|acts| - 1]), acts[|acts| - 1])
  }

  /** The k-th message uses the k-th nonce at both ends. */
  predicate InStep(d: Direction, start: Nonce)
  {
    && |d.received| + |d.wire| == |d.sent|
    && d.writing == After(start, |d.sent|)
    && d.reading == After(start, |d.received|)
    && (forall k | 0 <= k < |d.sent| :: d.sent[k].nonce == After(start, k))
    && (forall k | 0 <= k < |d.wire| :: d.wire[k] == d.sent[|d.received| + k])
    && (forall k | 0 <= k < |d.received| :: d.received[k] == Opened(d.sent[k].text))
  }

  lemma SendInStep(d: Direction, start: Nonce, text: Text)
    requires InStep(d, start)
    ensures InStep(SendOn(d, text), start)
  {
    hide Increment;
  }

  lemma ReceiveInStep(d: Direction, start: Nonce)
    requires InStep(d, start)
    ensures InStep(ReceiveOn(d), start)
  {
    hide Increment;
    if d.wire != [] {
      assert d.wire[0] == d.sent[|d.received| + 0];
      var r := ReceiveOn(d);
      assert r.received[|d.received|] == Opened(d.sent[|d.received|].text);
      forall k | 0 <= k < |r.wire|
        ensures r.wire[k] == r.sent[|r.received| + k]
      {
        assert r.wire[k] == d.wire[k + 1];
      }
    }
  }

  /**
   In every conversation, with any interleaving of the two directions and empty messages
   among the others: the writer's nonce of each message is the reader's, every message
   opens to exactly what was sent, and what was received is a prefix of what was sent.
   */
  lemma {:induction false} ConversationInStep(client: Nonce, server: Nonce, acts: seq<Act>)
    requires |client| == |server|
    ensures var c := Talk(Connect(client, server), acts);
            InStep(c.up, Merge(server, client)) && InStep(c.down, Merge(client, server))
    decreases |acts|
  {
    hide InStep, Merge, SendOn, ReceiveOn;
    var up, down := Merge(server, client), Merge(client, server);
    if acts == [] {
      StartInStep(up);
      StartInStep(down);
    } else {
      ConversationInStep(client, server, acts[..|acts| - 1]);
      var c := Talk(Connect(client, server), acts[..|acts| - 1]);
      var a := acts[|acts| - 1];
      var d, start := if a.up then c.up else c.down, if a.up then up else down;
      if a.Send? {
        SendInStep(d, start, a.text);
      } else {
        ReceiveInStep(d, start);
      }
    }
  }

  lemma StartInStep(start: Nonce)
    ensures InStep(Direction(start, start, [], [], []), start)
  {
  }

  /**
   No nonce is used twice in a conversation: two messages of one direction have the same one
   only if a multiple of 2^32 messages lies between them, and two of different directions
   never do unless the exchanged nonces agree after their counters.
   */
  lemma ConversationNonces(client: Nonce, server: Nonce, acts: seq<Act>, i: nat, j: nat)
    requires |client| == |server|
    ensures var c := Talk(Connect(client, server), acts);
            && (i < |c.up.sent| && j < |c.up.sent| ==> (c.up.sent[i].nonce == c.up.sent[j].nonce <==> (j - i) % TWO32 == 0))
            && (i < |c.down.sent| && j < |c.down.sent| ==> (c.down.sent[i].nonce == c.down.sent[j].nonce <==> (j - i) % TWO32 == 0))
            && (i < |c.up.sent| && j < |c.down.sent| && client[4..] != server[4..] ==> c.up.sent[i].nonce != c.down.sent[j].nonce)
  {
    hide Talk, Connect, Merge, After;
    ConversationInStep(client, server, acts);
    NonceReuse(Merge(server, client), i, j);
    NonceReuse(Merge(client, server), i, j);
    DirectionsCollide(client, server);
  }
}
