/**
 The Base64 codec used for keys.  Characters and bytes are 8-bit values with C's
 wrap-around arithmetic; the decoder's buffer is a little-endian word, so its
 bytes 2, 1 and 0 are the three decoded bytes.
 */
module Base64 {

  type Byte = bv8

  /** The alphabet, table 1 of RFC 4648. */
  function Encode1(uc: bv8): (c: Byte)
  {
    if uc < 26 then 65 + uc
    else if uc < 52 then 97 + (uc - 26)
    else if uc < 62 then 48 + (uc - 52)
    else if uc == 62 then 43
    else 47
  }

  const PAD: Byte := 61

  /** The upper-case letters, the lower-case letters and the digits in their order, and + and /. */
  lemma AlphabetIs(v: bv8)
    requires v < 64
    ensures v < 26 ==> Encode1(v) == 'A' as bv8 + v
    ensures 26 <= v < 52 ==> Encode1(v) == 'a' as bv8 + (v - 26)
    ensures 52 <= v < 62 ==> Encode1(v) == '0' as bv8 + (v - 52)
    ensures v == 62 ==> Encode1(v) == '+' as bv8
    ensures v == 63 ==> Encode1(v) == '/' as bv8
  {
  }

  /** The index of a character, found by subtraction; a value above 0x7F is an error. */
  function Decode1(c: Byte): (i: bv8)
  {
    if c == 43 then 62
    else if c == 47 then 63
    else if c == PAD then 0
    else
      var d := 57 - c;
      if d <= 0x3F then ((57 - d) - 48) + 52
      else
        var u := 90 - c;
        if u <= 0x3F then (90 - u) - 65
        else
          var l := 122 - c;
          if l <= 0x3F then ((122 - l) - 97) + 26
          else 0x80
  }

  predicate IsSpace(c: Byte)
  {
    c == 32 || 9 <= c <= 13
  }

  /** The white space of the C locale. */
  lemma SpacesAre(c: Byte)
    ensures IsSpace(c) <==> c in {' ' as bv8, '\t' as bv8, '\n' as bv8, '\r' as bv8, 0x0b, 0x0c}
  {
  }

  /** Encode1 is undone by Decode1, and gives no padding or space. */
  lemma Decode1Encode1(v: bv8)
    requires v < 64
    ensures Decode1(Encode1(v)) == v && Encode1(v) != PAD && !IsSpace(Encode1(v))
  {
  }

  /** The decoder's tricks accept more than the alphabet: a character is read as itself only if it is in it. */
  lemma Encode1Decode1(c: Byte)
    ensures Decode1(c) < 64 || Decode1(c) > 0x7F
    ensures Decode1(c) <= 0x7F <==> c <= 57 || c == 61 || 65 <= c <= 122 || c >= 252
    ensures Decode1(c) <= 0x7F && Encode1(Decode1(c)) == c
            <==> 65 <= c <= 90 || 97 <= c <= 122 || 48 <= c <= 57 || c == 43 || c == 47
  {
  }

  // ---------------------------------------------------------------- encoding

  /** The four sextets of three bytes. */
  function Sextet(k: nat, b1: bv8, b2: bv8, b3: bv8): (v: bv8)
    requires k < 4
    ensures v < 64
  {
    if k == 0 then b1 >> 2
    else if k == 1 then ((b1 & 0x3) << 4) | (b2 >> 4)
    else if k == 2 then ((b2 & 0xf) << 2) | (b3 >> 6)
    else b3 & 0x3f
  }

  /** The four sextets are the 24 bits of the three bytes, in order. */
  lemma SextetsAreBits(b1: bv8, b2: bv8, b3: bv8)
    ensures (Sextet(0, b1, b2, b3) as bv24 << 18) | (Sextet(1, b1, b2, b3) as bv24 << 12)
            | (Sextet(2, b1, b2, b3) as bv24 << 6) | Sextet(3, b1, b2, b3) as bv24
         == (b1 as bv24 << 16) | (b2 as bv24 << 8) | b3 as bv24
  {
  }

  /** One group: the bytes present, then padding. */
  function EncodeGroup(x: seq<Byte>): (s: seq<Byte>)
    requires 1 <= |x| <= 3
    ensures |s| == 4
  {
    var b1, b2, b3 := x[0], if |x| > 1 then x[1] else 0, if |x| > 2 then x[2] else 0;
    [Encode1(Sextet(0, b1, b2, b3)), Encode1(Sextet(1, b1, b2, b3)),
     if |x| > 1 then Encode1(Sextet(2, b1, b2, b3)) else PAD,
     if |x| > 2 then Encode1(Sextet(3, b1, b2, b3)) else PAD]
  }

  function Encode(x: seq<Byte>): (s: seq<Byte>)
    ensures |s| == 4 * ((|x| + 2) / 3)
  {
    if x == [] then []
    else if |x| <= 3 then EncodeGroup(x)
    else EncodeGroup(x[..3]) + Encode(x[3..])
  }

  /** Peels one group off the front. */
  lemma EncodeFrom(x: seq<Byte>, i: nat)
    requires i < |x|
    ensures var j := if i + 3 <= |x| then i + 3 else |x|;
            Encode(x[i..]) == EncodeGroup(x[i..j]) + Encode(x[j..])
  {
    hide EncodeGroup;
    if i + 3 < |x| {
      assert x[i..][..3] == x[i..i + 3];
      assert x[i..][3..] == x[i + 3..];
    } else {
      assert x[i..|x|] == x[i..] && x[|x|..] == [];
    }
  }

  /** One turn of Base64Encode's loop. */
  method EncodeStep(vby: seq<Byte>, i: nat) returns (s: seq<Byte>)
    requires i < |vby|
    ensures s == EncodeGroup(vby[i..if i + 3 <= |vby| then i + 3 else |vby|])
  {
    hide Encode1, Sextet;
    var by1: bv8, by2: bv8, by3: bv8 := vby[i], 0, 0;
    if i + 1 < |vby| { by2 := vby[i + 1]; }
    if i + 2 < |vby| { by3 := vby[i + 2]; }
    var by4, by5 := Sextet(0, by1, by2, by3), Sextet(1, by1, by2, by3);
    var by6, by7 := Sextet(2, by1, by2, by3), Sextet(3, by1, by2, by3);
    s := [Encode1(by4), Encode1(by5)];
    s := s + [if i + 1 < |vby| then Encode1(by6) else PAD];
    s := s + [if i + 2 < |vby| then Encode1(by7) else PAD];
  }

  /** Base64Encode computes the RFC 4648 encoding. */
  method Base64Encode(vby: seq<Byte>) returns (retval: seq<Byte>)
    ensures retval == Encode(vby)
  {
    hide EncodeGroup;
    retval := [];
    var i := 0;
    assert vby[0..] == vby;
    while i < |vby|
      invariant retval + Encode(vby[if i < |vby| then i else |vby|..]) == Encode(vby)
    {
      EncodeFrom(vby, i);
      var s := EncodeStep(vby, i);
      ghost var j := if i + 3 <= |vby| then i + 3 else |vby|;
      assert (retval + s) + Encode(vby[j..]) == retval + (s + Encode(vby[j..]));
      retval := retval + s;
      i := i + 3;
    }
  }

  // ---------------------------------------------------------------- decoding

  datatype Group =
    | Group(buf: bv32, pad: nat, pos: nat)
    | BadChar
    | PastEnd  // std::string::at throws

  datatype Result =
    | Decoded(output: seq<Byte>)
    | Invalid(output: seq<Byte>)  // returns -1
    | Threw(output: seq<Byte>)    // std::out_of_range or std::length_error

  function SkipSpace(s: seq<Byte>, pos: nat): (p: nat)
    requires pos <= |s|
    ensures pos <= p <= |s|
    decreases |s| - pos
  {
    if pos < |s| && IsSpace(s[pos]) then SkipSpace(s, pos + 1) else pos
  }

  function Push(buf: bv32, k: nat, c: bv8): (r: bv32)
  {
    if k == 0 then buf | (c as bv32) else (buf << 6) | (c as bv32)
  }

  /** Decodes the characters k to 3 of a group; past the end they count as zero. */
  function TakeChars(s: seq<Byte>, pos: nat, k: nat, buf: bv32, pad: nat): (g: Group)
    requires pos <= |s| && k <= 4
    ensures g.Group? ==> pos <= g.pos <= |s| && (k < 4 && pos < |s| ==> pos < g.pos)
    decreases 4 - k
  {
    if k == 4 then Group(buf, pad, pos)
    else if pos < |s| then
      var pad' := if s[pos] == PAD then pad + 1 else pad;
      var p := SkipSpace(s, pos);
      if p == |s| then PastEnd
      else if Decode1(s[p]) > 0x7F then BadChar
      else TakeChars(s, p + 1, k + 1, Push(buf, k, Decode1(s[p])), pad')
    else TakeChars(s, pos, k + 1, Push(buf, k, 0), pad)
  }

  /** Byte n of the buffer. */
  function BufByte(buf: bv32, n: nat): (b: Byte)
    requires n < 3
  {
    if n == 0 then (buf & 0xFF) as bv8
    else if n == 1 then ((buf >> 8) & 0xFF) as bv8
    else ((buf >> 16) & 0xFF) as bv8
  }

  /** Decodes from `pos` on, after `pad` padding characters in the previous group. */
  function DecodeFrom(s: seq<Byte>, pos: nat, output: seq<Byte>, pad: nat): (r: Result)
    requires pos <= |s|
    decreases |s| - pos
  {
    if pos == |s| then
      if |output| < pad then Threw(output) else Decoded(output[..|output| - pad])
    else
      match TakeChars(s, pos, 0, 0, 0)
      case BadChar => Invalid(output)
      case PastEnd => Threw(output)
      case Group(buf, pad', p) => DecodeFrom(s, p, output + [BufByte(buf, 2), BufByte(buf, 1), BufByte(buf, 0)], pad')
  }

  /** B64Decode appends to its output argument. */
  function Decode(s: seq<Byte>, output: seq<Byte>): (r: Result)
  {
    DecodeFrom(s, 0, output, 0)
  }

  /** A character that is no white space and has no index. */
  predicate BadAt(s: seq<Byte>, i: nat)
  {
    i < |s| && !IsSpace(s[i]) && Decode1(s[i]) > 0x7F
  }

  predicate NoneBad(s: seq<Byte>, i: nat, j: nat)
  {
    forall n | i <= n < j :: !BadAt(s, n)
  }

  lemma {:induction false} SkipsSpaces(s: seq<Byte>, pos: nat)
    requires pos <= |s|
    ensures var p := SkipSpace(s, pos); NoneBad(s, pos, p) && (p < |s| ==> !IsSpace(s[p]))
    decreases |s| - pos
  {
    hide Decode1, IsSpace;
    if pos < |s| && IsSpace(s[pos]) {
      SkipsSpaces(s, pos + 1);
    }
  }

  lemma {:induction false} GroupIsGood(s: seq<Byte>, pos: nat, k: nat, buf: bv32, pad: nat)
    requires pos <= |s| && k <= 4
    ensures var g := TakeChars(s, pos, k, buf, pad);
            && (g.BadChar? ==> exists i: nat :: pos <= i && BadAt(s, i))
            && (g.Group? ==> NoneBad(s, pos, g.pos))
            && (g.PastEnd? ==> NoneBad(s, pos, |s|))
    decreases 4 - k
  {
    hide Decode1, IsSpace, Push, SkipSpace;
    if k < 4 && pos < |s| {
      var p := SkipSpace(s, pos);
      SkipsSpaces(s, pos);
      if p < |s| && Decode1(s[p]) > 0x7F {
        assert BadAt(s, p);
      } else if p < |s| {
        GroupIsGood(s, p + 1, k + 1, Push(buf, k, Decode1(s[p])), if s[pos] == PAD then pad + 1 else pad);
      }
    } else if k < 4 {
      GroupIsGood(s, pos, k + 1, Push(buf, k, 0), pad);
    }
  }

  /** Decoding reports failure if and only if some character that is no white space has no index. */
  lemma {:induction false} InvalidIff(s: seq<Byte>, pos: nat, output: seq<Byte>, pad: nat)
    requires pos <= |s|
    ensures DecodeFrom(s, pos, output, pad).Invalid? <==> exists i: nat :: pos <= i && BadAt(s, i)
    decreases |s| - pos
  {
    hide TakeChars, BufByte, BadAt;
    OnlyInside(s);
    if pos < |s| {
      var g := TakeChars(s, pos, 0, 0, 0);
      GroupIsGood(s, pos, 0, 0, 0);
      if g.Group? {
        InvalidIff(s, g.pos, output + [BufByte(g.buf, 2), BufByte(g.buf, 1), BufByte(g.buf, 0)], g.pad);
      }
    }
  }

  lemma OnlyInside(s: seq<Byte>)
    ensures forall i: nat | BadAt(s, i) :: i < |s|
  {
  }

  method SkipSpaces(strInput: seq<Byte>, from: nat) returns (pos: nat)
    requires from <= |strInput|
    ensures pos == SkipSpace(strInput, from)
  {
    pos := from;
    while pos < |strInput| && IsSpace(strInput[pos])
      invariant from <= pos <= |strInput|
      invariant SkipSpace(strInput, pos) == SkipSpace(strInput, from)
    {
      pos := pos + 1;
    }
  }

  /** The inner loop of B64Decode: reads one group of four. */
  method ReadGroup(strInput: seq<Byte>, start: nat) returns (g: Group)
    requires start < |strInput|
    ensures g == TakeChars(strInput, start, 0, 0, 0)
  {
    hide Decode1, IsSpace, Push, SkipSpace;
    var iInNum: nat, cBuf: bv32, pad: nat := start, 0, 0;
    for iBitGroup := 0 to 4
      invariant 0 <= iInNum <= |strInput|
      invariant TakeChars(strInput, iInNum, iBitGroup, cBuf, pad) == TakeChars(strInput, start, 0, 0, 0)
    {
      var cChar: bv8 := 0;
      if iInNum < |strInput| {
        if strInput[iInNum] == PAD { pad := pad + 1; }
        iInNum := SkipSpaces(strInput, iInNum);
        if iInNum == |strInput| { return PastEnd; }
        cChar := Decode1(strInput[iInNum]);
        iInNum := iInNum + 1;
        if cChar > 0x7F { return BadChar; }
      }
      cBuf := Push(cBuf, iBitGroup, cChar);
    }
    g := Group(cBuf, pad, iInNum);
  }

  /** B64Decode refines Decode: the result and what it has appended, also on failure. */
  method B64Decode(strInput: seq<Byte>, strOutput: seq<Byte>) returns (r: Result)
    ensures r == Decode(strInput, strOutput)
  {
    hide TakeChars, BufByte;
    var output, pad, iInNum := strOutput, 0, 0;
    while iInNum < |strInput|
      invariant 0 <= iInNum <= |strInput|
      invariant DecodeFrom(strInput, iInNum, output, pad) == Decode(strInput, strOutput)
    {
      var g := ReadGroup(strInput, iInNum);
      if g.BadChar? { return Invalid(output); }
      if g.PastEnd? { return Threw(output); }
      output := output + [BufByte(g.buf, 2), BufByte(g.buf, 1), BufByte(g.buf, 0)];
      pad := g.pad;
      iInNum := g.pos;
    }
    if |output| < pad { return Threw(output); }
    r := Decoded(output[..|output| - pad]);
  }

  // ---------------------------------------------------------------- round trip

  function PadAt(s: seq<Byte>, pos: nat): (n: nat)
    requires pos < |s|
  {
    if s[pos] == PAD then 1 else 0
  }

  lemma TakeOne(s: seq<Byte>, pos: nat, k: nat, buf: bv32, pad: nat, v: bv8)
    requires pos < |s| && k < 4 && v < 64 && !IsSpace(s[pos]) && Decode1(s[pos]) == v
    ensures TakeChars(s, pos, k, buf, pad) == TakeChars(s, pos + 1, k + 1, Push(buf, k, v), pad + PadAt(s, pos))
  {
    hide Decode1, IsSpace, Push;
  }

  lemma TakeNone(s: seq<Byte>, pos: nat, buf: bv32, pad: nat)
    requires pos <= |s|
    ensures TakeChars(s, pos, 4, buf, pad) == Group(buf, pad, pos)
  {
    hide Decode1, IsSpace, Push;
  }

  /** Four characters of known value make one group. */
  lemma FourChars(s: seq<Byte>, pos: nat, v: seq<bv8>)
    requires pos + 4 <= |s| && |v| == 4
    requires forall k | 0 <= k < 4 :: !IsSpace(s[pos + k]) && Decode1(s[pos + k]) == v[k] && v[k] < 64
    ensures TakeChars(s, pos, 0, 0, 0)
         == Group(Push(Push(Push(Push(0, 0, v[0]), 1, v[1]), 2, v[2]), 3, v[3]), Pads(s[pos..pos + 4]), pos + 4)
  {
    hide Decode1, IsSpace, Push, TakeChars, Pads, PadAt;
    assert s[pos] == s[pos + 0];
    TakeOne(s, pos, 0, 0, 0, v[0]);
    var b0, p0 := Push(0, 0, v[0]), PadAt(s, pos);
    TakeOne(s, pos + 1, 1, b0, p0, v[1]);
    var b1, p1 := Push(b0, 1, v[1]), p0 + PadAt(s, pos + 1);
    TakeOne(s, pos + 2, 2, b1, p1, v[2]);
    var b2, p2 := Push(b1, 2, v[2]), p1 + PadAt(s, pos + 2);
    TakeOne(s, pos + 3, 3, b2, p2, v[3]);
    TakeNone(s, pos + 4, Push(b2, 3, v[3]), p2 + PadAt(s, pos + 3));
    PadsAre(s, pos);
  }

  lemma PadsAre(s: seq<Byte>, pos: nat)
    requires pos + 4 <= |s|
    ensures Pads(s[pos..pos + 4]) == PadAt(s, pos) + PadAt(s, pos + 1) + PadAt(s, pos + 2) + PadAt(s, pos + 3)
  {
    var g := s[pos..pos + 4];
    assert g[0] == s[pos] && g[1] == s[pos + 1] && g[2] == s[pos + 2] && g[3] == s[pos + 3];
  }

  /** Padding characters in a group of four. */
  function Pads(g: seq<Byte>): (n: nat)
    requires |g| == 4
  {
    (if g[0] == PAD then 1 else 0) + (if g[1] == PAD then 1 else 0)
    + (if g[2] == PAD then 1 else 0) + (if g[3] == PAD then 1 else 0)
  }

  /** The sextets of three bytes, pushed in order, give the bytes back. */
  lemma SextetsMakeBytes(b1: bv8, b2: bv8, b3: bv8)
    ensures var buf := Push(Push(Push(Push(0, 0, Sextet(0, b1, b2, b3)), 1, Sextet(1, b1, b2, b3)),
                                 2, Sextet(2, b1, b2, b3)), 3, Sextet(3, b1, b2, b3));
            BufByte(buf, 2) == b1 && BufByte(buf, 1) == b2 && BufByte(buf, 0) == b3
  {
  }

  /** A full or padded group decodes to its bytes followed by zeros, and its padding counts the zeros. */
  lemma GroupRoundTrip(s: seq<Byte>, pos: nat, x: seq<Byte>)
    requires 1 <= |x| <= 3 && pos + 4 <= |s| && s[pos..pos + 4] == EncodeGroup(x)
    ensures var g := TakeChars(s, pos, 0, 0, 0);
            && g.Group? && g.pad == 3 - |x| && g.pos == pos + 4
            && [BufByte(g.buf, 2), BufByte(g.buf, 1), BufByte(g.buf, 0)] == x + seq(3 - |x|, i => 0)
  {
    hide Encode1, Decode1, IsSpace, Sextet, Push, BufByte, TakeChars;
    var b1, b2, b3: bv8 := x[0], if |x| > 1 then x[1] else 0, if |x| > 2 then x[2] else 0;
    var v := [Sextet(0, b1, b2, b3), Sextet(1, b1, b2, b3), Sextet(2, b1, b2, b3), Sextet(3, b1, b2, b3)];
    Decode1Encode1(v[0]);
    Decode1Encode1(v[1]);
    Decode1Encode1(v[2]);
    Decode1Encode1(v[3]);
    PadIsZero();
    ShortGroup(b1, b2);
    var g := s[pos..pos + 4];
    forall k | 0 <= k < 4
      ensures s[pos + k] == g[k]
    {
    }
    FourChars(s, pos, v);
    SextetsMakeBytes(b1, b2, b3);
    assert [b1, b2, b3] == x + seq(3 - |x|, i => 0);
  }

  lemma PadIsZero()
    ensures Decode1(PAD) == 0 && !IsSpace(PAD)
  {
  }

  /** Missing bytes make the sextets that are replaced by padding zero. */
  lemma ShortGroup(b1: bv8, b2: bv8)
    ensures Sextet(2, b1, 0, 0) == 0 && Sextet(3, b1, b2, 0) == 0
  {
  }

  /** Decoding what was encoded from `pos` on appends exactly the bytes. */
  lemma {:induction false} RoundTripFrom(s: seq<Byte>, pos: nat, x: seq<Byte>, output: seq<Byte>)
    requires pos <= |s| && s[pos..] == Encode(x)
    ensures DecodeFrom(s, pos, output, 0) == Decoded(output + x)
    decreases |x|
  {
    hide TakeChars, BufByte, EncodeGroup;
    if x == [] {
      assert output[..|output| - 0] == output + x;
    } else if |x| <= 3 {
      GroupRoundTrip(s, pos, x);
      assert pos + 4 == |s|;
      var out := output + (x + seq(3 - |x|, i => 0));
      assert out[..|out| - (3 - |x|)] == output + x;
    } else {
      assert s[pos..pos + 4] == EncodeGroup(x[..3]);
      GroupRoundTrip(s, pos, x[..3]);
      assert s[pos + 4..] == Encode(x[3..]);
      RoundTripFrom(s, pos + 4, x[3..], output + x[..3]);
      assert x[..3] + seq(0, i => 0) == x[..3];
      assert (output + x[..3]) + x[3..] == output + x;
    }
  }

  /** For every byte string: decoding its encoding succeeds and appends exactly it to the output. */
  lemma {:induction false} RoundTrip(x: seq<Byte>, output: seq<Byte>)
    ensures Decode(Encode(x), output) == Decoded(output + x)
  {
    assert Encode(x)[0..] == Encode(x);
    RoundTripFrom(Encode(x), 0, x, output);
  }
}
