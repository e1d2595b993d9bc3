/**
 Addresses and netmasks.  An address is the content of its network-order byte
 buffer, so bit 0 is the most significant bit of the first byte.
 */
module Addresses {
  import opened Words

  datatype Family = V4 | V6

  function Width(f: Family): (w: nat)
  {
    if f.V4? then 32 else 128
  }

  datatype RawAddress = Address(family: Family, bits: Word)

  type Address = a: RawAddress | |a.bits| == Width(a.family)
    witness Address(V4, Zeros(32))

  datatype RawNetmask = Netmask(network: RawAddress, bits: nat)

  type Netmask = m: RawNetmask | |m.network.bits| == Width(m.network.family) && m.bits <= Width(m.network.family)
    witness Netmask(Address(V4, Zeros(32)), 0)

  /** The specification of matching: same family and the same leading bits. */
  predicate Matches(m: Netmask, ip: Address)
  {
    m.network.family == ip.family && ip.bits[..m.bits] == m.network.bits[..m.bits]
  }

  /** The constructor taking an address: 0xff asks for a host mask, longer lengths are clamped. */
  function MakeNetmask(a: Address, bits: nat): (m: Netmask)
    requires bits <= 0xff
    ensures m.network == a
    ensures bits <= Width(a.family) ==> m.bits == bits
    ensures bits > Width(a.family) ==> m.bits == Width(a.family)
  {
    Netmask(a, if bits == 0xff || bits > Width(a.family) then Width(a.family) else bits)
  }

  /** `d_mask`, used for IPv4 only. */
  function Mask4(bits: nat): (w: Word)
    requires bits <= 32
    ensures |w| == 32
  {
    if bits < 32 then Not(Shr(Ones(32), bits)) else Ones(32)
  }

  lemma Mask4Keeps(x: Word, bits: nat)
    requires |x| == 32 && bits <= 32
    ensures And(x, Mask4(bits)) == Keep(x, bits)
  {
    AndMask(x, bits);
    if bits == 32 {
      assert Not(Shr(Ones(32), 32)) == Ones(32) by { MaskBits(32, 32); }
    }
  }

  /** Byte `n` of an address buffer. */
  function ByteAt(bits: Word, n: nat): (b: Word)
    requires 8 * n + 8 <= |bits|
    ensures |b| == 8
  {
    bits[8 * n..8 * n + 8]
  }

  function SetByte(bits: Word, n: nat, b: Word): (w: Word)
    requires 8 * n + 8 <= |bits| && |b| == 8
    ensures |w| == |bits|
  {
    bits[..8 * n] + b + bits[8 * n + 8..]
  }

  /** The last, partial byte of an IPv6 mask. */
  function Mask8(bits: nat): (w: Word)
    requires bits < 8
    ensures |w| == 8
  {
    Not(Shr(Ones(8), bits))
  }

  lemma TakeByte(w: Word, n: nat)
    requires 8 * n + 8 <= |w|
    ensures w[..8 * n + 8] == w[..8 * n] + ByteAt(w, n)
  {
  }

  lemma TakeRest(w: Word, n: nat, rest: nat)
    requires 8 * n + 8 <= |w| && rest <= 8
    ensures w[..8 * n + rest] == w[..8 * n] + ByteAt(w, n)[..rest]
  {
  }

  /** A byte that differs decides the comparison. */
  lemma ByteDiffers(x: Word, y: Word, n: nat, k: nat)
    requires |x| == |y| && 8 * n + 8 <= k <= |x| && ByteAt(x, n) != ByteAt(y, n)
    ensures x[..k] != y[..k]
  {
    assert ByteAt(x, n) == x[..k][8 * n..8 * n + 8];
    assert ByteAt(y, n) == y[..k][8 * n..8 * n + 8];
  }

  /** Once the whole bytes agree, the masked boundary byte decides. */
  lemma BoundaryByte(x: Word, y: Word, n: nat, rest: nat)
    requires |x| == |y| && 8 * n + 8 <= |x| && rest < 8 && x[..8 * n] == y[..8 * n]
    ensures And(ByteAt(x, n), Mask8(rest)) == And(ByteAt(y, n), Mask8(rest)) <==> x[..8 * n + rest] == y[..8 * n + rest]
  {
    var a, b := ByteAt(x, n), ByteAt(y, n);
    AndMask(a, rest);
    AndMask(b, rest);
    KeepEqual(a, b, rest);
    TakeRest(x, n, rest);
    TakeRest(y, n, rest);
    SplitEqual(x[..8 * n], a[..rest], b[..rest]);
  }

  lemma SplitEqual(a: Word, b: Word, c: Word)
    requires |b| == |c|
    ensures a + b == a + c <==> b == c
  {
    assert b == (a + b)[|a|..];
    assert c == (a + c)[|a|..];
  }

  /** Netmask::match: one masked word comparison for IPv4, a byte loop for IPv6. */
  method Match(m: Netmask, ip: Address) returns (r: bool)
    ensures r <==> Matches(m, ip)
  {
    var us, them := m.network.bits, ip.bits;
    if m.network.family != ip.family {
      return false;
    }
    if m.network.family == V4 {
      Mask4Keeps(us, m.bits);
      Mask4Keeps(them, m.bits);
      KeepEqual(us, them, m.bits);
      return And(them, Mask4(m.bits)) == And(us, Mask4(m.bits));
    }
    var bytes, rest, n := m.bits / 8, m.bits % 8, 0;
    while n < bytes
      invariant n <= bytes
      invariant us[..8 * n] == them[..8 * n]
    {
      if ByteAt(us, n) != ByteAt(them, n) {
        ByteDiffers(us, them, n, m.bits);
        return false;
      }
      TakeByte(us, n);
      TakeByte(them, n);
      n := n + 1;
    }
    if n == 16 {
      // the byte past the end is masked with zero
      return true;
    }
    BoundaryByte(us, them, n, rest);
    r := And(ByteAt(us, n), Mask8(rest)) == And(ByteAt(them, n), Mask8(rest));
  }

  lemma ZerosAppend(a: nat, b: nat)
    ensures Zeros(a) + Zeros(b) == Zeros(a + b)
  {
  }

  lemma KeepByte(w: Word, n: nat, rest: nat)
    requires 8 * n + 8 <= |w| && rest <= 8
    ensures w[..8 * n] + Keep(ByteAt(w, n), rest) + Zeros(|w| - 8 * n - 8) == Keep(w, 8 * n + rest)
  {
    var b := ByteAt(w, n);
    TakeRest(w, n, rest);
    ZerosAppend(8 - rest, |w| - 8 * n - 8);
    assert w[..8 * n] + Keep(b, rest) + Zeros(|w| - 8 * n - 8)
        == w[..8 * n] + b[..rest] + (Zeros(8 - rest) + Zeros(|w| - 8 * n - 8));
  }

  /** Netmask::getMaskedNetwork: mask the boundary byte, then zero every later byte. */
  method GetMaskedNetwork(m: Netmask) returns (r: Address)
    ensures r.family == m.network.family
    ensures r.bits == Keep(m.network.bits, m.bits)
  {
    var net := m.network.bits;
    if m.network.family == V4 {
      Mask4Keeps(net, m.bits);
      return Address(V4, And(net, Mask4(m.bits)));
    }
    var us, bytes, rest := net, m.bits / 8, m.bits % 8;
    if bytes == 16 {
      assert Keep(net, 128) == net;
      return Address(V6, us);
    }
    var last := And(ByteAt(us, bytes), Mask8(rest));
    us := SetByte(us, bytes, last);
    ghost var head := net[..8 * bytes] + last;
    assert us == head + net[8 * bytes + 8..];
    var idx := bytes + 1;
    while idx < 16
      invariant bytes < idx <= 16
      invariant us == head + Zeros(8 * (idx - bytes - 1)) + net[8 * idx..]
    {
      ghost var k := 8 * (idx - bytes - 1);
      us := SetByte(us, idx, Zeros(8));
      ZerosAppend(k, 8);
      assert us == head + (Zeros(k) + Zeros(8)) + net[8 * idx + 8..];
      idx := idx + 1;
    }
    AndMask(ByteAt(net, bytes), rest);
    KeepByte(net, bytes, rest);
    return Address(V6, us);
  }

  /** The network that Netmask::toStringNetwork prints: built up from an all-zero buffer. */
  method BuildNetwork(m: Netmask) returns (r: Address)
    ensures r.family == m.network.family
    ensures r.bits == Keep(m.network.bits, m.bits)
  {
    var us := m.network.bits;
    if m.network.family == V4 {
      Mask4Keeps(us, m.bits);
      return Address(V4, And(us, Mask4(m.bits)));
    }
    var bytes, rest, n := m.bits / 8, m.bits % 8, 0;
    var sa6 := Zeros(128);
    while n < bytes
      invariant n <= bytes
      invariant sa6 == us[..8 * n] + Zeros(128 - 8 * n)
    {
      sa6 := SetByte(sa6, n, ByteAt(us, n));
      TakeByte(us, n);
      n := n + 1;
    }
    if n < 16 {
      var last := And(ByteAt(us, n), Mask8(rest));
      sa6 := SetByte(sa6, n, last);
      assert sa6 == us[..8 * n] + last + Zeros(128 - 8 * n - 8);
      AndMask(ByteAt(us, n), rest);
      KeepByte(us, n, rest);
    }
    return Address(V6, sa6);
  }

  /** ComboAddress::truncate's two stores: zeros after the first `n` bytes, then byte `n - 1` loses its low `part` bits. */
  method Blot(w: Word, n: nat, part: nat) returns (r: Word)
    requires 1 <= n && 8 * n <= |w| && part < 8
    ensures r == Keep(w, 8 * n - part)
  {
    var cut := w[..8 * n] + Zeros(|w| - 8 * n);
    BlotKeeps(w, n - 1, part);
    r := SetByte(cut, n - 1, And(ByteAt(cut, n - 1), Not(Zeros(8 - part) + Ones(part))));
  }

  lemma BlotKeeps(w: Word, place: nat, part: nat)
    requires 8 * place + 8 <= |w| && part < 8
    ensures var cut := w[..8 * place + 8] + Zeros(|w| - 8 * place - 8);
            SetByte(cut, place, And(ByteAt(cut, place), Not(Zeros(8 - part) + Ones(part)))) == Keep(w, 8 * place + 8 - part)
  {
    var cut := w[..8 * place + 8] + Zeros(|w| - 8 * place - 8);
    var b := ByteAt(w, place);
    assert ByteAt(cut, place) == b;
    assert Not(Zeros(8 - part) + Ones(part)) == Ones(8 - part) + Zeros(part);
    MaskBits(8, 8 - part);
    AndMask(b, 8 - part);
    var c := Keep(b, 8 - part);
    assert SetByte(cut, place, c) == w[..8 * place] + c + Zeros(|w| - 8 * place - 8);
    KeepByte(w, place, 8 - part);
  }

  /** A mutable socket address. */
  class ComboAddress {
    var family: Family
    var bits: Word

    ghost predicate Valid()
      reads this
    {
      |bits| == Width(family)
    }

    constructor (a: Address)
      ensures Valid() && family == a.family && bits == a.bits
    {
      family, bits := a.family, a.bits;
    }

    /** ComboAddress::truncate: clears from the right, whole bytes first. */
    method Truncate(keep: nat)
      requires Valid()
      modifies this`bits
      ensures Valid()
      ensures bits == if keep >= Width(family) then old(bits) else Keep(old(bits), keep)
    {
      if keep >= Width(family) {
        return;
      }
      var len := if family.V4? then 4 else 16;
      var tozero := len * 8 - keep;
      var n, part := len - tozero / 8, tozero % 8;
      assert 8 * n - part == keep;
      if n > 0 {
        bits := Blot(bits, n, part);
      } else {
        // the byte before the buffer is masked with all ones
        bits := Zeros(8 * len);
        assert keep == 0 && Keep(old(bits), 0) == Zeros(8 * len);
      }
    }
  }

  /** All formulations of a mask agree: matching, truncating the address, masking the network. */
  lemma MaskFormsAgree(m: Netmask, ip: Address)
    ensures Matches(m, ip) <==>
            ip.family == m.network.family && Keep(ip.bits, m.bits) == Keep(m.network.bits, m.bits)
  {
    if ip.family == m.network.family {
      KeepEqual(ip.bits, m.network.bits, m.bits);
    }
  }
}
