/**
 Machine words as bit strings, most significant bit first, with the C operators
 the netmask code applies to them.
 */
module Words {

  type Word = seq<bool>

  function Zeros(n: nat): (w: Word)
  {
    seq(n, _ => false)
  }

  function Ones(n: nat): (w: Word)
  {
    seq(n, _ => true)
  }

  function And(x: Word, y: Word): (w: Word)
    requires |x| == |y|
  {
    seq(|x|, i requires 0 <= i < |x| => x[i] && y[i])
  }

  function Not(x: Word): (w: Word)
  {
    seq(|x|, i requires 0 <= i < |x| => !x[i])
  }

  /** Logical right shift that keeps the width. */
  function Shr(x: Word, k: nat): (w: Word)
  {
    if k >= |x| then Zeros(|x|) else Zeros(k) + x[..|x| - k]
  }

  /** `std::bitset::operator[]`: index 0 is the least significant bit. */
  function BitsetGet(x: Word, k: nat): (b: bool)
    requires k < |x|
  {
    x[|x| - 1 - k]
  }

  /** The first `k` bits of a word, followed by zeros. */
  function Keep(x: Word, k: nat): (w: Word)
    requires k <= |x|
  {
    x[..k] + Zeros(|x| - k)
  }

  /** `~(0xFF..F >> k)` has exactly its top `k` bits set. */
  lemma MaskBits(n: nat, k: nat)
    requires k <= n
    ensures Not(Shr(Ones(n), k)) == Ones(k) + Zeros(n - k)
  {
    var m := Not(Shr(Ones(n), k));
    assert |m| == n;
    forall i | 0 <= i < n
      ensures m[i] == (Ones(k) + Zeros(n - k))[i]
    {
    }
  }

  /** Masking with the top `k` bits set is the same as keeping the first `k` bits. */
  lemma AndMask(x: Word, k: nat)
    requires k <= |x|
    ensures And(x, Not(Shr(Ones(|x|), k))) == Keep(x, k)
  {
    MaskBits(|x|, k);
    var m := And(x, Ones(k) + Zeros(|x| - k));
    forall i | 0 <= i < |x|
      ensures m[i] == Keep(x, k)[i]
    {
    }
  }

  /** Two words agree after masking exactly when their first `k` bits agree. */
  lemma KeepEqual(x: Word, y: Word, k: nat)
    requires |x| == |y| && k <= |x|
    ensures Keep(x, k) == Keep(y, k) <==> x[..k] == y[..k]
  {
    if Keep(x, k) == Keep(y, k) {
      assert x[..k] == Keep(x, k)[..k];
      assert y[..k] == Keep(y, k)[..k];
    }
  }
}
