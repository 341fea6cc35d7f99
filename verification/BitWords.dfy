/** 64-bit words as sequences of bits, the least significant one first, and two's complement. */
module BitWords {

  const SIZE: nat := 64

  type Word = w: seq<bool> | |w| == SIZE witness seq(SIZE, _ => false)

  function Pow2(k: nat): (r: nat)
    ensures r > 0
  {
    if k == 0 then 1 else 2 * Pow2(k - 1)
  }

  /** The lowest `k` bits of a number, in two's complement if it is negative. */
  function Bits(n: int, k: nat): (r: seq<bool>)
    ensures |r| == k
    decreases k
  {
    if k == 0 then [] else [n % 2 == 1] + Bits(n / 2, k - 1)
  }

  function Nat(b: seq<bool>): (r: nat)
    ensures r < Pow2(|b|)
  {
    if b == [] then 0 else (if b[0] then 1 else 0) + 2 * Nat(b[1..])
  }

  function Zeros(k: nat): (r: seq<bool>)
    ensures |r| == k && forall i :: 0 <= i < k ==> !r[i]
  {
    seq(k, _ => false)
  }

  function And(a: Word, b: Word): (r: Word)
    ensures forall i :: 0 <= i < SIZE ==> r[i] == (a[i] && b[i])
  {
    seq(SIZE, i requires 0 <= i < SIZE => a[i] && b[i])
  }

  function Or(a: Word, b: Word): (r: Word)
    ensures forall i :: 0 <= i < SIZE ==> r[i] == (a[i] || b[i])
  {
    seq(SIZE, i requires 0 <= i < SIZE => a[i] || b[i])
  }

  function Shl(a: Word, k: nat): (r: Word)
    requires k <= SIZE
    ensures forall i :: 0 <= i < SIZE ==> r[i] == (k <= i && a[i - k])
  {
    Zeros(k) + a[..SIZE - k]
  }

  /** The shift to the right of an unsigned word. */
  function Shr(a: Word, k: nat): (r: Word)
    requires k <= SIZE
    ensures forall i :: 0 <= i < SIZE ==> r[i] == (i + k < SIZE && a[i + k])
  {
    a[k..] + Zeros(k)
  }

  lemma {:induction false} BitsPrefix(n: int, k: nat, j: nat)
    requires j <= k
    ensures Bits(n, k)[..j] == Bits(n, j)
    decreases j
  {
    if j > 0 {
      BitsPrefix(n / 2, k - 1, j - 1);
      assert Bits(n, k)[..j] == [n % 2 == 1] + Bits(n / 2, k - 1)[..j - 1];
    }
  }

  /** The number of the bits, with the highest one as the sign if it is signed. */
  function Decoded(b: seq<bool>, isSigned: bool): int
    requires isSigned ==> b != []
  {
    if isSigned && b[|b| - 1] then Nat(b) - Pow2(|b|) else Nat(b)
  }

  lemma DecodedStep(b: seq<bool>, isSigned: bool)
    requires |b| > 1
    ensures Decoded(b, isSigned) == (if b[0] then 1 else 0) + 2 * Decoded(b[1..], isSigned)
  {
  }

  lemma {:induction false} BitsOfDecoded(b: seq<bool>, isSigned: bool)
    requires isSigned ==> b != []
    ensures Bits(Decoded(b, isSigned), |b|) == b
    decreases |b|
  {
    var n := Decoded(b, isSigned);
    if |b| > 1 {
      assert Bits(n, |b|) == [n % 2 == 1] + Bits(n / 2, |b| - 1);
      DecodedStep(b, isSigned);
      BitsOfDecoded(b[1..], isSigned);
      assert n / 2 == Decoded(b[1..], isSigned);
    } else if |b| == 1 {
      assert Bits(n, 1) == [n % 2 == 1] + Bits(n / 2, 0);
      assert Nat(b[1..]) == 0 && Pow2(1) == 2;
    }
  }

  lemma {:induction false} NatOfBits(n: nat, k: nat)
    requires n < Pow2(k)
    ensures Nat(Bits(n, k)) == n
    decreases k
  {
    if k > 0 {
      NatOfBits(n / 2, k - 1);
      assert Bits(n, k)[1..] == Bits(n / 2, k - 1);
    }
  }

  /** The highest of `k` bits is the sign of a number in the signed range. */
  lemma {:induction false} SignBit(n: int, k: nat)
    requires k >= 1 && n + Pow2(k - 1) >= 0 && n < Pow2(k - 1)
    ensures Bits(n, k)[k - 1] == (n < 0)
    ensures Nat(Bits(n, k)) == if n < 0 then n + Pow2(k) else n
    decreases k
  {
    assert Bits(n, k)[1..] == Bits(n / 2, k - 1);
    if k == 1 {
      assert Bits(n / 2, 0) == [];
    } else {
      SignBit(n / 2, k - 1);
    }
  }

  /** The highest bit set means a value of at least half the range. */
  lemma {:induction false} HighBit(b: seq<bool>)
    requires b != []
    ensures b[|b| - 1] <==> Nat(b) >= Pow2(|b| - 1)
  {
    if |b| > 1 {
      HighBit(b[1..]);
    } else {
      assert Nat(b[1..]) == 0;
    }
  }

  /** A number in the range of `k` bits is what its bits decode to. */
  lemma DecodedBits(n: int, k: nat, isSigned: bool)
    requires if isSigned then k >= 1 && n + Pow2(k - 1) >= 0 && n < Pow2(k - 1) else 0 <= n < Pow2(k)
    ensures Decoded(Bits(n, k), isSigned) == n
  {
    if isSigned {
      SignBit(n, k);
    } else {
      NatOfBits(n, k);
    }
  }
}
