/**
 The parity bit of LAN865x headers and footers. The driver folds the word upon itself by xor; the
 protocol asks for an odd number of ones in the whole word.
 */
module Lan865xParity {
  import opened Bits

  /** One turn of the folding loop moves the parity of the low `2 * k` bits into the low `k`. */
  lemma FoldStep(v: seq<bool>, k: nat)
    requires 2 * k <= |v|
    ensures Odd(Xor(v, Shr(v, k))[..k]) <==> Odd(v[..2 * k])
  {
    var low, high := v[..k], v[k..2 * k];
    assert Xor(v, Shr(v, k))[..k] == Xor(low, high);
    assert v[..2 * k] == low + high;
    OnesConcat(low, high);
    OddXor(low, high);
  }

  /** The parity bit: true exactly when bits 31 to 1 hold an even number of ones. */
  method Parity(word: Word) returns (parity: bool)
    ensures parity <==> !Odd(word[1..])
  {
    var value: Word := Shr(word, 1);
    var shift := 16;
    OnesConcat(word[1..], Zeros(1));
    OnesZeros(1);
    assert value[..32] == value;
    while shift >= 1
      invariant shift in [16, 8, 4, 2, 1, 0]
      invariant shift >= 1 ==> (Odd(value[..2 * shift]) <==> Odd(word[1..]))
      invariant shift == 0 ==> (Odd(value[..1]) <==> Odd(word[1..]))
    {
      FoldStep(value, shift);
      value := Xor(value, Shr(value, shift));
      shift := shift / 2;
    }
    assert Ones(value[..1]) == Bit(value[0]);
    return !value[0];
  }

  /** The driver's check of a footer: bit 0 is the parity bit of the others. */
  predicate Checked(w: Word) {
    w[0] <==> !Odd(w[1..])
  }

  /** The check accepts exactly the words with an odd number of ones. */
  lemma CheckedIsOdd(w: Word)
    ensures Checked(w) <==> Odd(w)
  {
  }

  /** Storing the parity bit in bit 0 makes the check succeed. */
  lemma ParityCompletes(w: Word)
    ensures Checked(w[0 := !Odd(w[1..])])
  {
    assert w[0 := !Odd(w[1..])][1..] == w[1..];
  }

  /** Of all corruptions of a good word, the check rejects exactly those that flip an odd number of bits. */
  lemma CorruptionRejected(w: Word, flips: Word)
    requires Checked(w)
    ensures !Checked(Xor(w, flips)) <==> Odd(flips)
  {
    CheckedIsOdd(w);
    CheckedIsOdd(Xor(w, flips));
    OddXor(w, flips);
  }

  /** The word with its four bytes in reverse order. */
  function Swapped(w: Word): Word {
    w[24..] + w[16..24] + w[8..16] + w[..8]
  }

  /** Byte order does not matter to the check, so a footer may be checked before it is swapped. */
  lemma SwapKeepsCheck(w: Word)
    ensures Checked(Swapped(w)) <==> Checked(w)
  {
    CheckedIsOdd(w);
    CheckedIsOdd(Swapped(w));
    OnesOfBytes(w[..8], w[8..16], w[16..24], w[24..]);
    OnesOfBytes(w[24..], w[16..24], w[8..16], w[..8]);
    assert w == w[..8] + w[8..16] + w[16..24] + w[24..];
  }

  lemma OnesOfBytes(a: seq<bool>, b: seq<bool>, c: seq<bool>, d: seq<bool>)
    ensures Ones(a + b + c + d) == Ones(a) + Ones(b) + Ones(c) + Ones(d)
  {
    OnesConcat(a, b);
    OnesConcat(a + b, c);
    OnesConcat(a + b + c, d);
  }
}
