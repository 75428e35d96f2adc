/**
 Machine words as sequences of bits, the least significant first, and the number of ones in them.
 */
module Bits {
  type Word = w: seq<bool> | |w| == 32 witness seq(32, _ => false)

  function Bit(on: bool): nat {
    if on then 1 else 0
  }

  function Zeros(n: nat): (s: seq<bool>)
    ensures |s| == n
  {
    seq(n, _ => false)
  }

  function Xor(a: seq<bool>, b: seq<bool>): (s: seq<bool>)
    requires |a| == |b|
    ensures |s| == |a|
  {
    seq(|a|, i requires 0 <= i < |a| => a[i] != b[i])
  }

  /** The logical shift to the right by `k` places. */
  function Shr(a: seq<bool>, k: nat): (s: seq<bool>)
    requires k <= |a|
    ensures |s| == |a|
  {
    a[k..] + Zeros(k)
  }

  function Ones(s: seq<bool>): nat {
    if s == [] then 0 else Bit(s[0]) + Ones(s[1..])
  }

  predicate Odd(s: seq<bool>) {
    Ones(s) % 2 == 1
  }

  lemma {:induction false} OnesConcat(a: seq<bool>, b: seq<bool>)
    ensures Ones(a + b) == Ones(a) + Ones(b)
    decreases |a|
  {
    if a == [] {
      assert a + b == b;
    } else {
      assert (a + b)[1..] == a[1..] + b;
      OnesConcat(a[1..], b);
    }
  }

  lemma {:induction false} OddXor(a: seq<bool>, b: seq<bool>)
    requires |a| == |b|
    ensures Odd(Xor(a, b)) <==> Odd(a) != Odd(b)
    decreases |a|
  {
    if a != [] {
      assert Xor(a, b)[1..] == Xor(a[1..], b[1..]);
      OddXor(a[1..], b[1..]);
    }
  }

  lemma {:induction false} OnesZeros(n: nat)
    ensures Ones(Zeros(n)) == 0
  {
    if n != 0 {
      assert Zeros(n)[1..] == Zeros(n - 1);
      OnesZeros(n - 1);
    }
  }

  function Pow2(k: nat): (p: nat)
    ensures p > 0
  {
    if k == 0 then 1 else 2 * Pow2(k - 1)
  }

  /** The number a sequence of bits stands for. */
  function Value(s: seq<bool>): (n: nat)
    ensures n < Pow2(|s|)
  {
    if s == [] then 0 else Bit(s[0]) + 2 * Value(s[1..])
  }

  lemma {:induction false} ZeroValue(n: nat)
    ensures Value(Zeros(n)) == 0
  {
    if n != 0 {
      assert Zeros(n)[1..] == Zeros(n - 1);
      ZeroValue(n - 1);
    }
  }

  /** The `k` low bits of a number. */
  function BitsOf(n: nat, k: nat): (s: seq<bool>)
    ensures |s| == k
    decreases k
  {
    if k == 0 then [] else [n % 2 == 1] + BitsOf(n / 2, k - 1)
  }

  lemma {:induction false} BitsOfValue(s: seq<bool>)
    ensures BitsOf(Value(s), |s|) == s
    decreases |s|
  {
    if s != [] {
      assert Value(s) / 2 == Value(s[1..]);
      BitsOfValue(s[1..]);
    }
  }

  lemma {:induction false} ValueOfBits(n: nat, k: nat)
    requires n < Pow2(k)
    ensures Value(BitsOf(n, k)) == n
    decreases k
  {
    if k != 0 {
      assert BitsOf(n, k)[1..] == BitsOf(n / 2, k - 1);
      ValueOfBits(n / 2, k - 1);
    }
  }

  lemma {:induction false} ValueConcat(a: seq<bool>, b: seq<bool>)
    ensures Value(a + b) == Value(a) + Pow2(|a|) * Value(b)
    decreases |a|
  {
    if a == [] {
      assert a + b == b;
    } else {
      assert (a + b)[1..] == a[1..] + b;
      ValueConcat(a[1..], b);
      ConcatStep(Bit(a[0]), Value(a[1..]), Pow2(|a| - 1), Value(b));
      hide Bit;
    }
  }

  lemma ConcatStep(x: nat, y: nat, p: nat, v: nat)
    ensures x + 2 * (y + p * v) == (x + 2 * y) + (2 * p) * v
  {
  }

  /** A stretch of bits is a quotient of the number, cut to its width. */
  lemma ValueSlice(s: seq<bool>, i: nat, j: nat)
    requires i <= j <= |s|
    ensures Value(s[i..j]) == Value(s) / Pow2(i) % Pow2(j - i)
  {
    hide Value, Pow2;
    ValueConcat(s[..i], s[i..]);
    ValueConcat(s[i..j], s[j..]);
    assert s == s[..i] + s[i..] && s[i..] == s[i..j] + s[j..];
    DivMod(Value(s[..i]), Value(s[i..j]), Value(s[j..]), Pow2(i), Pow2(j - i));
  }

  lemma DivMod(low: nat, mid: nat, high: nat, p: nat, q: nat)
    requires low < p && mid < q
    ensures (low + p * (mid + q * high)) / p % q == mid
  {
    QuotientIs(low, mid + q * high, p);
    QuotientIs(mid, high, q);
  }

  lemma QuotientIs(r: nat, n: nat, p: nat)
    requires r < p
    ensures (r + p * n) / p == n && (r + p * n) % p == r
  {
    var x := r + p * n;
    var a, b := x / p, x % p;
    assert x == p * a + b;
    if a < n { Apart(p, a, n); } else if a > n { Apart(p, n, a); }
  }

  lemma {:induction false} Apart(p: nat, a: nat, n: nat)
    requires a < n
    ensures p * a + p <= p * n
    decreases n - a
  {
    OneMore(p, a);
    if a + 1 < n {
      Apart(p, a + 1, n);
    }
  }

  lemma OneMore(p: nat, a: nat)
    ensures p * (a + 1) == p * a + p
  {
  }

  /** One bit of a number. */
  lemma ValueBit(s: seq<bool>, i: nat)
    requires i < |s|
    ensures Bit(s[i]) == Value(s) / Pow2(i) % 2
  {
    ValueSlice(s, i, i + 1);
    assert s[i..i + 1] == [s[i]] && Pow2(1) == 2;
    assert Value([s[i]]) == Bit(s[i]) by { assert [s[i]][1..] == []; }
  }
}
