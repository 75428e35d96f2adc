/**
 The multicast hash filter of the LAN865x: 64 counters of signed bytes in the driver, 64 filter bits in
 two chip registers. Addresses that share a hash share a counter and a bit.
 */
module Lan865xHashFilter {
  import opened Bytes
  import opened Bits

  const BUCKETS := 64

  type Address = a: seq<byte> | |a| == 6 witness [0, 0, 0, 0, 0, 0]

  /** A byte widened to a machine word, and the shift to the left that C's promotion allows. */
  function Widen(b: byte): Word {
    BitsOf(b, 8) + Zeros(24)
  }

  function Shl(w: Word, k: nat): Word
    requires k <= 32
  {
    Zeros(k) + w[..32 - k]
  }

  /** The 48 bits of an address, the first byte lowest. */
  function AddressBits(a: Address): (s: seq<bool>)
    ensures |s| == 48
  {
    BitsOf(a[0], 8) + BitsOf(a[1], 8) + BitsOf(a[2], 8) + BitsOf(a[3], 8) + BitsOf(a[4], 8) + BitsOf(a[5], 8)
  }

  /** The exclusive or of every sixth bit from `i` on. */
  function EverySixth(s: seq<bool>, i: nat): bool
    decreases |s| - i
  {
    i < |s| && s[i] != EverySixth(s, i + 6)
  }

  /** Six bits; bit `i` is the exclusive or of the address bits `i`, `i + 6` and so on. */
  function HashBits(a: Address): (s: seq<bool>)
    ensures |s| == 6
  {
    seq(6, i requires 0 <= i < 6 => EverySixth(AddressBits(a), i))
  }

  function Hash(a: Address): (h: nat)
    ensures h < BUCKETS
  {
    assert Pow2(6) == 64;
    Value(HashBits(a))
  }

  /** The shifts of two, four and six places that bring one byte of the address in line. */
  function Aligned(a: Address, n: nat): Word
    requires n < 6
  {
    var w := Widen(a[n]);
    if n % 3 == 0 then Xor(Shr(w, 6), w)
    else if n % 3 == 1 then Xor(Shr(w, 4), Shl(w, 2))
    else Xor(Shr(w, 2), Shl(w, 4))
  }

  /** Bit `i` of an aligned byte, in terms of the bits of the byte. */
  lemma AlignedBit(a: Address, n: nat, i: nat)
    requires n < 6 && i < 6
    ensures var b := BitsOf(a[n], 8);
            Aligned(a, n)[i] ==
            if n % 3 == 0 then (i < 2 && b[i + 6]) != b[i]
            else if n % 3 == 1 then (i < 4 && b[i + 4]) != (i >= 2 && b[i - 2])
            else b[i + 2] != (i >= 4 && b[i - 4])
  {
    hide BitsOf;
  }

  function ThreeBytes(a: Address, n: nat): (s: seq<bool>)
    requires n < 4
    ensures |s| == 24
  {
    BitsOf(a[n], 8) + BitsOf(a[n + 1], 8) + BitsOf(a[n + 2], 8)
  }

  /** Three bytes hold four groups of six bits; aligned and added up they give the groups' sum. */
  lemma AlignedGroups(a: Address, n: nat, i: nat)
    requires (n == 0 || n == 3) && i < 6
    ensures var s := ThreeBytes(a, n);
            ((Aligned(a, n)[i] != Aligned(a, n + 1)[i]) != Aligned(a, n + 2)[i]) ==
            ((s[i] != s[i + 6]) != (s[i + 12] != s[i + 18]))
  {
    hide BitsOf, Aligned;
    AlignedBit(a, n, i);
    AlignedBit(a, n + 1, i);
    AlignedBit(a, n + 2, i);
  }

  lemma XorSix(p: Word, q: Word, r: Word, s: Word, t: Word, u: Word, i: nat)
    requires i < 32
    ensures Xor(Xor(Xor(Xor(Xor(p, q), r), s), t), u)[i] ==
            (((p[i] != q[i]) != r[i]) != ((s[i] != t[i]) != u[i]))
  {
  }

  /** The shift form of the hash, as the driver computes it. */
  method HashValue(addr: Address) returns (h: nat)
    ensures h == Hash(addr)
  {
    var k: Word := Xor(Shr(Widen(addr[0]), 6), Widen(addr[0]));
    k := Xor(k, Xor(Shr(Widen(addr[1]), 4), Shl(Widen(addr[1]), 2)));
    k := Xor(k, Xor(Shr(Widen(addr[2]), 2), Shl(Widen(addr[2]), 4)));
    k := Xor(k, Xor(Shr(Widen(addr[3]), 6), Widen(addr[3])));
    k := Xor(k, Xor(Shr(Widen(addr[4]), 4), Shl(Widen(addr[4]), 2)));
    k := Xor(k, Xor(Shr(Widen(addr[5]), 2), Shl(Widen(addr[5]), 4)));
    ShiftFormIsHash(addr, k);
    h := Value(k[..6]);
  }

  lemma ShiftFormIsHash(a: Address, k: Word)
    requires k == Xor(Xor(Xor(Xor(Xor(Aligned(a, 0), Aligned(a, 1)), Aligned(a, 2)), Aligned(a, 3)), Aligned(a, 4)),
                      Aligned(a, 5))
    ensures k[..6] == HashBits(a)
  {
    hide Aligned, BitsOf, EverySixth, Xor;
    var all := AddressBits(a);
    assert all == ThreeBytes(a, 0) + ThreeBytes(a, 3);
    forall i: nat | i < 6 ensures k[i] == EverySixth(all, i) {
      XorSix(Aligned(a, 0), Aligned(a, 1), Aligned(a, 2), Aligned(a, 3), Aligned(a, 4), Aligned(a, 5), i);
      AlignedGroups(a, 0, i);
      AlignedGroups(a, 3, i);
      EightTerms(all, i);
    }
  }

  lemma EightTerms(s: seq<bool>, i: nat)
    requires |s| == 48 && i < 6
    ensures EverySixth(s, i) == (((s[i] != s[i + 6]) != (s[i + 12] != s[i + 18])) !=
                                 ((s[i + 24] != s[i + 30]) != (s[i + 36] != s[i + 42])))
  {
    assert EverySixth(s, i + 42) == s[i + 42];
    assert EverySixth(s, i + 36) == (s[i + 36] != s[i + 42]);
    assert EverySixth(s, i + 24) == (s[i + 24] != (s[i + 30] != EverySixth(s, i + 36)));
    assert EverySixth(s, i + 12) == (s[i + 12] != (s[i + 18] != EverySixth(s, i + 24)));
  }

  /** A number as a signed byte holds it. */
  function Int8(n: int): (r: int)
    ensures -128 <= r < 128 && (r - n) % 256 == 0
  {
    (n + 128) % 256 - 128
  }

  /** The driver's counters, the two registers, and the addresses registered so far. */
  datatype Filter = Filter(cnt: seq<int>, hrb: Word, hrt: Word, members: seq<Address>)

  datatype Op = Add(addr: Address) | Remove(addr: Address)

  ghost predicate Sized(f: Filter) {
    |f.cnt| == BUCKETS
  }

  predicate FilterBit(f: Filter, h: nat)
    requires h < BUCKETS
  {
    if h < 32 then f.hrb[h] else f.hrt[h - 32]
  }

  /** HRB holds the filter bits 0 to 31, HRT the others. */
  lemma RegistersInOrder(f: Filter, h: nat)
    requires h < BUCKETS
    ensures FilterBit(f, h) == (f.hrb + f.hrt)[h]
  {
  }

  /** Whether the chip lets frames to an address through. */
  predicate Passes(f: Filter, a: Address) {
    FilterBit(f, Hash(a))
  }

  function Count(ms: seq<Address>, h: nat): nat {
    if ms == [] then 0 else Bit(Hash(ms[0]) == h) + Count(ms[1..], h)
  }

  function Without(ms: seq<Address>, a: Address): seq<Address> {
    if ms == [] then [] else if ms[0] == a then ms[1..] else [ms[0]] + Without(ms[1..], a)
  }

  function SetBit(f: Filter, h: nat, on: bool): Filter
    requires h < BUCKETS
  {
    if h < 32 then f.(hrb := f.hrb[h := on]) else f.(hrt := f.hrt[h - 32 := on])
  }

  function Step(f: Filter, op: Op): Filter
    requires Sized(f)
  {
    var h := Hash(op.addr);
    match op
    case Add(a) => SetBit(f, h, true).(cnt := f.cnt[h := Int8(f.cnt[h] + 1)], members := f.members + [a])
    case Remove(a) =>
      var n := Int8(f.cnt[h] - 1);
      (if n == 0 then SetBit(f, h, false) else f).(cnt := f.cnt[h := n], members := Without(f.members, a))
  }

  /** Counters count the registered addresses, as far as a signed byte can, and bits tell which are positive. */
  ghost predicate Consistent(f: Filter) {
    && Sized(f)
    && (forall h | 0 <= h < BUCKETS :: f.cnt[h] == Int8(Count(f.members, h)))
    && (forall h | 0 <= h < BUCKETS :: FilterBit(f, h) <==> Count(f.members, h) > 0)
  }

  /** A removal takes back a registered address. */
  ghost predicate Matching(f: Filter, op: Op) {
    op.Remove? ==> op.addr in f.members
  }

  /** The removal leaves a positive multiple of 256 in its bucket, which a signed byte holds as zero. */
  predicate Wraps(f: Filter, op: Op) {
    op.Remove? && var n := Count(f.members, Hash(op.addr)) - 1; n > 0 && n % 256 == 0
  }

  lemma {:induction false} CountAppend(ms: seq<Address>, a: Address, h: nat)
    ensures Count(ms + [a], h) == Count(ms, h) + Bit(Hash(a) == h)
  {
    hide Hash;
    if ms == [] {
      assert ms + [a] == [a] && [a][1..] == [];
    } else {
      assert (ms + [a])[1..] == ms[1..] + [a];
      CountAppend(ms[1..], a, h);
    }
  }

  lemma {:induction false} CountWithout(ms: seq<Address>, a: Address, h: nat)
    requires a in ms
    ensures Count(Without(ms, a), h) + Bit(Hash(a) == h) == Count(ms, h)
  {
    hide Hash;
    if ms[0] != a {
      CountWithout(ms[1..], a, h);
      assert ([ms[0]] + Without(ms[1..], a))[1..] == Without(ms[1..], a);
    }
  }

  lemma {:induction false} CountMember(ms: seq<Address>, a: Address)
    requires a in ms
    ensures Count(ms, Hash(a)) > 0
  {
    if ms[0] != a {
      CountMember(ms[1..], a);
    }
  }

  /** Two signed bytes that differ by a multiple of 256 are the same. */
  lemma Int8Same(m: int, n: int)
    requires (m - n) % 256 == 0
    ensures Int8(m) == Int8(n)
  {
    var q := (m - n) / 256;
    assert m + 128 == n + 128 + 256 * q;
  }

  lemma Int8Step(n: int)
    ensures Int8(Int8(n) + 1) == Int8(n + 1) && Int8(Int8(n) - 1) == Int8(n - 1)
    ensures Int8(n) == 0 <==> n % 256 == 0
  {
    hide Int8;
    Int8Same(Int8(n) + 1, n + 1);
    Int8Same(Int8(n) - 1, n - 1);
    Int8Zero(n);
  }

  lemma Int8Zero(n: int)
    ensures Int8(n) == 0 <==> n % 256 == 0
  {
    var q := n / 256;
    assert n == 256 * q + n % 256;
  }

  /** The number registered in bucket `h` after a step. */
  function NextCount(f: Filter, op: Op, h: nat): int {
    Count(f.members, h) + if Hash(op.addr) != h then 0 else if op.Add? then 1 else -1
  }

  lemma CountStep(f: Filter, op: Op, h: nat)
    requires Sized(f) && Matching(f, op) && h < BUCKETS
    ensures Count(Step(f, op).members, h) == NextCount(f, op, h)
  {
    hide Hash, Count;
    if op.Add? {
      CountAppend(f.members, op.addr, h);
    } else {
      CountWithout(f.members, op.addr, h);
    }
  }

  /** One bucket after a step: its counter follows, and its bit does unless the counter wraps. */
  lemma BucketStep(f: Filter, op: Op, h: nat)
    requires Consistent(f) && Matching(f, op) && h < BUCKETS
    ensures var g := Step(f, op);
            && g.cnt[h] == Int8(Count(g.members, h))
            && ((FilterBit(g, h) <==> Count(g.members, h) > 0) <==> !(Wraps(f, op) && h == Hash(op.addr)))
  {
    hide Hash, Count, Int8;
    CountStep(f, op, h);
    Int8Step(Count(f.members, h));
    Int8Step(Count(f.members, h) - 1);
  }

  /** Removing an address that is not registered leaves the counter of its bucket one too low. */
  lemma UnmatchedBreaks(f: Filter, op: Op)
    requires Consistent(f) && !Matching(f, op)
    ensures !Consistent(Step(f, op))
  {
    hide Hash, Count, Int8, FilterBit;
    WithoutAbsent(f.members, op.addr);
    Int8Step(Count(f.members, Hash(op.addr)));
    Int8Apart(Count(f.members, Hash(op.addr)));
  }

  lemma {:induction false} WithoutAbsent(ms: seq<Address>, a: Address)
    requires a !in ms
    ensures Without(ms, a) == ms
  {
    if ms != [] {
      WithoutAbsent(ms[1..], a);
    }
  }

  lemma Int8Apart(n: int)
    ensures Int8(n - 1) != Int8(n)
  {
  }

  lemma MatchedConsistent(f: Filter, op: Op)
    requires Consistent(f) && Matching(f, op)
    ensures Consistent(Step(f, op)) <==> !Wraps(f, op)
  {
    hide Hash, Count, Int8, FilterBit, Wraps;
    forall h: nat | h < BUCKETS
      ensures var g := Step(f, op);
              && g.cnt[h] == Int8(Count(g.members, h))
              && ((FilterBit(g, h) <==> Count(g.members, h) > 0) <==> !(Wraps(f, op) && h == Hash(op.addr)))
    {
      BucketStep(f, op, h);
    }
    BucketStep(f, op, Hash(op.addr));
  }

  /**
   A step keeps counters and bits right if and only if it takes back no address that is not registered and
   wraps no counter to zero.
   */
  lemma StepConsistent(f: Filter, op: Op)
    requires Consistent(f)
    ensures Consistent(Step(f, op)) <==> Matching(f, op) && !Wraps(f, op)
  {
    hide Consistent, Matching, Wraps;
    if Matching(f, op) { MatchedConsistent(f, op); } else { UnmatchedBreaks(f, op); }
  }

  function Run(f: Filter, ops: seq<Op>): (g: Filter)
    requires Sized(f)
    ensures Sized(g)
    decreases |ops|
  {
    if ops == [] then f else Run(Step(f, ops[0]), ops[1..])
  }

  /** A run of adds and matching removes in which no step wraps a counter. */
  ghost predicate Orderly(f: Filter, ops: seq<Op>)
    requires Sized(f)
    decreases |ops|
  {
    ops == [] || (Matching(f, ops[0]) && !Wraps(f, ops[0]) && Orderly(Step(f, ops[0]), ops[1..]))
  }

  /** The filter agrees with what is registered in every state of a run. */
  ghost predicate AlwaysConsistent(f: Filter, ops: seq<Op>)
    requires Sized(f)
    decreases |ops|
  {
    Consistent(f) && (ops == [] || AlwaysConsistent(Step(f, ops[0]), ops[1..]))
  }

  /** It does so if and only if every removal is a matching one and none wraps a counter. */
  lemma {:induction false} ConsistentIffOrderly(f: Filter, ops: seq<Op>)
    requires Consistent(f)
    ensures AlwaysConsistent(f, ops) <==> Orderly(f, ops)
    decreases |ops|
  {
    hide Step, Matching, Wraps;
    if ops != [] {
      StepConsistent(f, ops[0]);
      if Matching(f, ops[0]) && !Wraps(f, ops[0]) {
        ConsistentIffOrderly(Step(f, ops[0]), ops[1..]);
      }
    }
  }

  /** Over such a run, of any length, the filter ends in agreement with what is registered. */
  lemma {:induction false} RunConsistent(f: Filter, ops: seq<Op>)
    requires Consistent(f) && Orderly(f, ops)
    ensures Consistent(Run(f, ops))
    decreases |ops|
  {
    if ops != [] {
      StepConsistent(f, ops[0]);
      RunConsistent(Step(f, ops[0]), ops[1..]);
    }
  }

  /** Every registered address gets through, and what gets through shares a hash with one. */
  lemma RegisteredPass(f: Filter, a: Address)
    requires Consistent(f)
    ensures a in f.members ==> Passes(f, a)
    ensures Passes(f, a) ==> exists m :: m in f.members && Hash(m) == Hash(a)
  {
    if a in f.members {
      CountMember(f.members, a);
    }
    if Passes(f, a) {
      var m := SomeMember(f.members, Hash(a));
    }
  }

  lemma {:induction false} SomeMember(ms: seq<Address>, h: nat) returns (m: Address)
    requires Count(ms, h) > 0
    ensures m in ms && Hash(m) == h
  {
    if Hash(ms[0]) == h {
      m := ms[0];
    } else {
      m := SomeMember(ms[1..], h);
    }
  }

  const FRESH := Filter(seq(BUCKETS, _ => 0), Zeros(32), Zeros(32), [])

  lemma {:induction false} AddsAreOrderly(f: Filter, a: Address, n: nat)
    requires Consistent(f)
    ensures var ops := seq(n, _ => Add(a));
            Orderly(f, ops) && Count(Run(f, ops).members, Hash(a)) == Count(f.members, Hash(a)) + n
            && (n > 0 ==> a in Run(f, ops).members) && (a in f.members ==> a in Run(f, ops).members)
    decreases n
  {
    if n != 0 {
      StepConsistent(f, Add(a));
      CountAppend(f.members, a, Hash(a));
      var ops := seq(n, _ => Add(a));
      assert ops[1..] == seq(n - 1, _ => Add(a));
      AddsAreOrderly(Step(f, Add(a)), a, n - 1);
    }
  }

  /** 257 registrations and one removal leave 256 behind, and the address no longer gets through. */
  lemma WrappedCounterBlocks(a: Address)
    ensures var f := Run(FRESH, seq(257, _ => Add(a)));
            Count(Step(f, Remove(a)).members, Hash(a)) == 256 && !Passes(Step(f, Remove(a)), a)
  {
    hide Hash, Run, Orderly, SetBit;
    assert Consistent(FRESH);
    AddsAreOrderly(FRESH, a, 257);
    RunConsistent(FRESH, seq(257, _ => Add(a)));
    var f := Run(FRESH, seq(257, _ => Add(a)));
    CountWithout(f.members, a, Hash(a));
    BitCleared(f, Hash(a));
  }

  /** Removing an address that is not registered blocks the only registered one of its bucket. */
  lemma UnmatchedRemovalBlocks(f: Filter, a: Address, b: Address)
    requires Consistent(f) && a in f.members && b !in f.members && Hash(a) == Hash(b) && Count(f.members, Hash(a)) == 1
    ensures a in Step(f, Remove(b)).members && !Passes(Step(f, Remove(b)), a)
  {
    hide Hash, Count, SetBit;
    WithoutAbsent(f.members, b);
    BitCleared(f, Hash(a));
    assert Int8(Int8(1) - 1) == 0;
  }

  const ZERO_ADDRESS: Address := [0, 0, 0, 0, 0, 0]
  const OTHER_ADDRESS: Address := [0x41, 0, 0, 0, 0, 0]

  lemma {:induction false} ZeroBits(k: nat)
    ensures BitsOf(0, k) == Zeros(k)
  {
    if k != 0 {
      ZeroBits(k - 1);
      assert Zeros(k) == [false] + Zeros(k - 1);
    }
  }

  lemma OtherBits()
    ensures BitsOf(0x41, 8) == [true, false, false, false, false, false, true, false]
  {
    assert BitsOf(1, 2) == [true, false];
    assert BitsOf(4, 4) == [false, false, true, false];
    assert BitsOf(16, 6) == [false, false, false, false, true, false];
  }

  /** The bits 0 and 6 of an address go into the same bit of the hash and cancel out. */
  lemma SharedHash()
    ensures Hash(ZERO_ADDRESS) == Hash(OTHER_ADDRESS)
  {
    hide BitsOf, EverySixth, Value;
    ZeroBits(8);
    OtherBits();
    var s, t := AddressBits(ZERO_ADDRESS), AddressBits(OTHER_ADDRESS);
    assert s == Zeros(48);
    assert t == BitsOf(0x41, 8) + Zeros(40);
    assert forall j | 0 <= j < 48 :: !s[j] && t[j] == (j == 0 || j == 6);
    SameSixths(s, t);
    assert HashBits(ZERO_ADDRESS) == HashBits(OTHER_ADDRESS);
  }

  lemma SameSixths(s: seq<bool>, t: seq<bool>)
    requires |s| == 48 == |t| && forall j | 0 <= j < 48 :: !s[j] && t[j] == (j == 0 || j == 6)
    ensures forall i: nat | i < 6 :: EverySixth(s, i) == EverySixth(t, i)
  {
    hide EverySixth;
    forall i: nat | i < 6 ensures EverySixth(s, i) == EverySixth(t, i) {
      EightTerms(s, i);
      EightTerms(t, i);
    }
  }

  /** One address registered, another one of the same bucket removed: the registered one is blocked. */
  lemma UnmatchedRemovalHappens()
    ensures var f := Step(Step(FRESH, Add(ZERO_ADDRESS)), Remove(OTHER_ADDRESS));
            ZERO_ADDRESS in f.members && !Passes(f, ZERO_ADDRESS)
  {
    hide Hash, SetBit;
    var f := Step(FRESH, Add(ZERO_ADDRESS));
    SharedHash();
    assert Consistent(FRESH);
    StepConsistent(FRESH, Add(ZERO_ADDRESS));
    CountAppend([], ZERO_ADDRESS, Hash(ZERO_ADDRESS));
    assert [] + [ZERO_ADDRESS] == [ZERO_ADDRESS] == f.members;
    assert ZERO_ADDRESS[0] != OTHER_ADDRESS[0];
    UnmatchedRemovalBlocks(f, ZERO_ADDRESS, OTHER_ADDRESS);
  }

  lemma BitCleared(f: Filter, h: nat)
    requires h < BUCKETS
    ensures !FilterBit(SetBit(f, h, false), h)
  {
  }

  class Emac {
    var hashFilterCnt: array<int>
    var hrb: Word
    var hrt: Word
    ghost var members: seq<Address>

    ghost predicate Valid()
      reads this, hashFilterCnt
    {
      hashFilterCnt.Length == BUCKETS
    }

    ghost function State(): Filter
      reads this, hashFilterCnt
    {
      Filter(hashFilterCnt[..], hrb, hrt, members)
    }

    constructor ()
      ensures Valid() && fresh(hashFilterCnt) && State() == FRESH
    {
      hashFilterCnt := new int[BUCKETS](_ => 0);
      hrb, hrt := Zeros(32), Zeros(32);
      members := [];
      new;
      assert hashFilterCnt[..] == FRESH.cnt;
    }

    method HashFilterModify(addr: Address, add: bool)
      requires Valid()
      modifies this, hashFilterCnt
      ensures Valid() && hashFilterCnt == old(hashFilterCnt)
      ensures State() == Step(old(State()), if add then Add(addr) else Remove(addr))
    {
      hide Hash;
      var hash := HashValue(addr);
      var group, bit := hash / 32, hash % 32;
      var macHrb, macHrt := hrb, hrt;
      var reg := if group == 0 then macHrb else macHrt;
      if add {
        reg := reg[bit := true];
        hashFilterCnt[hash] := Int8(hashFilterCnt[hash] + 1);
        members := members + [addr];
      } else {
        hashFilterCnt[hash] := Int8(hashFilterCnt[hash] - 1);
        if hashFilterCnt[hash] == 0 {
          reg := reg[bit := false];
        }
        members := Without(members, addr);
      }
      if group == 0 {
        macHrb := reg;
      } else {
        macHrt := reg;
      }
      hrb := macHrb;
      hrt := macHrt;
    }
  }
}
