/**
 The transmit path of the LAN865x driver: a frame is cut into blocks of 64 bytes, each sent behind a
 data header from the buffer into which the chip's answer comes back.
 */
module Lan865xTransmit {
  import opened Bytes
  import opened Bits
  import opened Lan865xParity
  import opened Lan865xFrames
  import opened Lan865xStream

  /** The header of block `k` of a frame, without its parity bit. */
  function HeaderBits(length: nat, k: nat): Word
    requires k < Blocks(length)
  {
    var base: Word := Zeros(32)[31 := true][21 := true][29 := true];
    var w: Word := if k == 0 then base[20 := true] else base;
    if k == Blocks(length) - 1 then SetEbo(w[14 := true], (length - 1) % BLOCK) else w
  }

  function SetEbo(w: Word, n: nat): (r: Word)
    requires n < BLOCK
    ensures forall i | (0 <= i < 8 || 14 <= i < 32) :: r[i] == w[i]
    ensures r[8..14] == BitsOf(n, 6)
  {
    w[..8] + BitsOf(n, 6) + w[14..]
  }

  function Header(length: nat, k: nat): Word
    requires k < Blocks(length)
  {
    var w := HeaderBits(length, k);
    w[0 := !Odd(w[1..])]
  }

  /** The bytes of one SPI exchange, in either direction. */
  type Packet = a: seq<byte> | |a| == BLOCK + WORD_SIZE witness seq(BLOCK + WORD_SIZE, _ => 0)

  /** What goes out for block `k`: its header and its bytes; behind the last byte of the frame anything may follow. */
  ghost predicate Segment(sent: Packet, f: seq<byte>, k: nat) {
    && k < Blocks(|f|)
    && sent[..WORD_SIZE] == ToWire(Header(|f|, k))
    && sent[WORD_SIZE..WORD_SIZE + Share(f, k)] == f[k * BLOCK..k * BLOCK + Share(f, k)]
  }

  ghost predicate AllSegments(sent: seq<Packet>, f: seq<byte>) {
    |sent| <= Blocks(|f|) && forall k | 0 <= k < |sent| :: Segment(sent[k], f, k)
  }

  /** The footer of an answer as the transmit path reads it, without swapping its bytes. */
  function RawFooter(a: Packet): Word {
    Swapped(FromWire(a[BLOCK..]))
  }

  /** Whether the transmit path goes on after an answer. */
  predicate Accepted(a: Packet) {
    Checked(RawFooter(a)) && !Hdrb(RawFooter(a))
  }

  /** The bits the transmit path sees, from the four bytes behind the block. */
  lemma RawIs(a: Packet)
    ensures RawFooter(a) == BitsOf(a[64], 8) + BitsOf(a[65], 8) + BitsOf(a[66], 8) + BitsOf(a[67], 8)
  {
    hide BitsOf;
  }

  /** An answer is accepted if and only if its footer has an odd number of ones and bit 6 of its last byte is clear. */
  lemma AcceptedExact(a: Packet)
    ensures Accepted(a) <==>
            var ones := Ones(BitsOf(a[64], 8)) + Ones(BitsOf(a[65], 8))
                      + Ones(BitsOf(a[66], 8)) + Ones(BitsOf(a[67], 8));
            ones % 2 == 1 && a[67] as int / 64 % 2 == 0
  {
    hide BitsOf, Ones, RawFooter, Checked;
    RawIs(a);
    CheckedIsOdd(RawFooter(a));
    OnesOfBytes(BitsOf(a[64], 8), BitsOf(a[65], 8), BitsOf(a[66], 8), BitsOf(a[67], 8));
    SixthBit(a[67]);
    assert Hdrb(RawFooter(a)) == BitsOf(a[67], 8)[6];
  }

  lemma SixthBit(b: byte)
    ensures BitsOf(b, 8)[6] <==> b as int / 64 % 2 == 1
  {
    hide Value, Pow2, BitsOf;
    assert Pow2(8) == 0x100 && Pow2(6) == 0x40 by { Powers(); }
    ValueOfBits(b, 8);
    ValueBit(BitsOf(b, 8), 6);
  }

  /** A line that is stuck answers with four equal bytes, and none such is accepted. */
  lemma StuckLineRefused(a: Packet)
    requires a[64] == a[65] == a[66] == a[67]
    ensures !Accepted(a)
  {
    hide BitsOf, Ones, Accepted;
    AcceptedExact(a);
  }

  predicate AllAccepted(answers: seq<Packet>, n: nat) {
    n <= |answers| && forall k | 0 <= k < n :: Accepted(answers[k])
  }

  /** The footer of `b` is that of `a` but for the bits in `flips`. */
  predicate Flipped(a: Packet, b: Packet, flips: Word) {
    FromWire(b[BLOCK..]) == Xor(FromWire(a[BLOCK..]), flips)
  }

  /** An accepted answer of whose footer an odd number of bits are flipped is accepted no more. */
  lemma FlippedRefused(a: Packet, b: Packet, flips: Word)
    requires Accepted(a) && Flipped(a, b, flips) && Odd(flips)
    ensures !Accepted(b)
  {
    hide FromWire, Checked, Odd, Swapped;
    SwapKeepsCheck(FromWire(a[BLOCK..]));
    SwapKeepsCheck(FromWire(b[BLOCK..]));
    CorruptionRejected(FromWire(a[BLOCK..]), flips);
  }

  /**
   What the transmit path looks at, in terms of the footer the chip has sent: for a bad header it looks at
   bit 6, the parity of a time stamp, and for waiting blocks at the parity bit and the low transmit credits.
   */
  lemma RawFields(a: Packet, w: Word)
    requires a[64..] == ToWire(w)
    ensures Checked(RawFooter(a)) <==> Ones(w) % 2 == 1
    ensures Hdrb(RawFooter(a)) <==> w[6]
    ensures Rba(RawFooter(a)) == Value(w[..5])
  {
    hide ToWire, FromWire, Value, Ones, Checked;
    WireRoundTrip(w);
    SwapKeepsCheck(w);
    CheckedIsOdd(w);
    assert Swapped(w)[24..29] == w[..5];
  }

  /** So its check does what it is for if and only if that bit equals the header-bad bit, or the parity is bad. */
  lemma HeaderBadSeenIff(a: Packet, w: Word)
    requires a[64..] == ToWire(w)
    ensures (Accepted(a) <==> Ones(w) % 2 == 1 && !w[30]) <==> (Ones(w) % 2 == 0 || w[6] == w[30])
  {
    hide ToWire, RawFooter, Checked, Ones;
    RawFields(a, w);
  }

  /** A chip that reports a bad header and is not heard. */
  lemma HeaderBadMissed(a: Packet)
    requires a[64..] == [0x40, 0, 0, 0]
    ensures FromWire(a[64..])[30] && Accepted(a)
  {
    hide Accepted, Ones, Bit;
    BitsOfZero(8);
    AcceptedExact(a);
    OneBit();
  }

  lemma {:induction false} BitsOfZero(k: nat)
    ensures BitsOf(0, k) == Zeros(k) && Ones(Zeros(k)) == 0
  {
    OnesZeros(k);
    if k > 0 {
      BitsOfZero(k - 1);
      assert BitsOf(0, k) == [false] + BitsOf(0, k - 1);
    }
  }

  lemma OneBit()
    ensures BitsOf(0x40, 8) == Zeros(8)[6 := true] && Ones(BitsOf(0x40, 8)) == 1
  {
    BitsOfZero(1);
    OnesZeros(6);
    assert BitsOf(0x40, 8) == Zeros(6) + ([true] + Zeros(1));
    OnesConcat(Zeros(6), [true] + Zeros(1));
  }

  /** The number of blocks sent when block `i` of `n` is next: all, unless an answer is not accepted. */
  function SendsUntil(answers: seq<Packet>, i: nat, n: nat): (k: nat)
    requires i <= n <= |answers|
    ensures i <= k <= n
    decreases n - i
  {
    if i == n then n
    else if !Accepted(answers[i]) then i + 1
    else SendsUntil(answers, i + 1, n)
  }

  /** Sending stops behind the first answer that is not accepted, and only there. */
  lemma {:induction false} SendsExact(answers: seq<Packet>, i: nat, n: nat, j: nat)
    requires i <= n <= |answers| && i <= j < n
    ensures j < SendsUntil(answers, i, n) <==> forall k | i <= k < j :: Accepted(answers[k])
    decreases n - i
  {
    hide Accepted;
    if Accepted(answers[i]) && i < j {
      SendsExact(answers, i + 1, n, j);
    }
  }

  /** The first answer that is not accepted is the last one taken. */
  lemma {:induction false} StopsBehind(answers: seq<Packet>, i: nat, n: nat, j: nat)
    requires i <= j < n <= |answers| && !Accepted(answers[j]) && forall k | i <= k < j :: Accepted(answers[k])
    ensures SendsUntil(answers, i, n) == j + 1
    decreases n - i
  {
    hide Accepted;
    if i < j {
      StopsBehind(answers, i + 1, n, j);
    }
  }

  /** Flip an odd number of footer bits in one of many good answers: its block is the last one sent. */
  lemma FlipStopsThere(answers: seq<Packet>, n: nat, j: nat, good: Packet, flips: Word)
    requires j < n <= |answers| && AllAccepted(answers, j)
    requires Accepted(good) && Flipped(good, answers[j], flips) && Odd(flips)
    ensures !Accepted(answers[j]) && SendsUntil(answers, 0, n) == j + 1
  {
    hide Accepted, Flipped, Odd, SendsUntil;
    FlippedRefused(good, answers[j], flips);
    StopsBehind(answers, 0, n, j);
  }

  class Port {
    const answers: seq<Packet>
    var sent: seq<Packet>

    constructor (answers: seq<Packet>)
      ensures this.answers == answers && sent == []
    {
      this.answers, sent := answers, [];
    }

    /** One exchange over the shared buffer: the block goes out, the answer takes its place. */
    method Exchange(buf: array<byte>)
      requires buf.Length >= BLOCK + WORD_SIZE && |sent| < |answers|
      modifies this`sent, buf
      ensures sent == old(sent) + [old(buf[..BLOCK + WORD_SIZE])]
      ensures buf[..BLOCK + WORD_SIZE] == answers[old(|sent|)]
    {
      var answer := answers[|sent|];
      sent := sent + [buf[..BLOCK + WORD_SIZE]];
      forall i | 0 <= i < BLOCK + WORD_SIZE {
        buf[i] := answer[i];
      }
    }
  }

  method PutBytes(buf: array<byte>, at: nat, bytes: seq<byte>)
    requires at + |bytes| <= buf.Length
    modifies buf
    ensures buf[..at] == old(buf[..at]) && buf[at..at + |bytes|] == bytes
  {
    forall i | 0 <= i < |bytes| {
      buf[at + i] := bytes[i];
    }
  }

  /** Builds the header of block `i`, field by field. */
  method BuildHeader(length: nat, i: nat, chunks: nat) returns (w: Word)
    requires chunks == Blocks(length) && i < chunks
    ensures w == Header(length, i)
  {
    w := Zeros(32);
    w := w[31 := true];
    w := w[21 := true];
    w := w[29 := true];
    if i == 0 {
      w := w[20 := true];
    }
    if i == chunks - 1 {
      w := w[14 := true];
      w := SetEbo(w, (length - 1) % BLOCK);
    }
    var parity := Parity(w);
    w := w[0 := parity];
  }

  /** Of the first `n` answers the last one is refused, and only that one. */
  predicate LastRefused(answers: seq<Packet>, n: nat) {
    0 < n <= |answers| && !Accepted(answers[n - 1]) && AllAccepted(answers, n - 1)
  }

  /** What is in the buffer wakes the receive task, unless it is an answer with bad parity. */
  predicate Wakes(a: Packet, unsent: bool) {
    (unsent || Checked(RawFooter(a))) && Rba(RawFooter(a)) > 0
  }

  /** One frame, block by block; `notified` tells whether the receive task is woken on the way out. */
  method FrameTransmit(port: Port, buf: array<byte>, f: seq<byte>) returns (ret: Err, notified: bool)
    requires buf.Length >= BLOCK + WORD_SIZE && port.sent == [] && |port.answers| >= Blocks(|f|)
    modifies port`sent, buf
    ensures |port.sent| == SendsUntil(port.answers, 0, Blocks(|f|))
    ensures AllSegments(port.sent, f)
    ensures ret == Ok <==> AllAccepted(port.answers, Blocks(|f|))
    ensures ret == Ok ==> |port.sent| == Blocks(|f|)
    ensures ret != Ok ==> ret == InvalidCrc && LastRefused(port.answers, |port.sent|)
    ensures port.sent == [] ==> buf[..] == old(buf[..])
    ensures port.sent != [] ==> buf[..BLOCK + WORD_SIZE] == port.answers[|port.sent| - 1]
    ensures notified <==> Wakes(buf[..BLOCK + WORD_SIZE], port.sent == [])
  {
    hide Header, RawFooter, Odd, Segment, Rba, Checked;
    var chunks := (|f| + BLOCK - 1) / BLOCK;
    var i := 0;
    while i < chunks
      invariant i <= chunks == Blocks(|f|) && |port.sent| == i
      invariant SendsUntil(port.answers, i, chunks) == SendsUntil(port.answers, 0, chunks)
      invariant AllSegments(port.sent, f)
      invariant AllAccepted(port.answers, i)
      invariant if i == 0 then buf[..] == old(buf[..]) else buf[..BLOCK + WORD_SIZE] == port.answers[i - 1]
    {
      PutBlock(buf, f, i, chunks);
      port.Exchange(buf);
      var footer := ReadFooter(buf);
      var parity := Parity(footer);
      i := i + 1;
      CheckedIs(footer);
      if parity != footer[0] {
        return InvalidCrc, false;
      }
      if Hdrb(footer) {
        return InvalidCrc, Rba(footer) > 0;
      }
    }
    var footer := ReadFooter(buf);
    return Ok, Rba(footer) > 0;
  }

  lemma CheckedIs(w: Word)
    ensures Checked(w) <==> (w[0] <==> !Odd(w[1..]))
  {
  }

  /** Header and bytes of block `i`, put where the last answer was. */
  method PutBlock(buf: array<byte>, f: seq<byte>, i: nat, chunks: nat)
    requires buf.Length >= BLOCK + WORD_SIZE && chunks == Blocks(|f|) && i < chunks
    modifies buf
    ensures Segment(buf[..BLOCK + WORD_SIZE], f, i)
  {
    hide Header, ToWire;
    var header := BuildHeader(|f|, i, chunks);
    var share := if i == chunks - 1 then |f| - i * BLOCK else BLOCK;
    PutBytes(buf, 0, ToWire(header));
    assert buf[..WORD_SIZE] == buf[0..WORD_SIZE];
    PutBytes(buf, WORD_SIZE, f[i * BLOCK..i * BLOCK + share]);
    SliceTwice(buf[..], 0, WORD_SIZE, BLOCK + WORD_SIZE);
    SliceTwice(buf[..], WORD_SIZE, WORD_SIZE + share, BLOCK + WORD_SIZE);
  }

  lemma SliceTwice<T>(s: seq<T>, i: nat, j: nat, n: nat)
    requires i <= j <= n <= |s|
    ensures s[..n][i..j] == s[i..j]
  {
  }

  /** The footer behind the block in the buffer, in the byte order it came in. */
  method ReadFooter(buf: array<byte>) returns (footer: Word)
    requires buf.Length >= BLOCK + WORD_SIZE
    ensures footer == RawFooter(buf[..BLOCK + WORD_SIZE])
  {
    assert buf[BLOCK..BLOCK + WORD_SIZE] == buf[..BLOCK + WORD_SIZE][BLOCK..];
    footer := Swapped(FromWire(buf[BLOCK..BLOCK + WORD_SIZE]));
  }

  /** Every bit in the header of block `k`. */
  lemma HeaderFields(length: nat, k: nat)
    requires k < Blocks(length)
    ensures var w := Header(length, k);
            && Checked(w) && w[31] && w[29] && !w[30] && Dv(w)
            && (Sv(w) <==> k == 0) && Swo(w) == 0
            && (Ev(w) <==> k == Blocks(length) - 1)
            && (if Ev(w) then Ebo(w) == (length - 1) % BLOCK else forall i | 8 <= i < 14 :: !w[i])
            && forall i | 1 <= i < 8 || i == 15 || 22 <= i < 29 :: !w[i]
  {
    hide Odd, Value, BitsOf;
    ParityCompletes(HeaderBits(length, k));
    var w := Header(length, k);
    assert w[16..20] == Zeros(4);
    ZeroValue(4);
    if k == Blocks(length) - 1 {
      assert w[8..14] == HeaderBits(length, k)[8..14] == BitsOf((length - 1) % BLOCK, 6);
      EboRoundTrip((length - 1) % BLOCK);
    }
  }

  lemma EboRoundTrip(n: nat)
    requires n < BLOCK
    ensures Value(BitsOf(n, 6)) == n
  {
    assert Pow2(6) == 64;
    ValueOfBits(n, 6);
  }

  /** The bytes of a block that belong to the frame, as its header says. */
  function Content(sent: Packet): seq<byte> {
    sent[WORD_SIZE..WORD_SIZE + Taken(FromWire(sent[..WORD_SIZE]))]
  }

  /** Joining the blocks: all bytes of an inner block, as many as the end offset says of the last. */
  function Join(sent: seq<Packet>): seq<byte> {
    if sent == [] then [] else Join(sent[..|sent| - 1]) + Content(sent[|sent| - 1])
  }

  lemma ContentIs(sent: Packet, f: seq<byte>, k: nat)
    requires Segment(sent, f, k)
    ensures Content(sent) == f[k * BLOCK..k * BLOCK + Share(f, k)]
  {
    hide ToWire, FromWire, Ebo, Header, Odd, Swo, Dv, Sv;
    HeaderFields(|f|, k);
    WireRoundTrip(Header(|f|, k));
    assert Taken(FromWire(sent[..WORD_SIZE])) == Share(f, k);
  }

  /** The first `n` blocks of a frame join to its first bytes, all of them when the last block is in. */
  lemma {:induction false} JoinPrefix(sent: seq<Packet>, f: seq<byte>)
    requires AllSegments(sent, f)
    ensures Join(sent) == f[..if |sent| == Blocks(|f|) then |f| else |sent| * BLOCK]
    decreases |sent|
  {
    hide Segment, Content;
    if sent != [] {
      var k := |sent| - 1;
      JoinPrefix(sent[..k], f);
      ContentIs(sent[k], f, k);
      assert f[..k * BLOCK] + f[k * BLOCK..k * BLOCK + Share(f, k)] == f[..k * BLOCK + Share(f, k)];
    }
  }

  /** Segmentation round trip: the blocks of a whole frame join to the frame, whatever its length. */
  lemma SegmentsJoin(sent: seq<Packet>, f: seq<byte>)
    requires |sent| == Blocks(|f|) && AllSegments(sent, f)
    ensures Join(sent) == f
  {
    hide Segment, Join;
    JoinPrefix(sent, f);
  }

  /** A peer that hands the blocks on as they are: data and marks the same, its own status around them. */
  ghost predicate Relayed(r: Reply, sent: Packet) {
    && r.data == sent[WORD_SIZE..] && Sound(r)
    && var w := FromWire(sent[..WORD_SIZE]);
       && Dv(r.footer) == Dv(w) && Sv(r.footer) == Sv(w) && Swo(r.footer) == Swo(w)
       && Ev(r.footer) == Ev(w) && Ebo(r.footer) == Ebo(w)
  }

  /** End to end: what one driver sends, the receive task of another delivers, if it fits the room. */
  lemma TransmitThenReceive(sent: seq<Packet>, f: seq<byte>, q: seq<Reply>, idle: Reply, limit: nat)
    requires f != [] && |sent| == Blocks(|f|) == |q|
    requires forall k | 0 <= k < |sent| :: Segment(sent[k], f, k) && Relayed(q[k], sent[k])
    requires Idle(idle) && limit >= BLOCK + WORD_SIZE && Announced(q) && Fits(f, limit)
    ensures Drain(q, idle, limit, 0, []) == ([f], [])
  {
    hide Segment, Relayed, Carries, Drain, Announced, Idle;
    forall k | 0 <= k < |q| ensures Carries(q[k], f, k) {
      RelayCarries(q[k], sent[k], f, k);
    }
    assert q[Blocks(|f|)..] == [] && Stream([], []);
    Resynchronises(q, idle, limit, f, 0, []);
    var one := [Frame(f)];
    assert one + [] == one && one[1..] == [];
    assert Delivered(one, limit) == [f];
  }

  lemma RelayCarries(r: Reply, sent: Packet, f: seq<byte>, k: nat)
    requires Segment(sent, f, k) && Relayed(r, sent)
    ensures Carries(r, f, k)
  {
    hide ToWire, FromWire, Ebo, Swo, Header, Odd;
    WireRoundTrip(Header(|f|, k));
    HeaderFields(|f|, k);
    assert r.data[..Share(f, k)] == sent[WORD_SIZE..WORD_SIZE + Share(f, k)];
  }
}
