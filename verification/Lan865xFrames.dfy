/**
 LAN865x data transactions: 64-byte blocks with a header on the way out and a footer on the way in,
 as the OPEN Alliance 10BASE-T1x MAC-PHY Serial Interface lays them out. Here are the words, the
 blocks, and what the receive loop makes of a queue of blocks.
 */
module Lan865xFrames {
  import opened Bytes
  import opened Bits
  import opened Lan865xParity

  const BLOCK := 64
  const WORD_SIZE := 4

  datatype Err = Ok | InvalidCrc | InvalidState

  datatype Maybe = None | Some(value: nat)

  // The fields of a footer, and of a header where they share a place.
  predicate Dv(w: Word) { w[21] }
  predicate Sv(w: Word) { w[20] }
  predicate Ev(w: Word) { w[14] }
  predicate Hdrb(w: Word) { w[30] }
  function Swo(w: Word): nat { Value(w[16..20]) }
  function Rba(w: Word): nat { Value(w[24..29]) }

  function Ebo(w: Word): (n: nat)
    ensures n < BLOCK
  {
    assert Pow2(6) == 64;
    Value(w[8..14])
  }

  function ByteOf(s: seq<bool>): (b: byte)
    requires |s| == 8
  {
    assert Pow2(8) == 256;
    Value(s)
  }

  /** A word on the wire, most significant byte first. */
  function ToWire(w: Word): (bs: seq<byte>)
    ensures |bs| == WORD_SIZE
  {
    [ByteOf(w[24..]), ByteOf(w[16..24]), ByteOf(w[8..16]), ByteOf(w[..8])]
  }

  function FromWire(bs: seq<byte>): Word
    requires |bs| == WORD_SIZE
  {
    BitsOf(bs[3], 8) + BitsOf(bs[2], 8) + BitsOf(bs[1], 8) + BitsOf(bs[0], 8)
  }

  lemma WireRoundTrip(w: Word)
    ensures FromWire(ToWire(w)) == w
  {
    hide BitsOf, Value;
    BitsOfValue(w[24..]);
    BitsOfValue(w[16..24]);
    BitsOfValue(w[8..16]);
    BitsOfValue(w[..8]);
    assert w == w[..8] + w[8..16] + w[16..24] + w[24..];
  }

  lemma Powers()
    ensures Pow2(5) == 0x20 && Pow2(6) == 0x40 && Pow2(4) == 0x10 && Pow2(8) == 0x100 && Pow2(14) == 0x4000
    ensures Pow2(16) == 0x1_0000 && Pow2(20) == 0x10_0000 && Pow2(21) == 0x20_0000
    ensures Pow2(24) == 0x100_0000 && Pow2(30) == 0x4000_0000
  {
    assert Pow2(8) == 0x100;
    assert Pow2(12) == 0x1000;
    assert Pow2(16) == 0x1_0000;
    assert Pow2(20) == 0x10_0000;
    assert Pow2(24) == 0x100_0000;
    assert Pow2(28) == 0x1000_0000;
  }

  /** Where the fields of a footer stand in the thirty-two bit number. */
  lemma FieldsOfValue(w: Word)
    ensures var v := Value(w);
            && Rba(w) == v / 0x100_0000 % 0x20
            && Swo(w) == v / 0x1_0000 % 0x10
            && Ebo(w) == v / 0x100 % 0x40
            && Bit(Hdrb(w)) == v / 0x4000_0000 % 2
            && Bit(Dv(w)) == v / 0x20_0000 % 2
            && Bit(Sv(w)) == v / 0x10_0000 % 2
            && Bit(Ev(w)) == v / 0x4000 % 2
  {
    Powers();
    hide Pow2, Value, Bit;
    ValueSlice(w, 24, 29);
    ValueSlice(w, 16, 20);
    ValueSlice(w, 8, 14);
    ValueBit(w, 30);
    ValueBit(w, 21);
    ValueBit(w, 20);
    ValueBit(w, 14);
  }

  lemma ValueOfBytes(a: seq<bool>, b: seq<bool>, c: seq<bool>, d: seq<bool>)
    requires |a| == |b| == |c| == |d| == 8
    ensures Value(a + b + c + d) == Value(a) + 0x100 * Value(b) + 0x1_0000 * Value(c) + 0x100_0000 * Value(d)
  {
    Powers();
    hide Pow2, Value;
    ValueConcat(a, b);
    ValueConcat(a + b, c);
    ValueConcat(a + b + c, d);
  }

  /** The word four bytes on the wire stand for, the first byte the most significant. */
  lemma WireValue(bs: seq<byte>)
    requires |bs| == WORD_SIZE
    ensures Value(FromWire(bs)) ==
            bs[0] as int * 0x100_0000 + bs[1] as int * 0x1_0000 + bs[2] as int * 0x100 + bs[3] as int
  {
    Powers();
    hide Pow2, Value, BitsOf;
    ValueOfBits(bs[3], 8);
    ValueOfBits(bs[2], 8);
    ValueOfBits(bs[1], 8);
    ValueOfBits(bs[0], 8);
    ValueOfBytes(BitsOf(bs[3], 8), BitsOf(bs[2], 8), BitsOf(bs[1], 8), BitsOf(bs[0], 8));
  }

  type Data = d: seq<byte> | |d| == BLOCK witness seq(BLOCK, _ => 0)

  /** What one SPI exchange brings in: a block of data and the footer behind it. */
  datatype Reply = Reply(data: Data, footer: Word)

  /** The chip has nothing to deliver. */
  predicate Idle(r: Reply) {
    Checked(r.footer) && !Hdrb(r.footer) && !Dv(r.footer) && Rba(r.footer) == 0
  }

  /** How many bytes of a block belong to the frame. */
  function Taken(w: Word): (n: nat)
    ensures 0 < n <= BLOCK
  {
    if Ev(w) then Ebo(w) + 1 else BLOCK
  }

  /** The result of one receive call: status, bytes received, replies left, and the new `remain`, if set. */
  datatype Outcome = Outcome(ret: Err, got: seq<byte>, rest: seq<Reply>, remain: Maybe)

  /** What the receive loop does about a block: give up, stop, pass over it or keep its bytes. */
  datatype Verdict = Reject(ret: Err, remain: Maybe) | Finish | Skip | Keep

  function Judge(w: Word, started: bool, available: nat): (v: Verdict)
    ensures v.Skip? || v.Keep? ==> Dv(w)
  {
    if !Checked(w) then Reject(InvalidCrc, None)
    else if Hdrb(w) then Reject(InvalidCrc, Some(available))
    else if !Dv(w) then Finish
    else if started then Keep
    else if !Sv(w) then if Ev(w) then Finish else Skip
    else if Swo(w) != 0 then Reject(InvalidState, Some(Rba(w)))
    else Keep
  }

  /** The receive loop over a queue of replies, in the middle of a call. */
  function Collect(q: seq<Reply>, idle: Reply, limit: nat, got: seq<byte>, started: bool, available: nat): (o: Outcome)
    requires Idle(idle)
    ensures |o.rest| <= |q| && (|got| + BLOCK + WORD_SIZE <= limit && q != [] ==> |o.rest| < |q|)
    ensures |got| <= limit ==> |o.got| <= limit
    ensures q == [] && |got| + BLOCK + WORD_SIZE <= limit ==> o.remain == Some(0)
    decreases |q|
  {
    if |got| + BLOCK + WORD_SIZE > limit then Outcome(Ok, got, q, Some(available))
    else
      var r := if q == [] then idle else q[0];
      var rest := if q == [] then [] else q[1..];
      match Judge(r.footer, started, available)
      case Reject(e, remain) => Outcome(e, got, rest, remain)
      case Finish => Outcome(Ok, got, rest, Some(Rba(r.footer)))
      case Skip => Collect(rest, idle, limit, got, false, Rba(r.footer))
      case Keep =>
        var more := got + r.data[..Taken(r.footer)];
        if Ev(r.footer) then Outcome(Ok, more, rest, Some(Rba(r.footer)))
        else Collect(rest, idle, limit, more, true, Rba(r.footer))
  }

  function Receive(q: seq<Reply>, idle: Reply, limit: nat): Outcome
    requires Idle(idle)
  {
    Collect(q, idle, limit, [], false, 0)
  }

  /** What a call passes to the stack: a frame, unless the call failed or brought nothing. */
  function Passed(o: Outcome): seq<seq<byte>> {
    if o.ret == Ok && o.got != [] then [o.got] else []
  }

  /** The receive task, call after call while replies remain; `passed` is what the stack has been given. */
  function Drain(q: seq<Reply>, idle: Reply, limit: nat, remain: nat, passed: seq<seq<byte>>)
    : (seq<seq<byte>>, seq<Reply>)
    requires Idle(idle) && limit >= BLOCK + WORD_SIZE
    decreases |q|
  {
    var o := Receive(q, idle, limit);
    var left := if o.remain.Some? then o.remain.value else remain;
    if left == 0 then (passed + Passed(o), o.rest)
    else Drain(o.rest, idle, limit, left, passed + Passed(o))
  }
}
