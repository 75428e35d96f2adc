/**
 The receive path of the LAN865x driver: a frame is put together in place in the receive buffer, each
 block overwriting the footer of the one before.
 */
module Lan865xReceive {
  import opened Bytes
  import opened Bits
  import opened Lan865xParity
  import opened Lan865xFrames

  type Header = h: seq<byte> | |h| == WORD_SIZE witness [0, 0, 0, 0]

  /** The header that asks for a block and carries nothing: data, not control, and nothing else set. */
  const POLL: Header := [0x80, 0, 0, 0]

  /** The chip's side of the SPI bus: replies waiting to be clocked out, and the headers that have come in. */
  class Chip {
    const idle: Reply
    var queue: seq<Reply>
    var headers: seq<Header>

    constructor (idle: Reply, queue: seq<Reply>)
      ensures this.idle == idle && this.queue == queue && headers == []
    {
      this.idle, this.queue, headers := idle, queue, [];
    }

    /** One exchange: what the driver has put at `at` goes out, a block and its footer come in. */
    method Exchange(buf: array<byte>, at: nat) returns (ghost r: Reply)
      requires at + BLOCK + WORD_SIZE <= buf.Length
      modifies this`queue, this`headers, buf
      ensures headers == old(headers) + [old(buf[at..at + WORD_SIZE])]
      ensures r == if old(queue) == [] then idle else old(queue)[0]
      ensures queue == if old(queue) == [] then [] else old(queue)[1..]
      ensures buf[at..at + BLOCK] == r.data
      ensures buf[at + BLOCK..at + BLOCK + WORD_SIZE] == ToWire(r.footer)
      ensures buf[..at] == old(buf[..at]) && buf[at + BLOCK + WORD_SIZE..] == old(buf[at + BLOCK + WORD_SIZE..])
    {
      headers := headers + [buf[at..at + WORD_SIZE]];
      var reply := idle;
      if queue != [] {
        reply, queue := queue[0], queue[1..];
      }
      var bytes := reply.data + ToWire(reply.footer);
      forall i | 0 <= i < BLOCK + WORD_SIZE {
        buf[at + i] := bytes[i];
      }
      assert buf[at..at + BLOCK] == bytes[..BLOCK];
      assert buf[at + BLOCK..at + BLOCK + WORD_SIZE] == bytes[BLOCK..];
      r := reply;
    }
  }

  method PutWord(buf: array<byte>, at: nat, w: Word)
    requires at + WORD_SIZE <= buf.Length
    modifies buf
    ensures buf[at..at + WORD_SIZE] == ToWire(w)
    ensures buf[..at] == old(buf[..at]) && buf[at + WORD_SIZE..] == old(buf[at + WORD_SIZE..])
  {
    var bytes := ToWire(w);
    forall i | 0 <= i < WORD_SIZE {
      buf[at + i] := bytes[i];
    }
    assert buf[at..at + WORD_SIZE] == bytes;
  }

  /** With its parity bit the empty data header has one bit set, and that makes an odd number. */
  lemma PollIs(header: Word, parity: bool)
    requires header == Zeros(32)[31 := true] && (parity <==> !Odd(header[1..]))
    ensures !parity && Checked(header) && ToWire(header[0 := parity]) == POLL
  {
    OneIsOdd(30);
    OneIsOdd(31);
    hide Ones, Value, Odd, Pow2;
    assert header[1..] == Zeros(30) + [true] && header == Zeros(31) + [true];
    assert header[0 := false] == header;
    PollBytes(header);
  }

  lemma OneIsOdd(n: nat)
    ensures Odd(Zeros(n) + [true])
  {
    OnesZeros(n);
    OnesConcat(Zeros(n), [true]);
    assert Ones([true]) == 1;
  }

  lemma PollBytes(header: Word)
    requires header == Zeros(31) + [true]
    ensures ToWire(header) == POLL
  {
    hide Value;
    assert header[..8] == Zeros(8) && header[8..16] == Zeros(8) && header[16..24] == Zeros(8);
    assert header[24..] == Zeros(7) + [true];
    ZeroValue(8);
    HighBit();
  }

  lemma HighBit()
    ensures Value(Zeros(7) + [true]) == 0x80
  {
    ZeroValue(7);
    ValueConcat(Zeros(7), [true]);
    assert Pow2(7) == 0x80 && Value([true]) == 1;
  }

  /** Sends an empty data header and takes in one block; its footer comes back in host order. */
  method ReadBlock(chip: Chip, frame: array<byte>, at: nat) returns (footer: Word, ghost data: Data)
    requires at + BLOCK + WORD_SIZE <= frame.Length
    modifies chip`queue, chip`headers, frame
    ensures chip.headers == old(chip.headers) + [POLL]
    ensures Reply(data, footer) == if old(chip.queue) == [] then chip.idle else old(chip.queue)[0]
    ensures chip.queue == if old(chip.queue) == [] then [] else old(chip.queue)[1..]
    ensures frame[..at + BLOCK] == old(frame[..at]) + data
  {
    hide FromWire, ToWire, Odd;
    var header: Word := Zeros(32)[31 := true];
    var parity := Parity(header);
    PollIs(header, parity);
    PutWord(frame, at, header[0 := parity]);
    ghost var r := chip.Exchange(frame, at);
    WireRoundTrip(r.footer);
    footer := FromWire(frame[at + BLOCK..at + BLOCK + WORD_SIZE]);
    data := r.data;
    assert frame[..at + BLOCK] == frame[..at] + frame[at..at + BLOCK];
  }

  /** One turn of the receive loop, spelled out. */
  lemma CollectTurn(q: seq<Reply>, idle: Reply, limit: nat, got: seq<byte>, started: bool, available: nat)
    requires Idle(idle)
    ensures var r, rest := if q == [] then idle else q[0], if q == [] then [] else q[1..];
            var w := r.footer;
            Collect(q, idle, limit, got, started, available) ==
            if |got| + BLOCK + WORD_SIZE > limit then Outcome(Ok, got, q, Some(available))
            else match Judge(w, started, available)
                 case Reject(e, remain) => Outcome(e, got, rest, remain)
                 case Finish => Outcome(Ok, got, rest, Some(Rba(w)))
                 case Skip => Collect(rest, idle, limit, got, false, Rba(w))
                 case Keep => if Ev(w) then Outcome(Ok, got + r.data[..Taken(w)], rest, Some(Rba(w)))
                              else Collect(rest, idle, limit, got + r.data[..Taken(w)], true, Rba(w))
  {
  }

  /** Everything sent in between asks for a block. */
  ghost predicate OnlyPolls(before: seq<Header>, now: seq<Header>) {
    before <= now && forall i | |before| <= i < |now| :: now[i] == POLL
  }

  lemma Prefixes(whole: seq<byte>, got: seq<byte>, data: Data, n: nat)
    requires n <= BLOCK && |got| + BLOCK <= |whole| && whole[..|got| + BLOCK] == got + data
    ensures whole[..|got|] == got && whole[..|got| + n] == got + data[..n]
  {
    assert whole[..|got| + n] == whole[..|got| + BLOCK][..|got| + n];
    assert whole[..|got|] == whole[..|got| + BLOCK][..|got|];
  }

  lemma PollsOn(before: seq<Header>, now: seq<Header>)
    requires OnlyPolls(before, now)
    ensures OnlyPolls(before, now + [POLL])
  {
  }

  /** One call: header out, blocks in, until a frame ends, the chip runs dry or the room does. */
  method FrameReceive(chip: Chip, frame: array<byte>, limit: nat) returns (ret: Err, length: nat, remain: Maybe)
    requires Idle(chip.idle) && limit <= frame.Length
    modifies chip`queue, chip`headers, frame
    ensures length <= limit
    ensures OnlyPolls(old(chip.headers), chip.headers)
    ensures Outcome(ret, frame[..length], chip.queue, remain) == Receive(old(chip.queue), chip.idle, limit)
  {
    assert !Dv(chip.idle.footer);
    hide Judge, Rba, Ebo, Idle, Collect, Ev, Dv, Value, Checked, Ones, Pow2;
    assert OnlyPolls(chip.headers, chip.headers);
    hide OnlyPolls;
    ret, length, remain := Ok, 0, None;
    var at, available, started := 0, 0, false;
    ghost var goal, got := Receive(chip.queue, chip.idle, limit), frame[..0];
    while true
      invariant ret == Ok && at == length <= limit
      invariant OnlyPolls(old(chip.headers), chip.headers)
      invariant got == frame[..length]
      invariant Collect(chip.queue, chip.idle, limit, got, started, available) == goal
      decreases |chip.queue|
    {
      CollectTurn(chip.queue, chip.idle, limit, got, started, available);
      if length + BLOCK + WORD_SIZE > limit {
        break;
      }
      PollsOn(old(chip.headers), chip.headers);
      var footer, data := ReadBlock(chip, frame, at);
      Prefixes(frame[..], got, data, 0);
      var verdict := CheckFooter(footer, started, available);
      if verdict.Reject? {
        return verdict.ret, length, verdict.remain;
      }
      available := Rba(footer);
      if verdict.Finish? {
        break;
      }
      if verdict.Skip? {
        continue;
      }
      started := true;
      var copyLen := if Ev(footer) then Ebo(footer) + 1 else BLOCK;
      Prefixes(frame[..], got, data, copyLen);
      got := got + data[..copyLen];
      length := length + copyLen;
      at := at + BLOCK;
      if Ev(footer) {
        break;
      }
    }
    return Ok, length, Some(available);
  }

  /** The checks on a footer: parity, header bad, data valid, and the search for the start of a frame. */
  method CheckFooter(footer: Word, started: bool, available: nat) returns (v: Verdict)
    ensures v == Judge(footer, started, available)
  {
    hide Odd;
    var parity := Parity(footer);
    if parity != footer[0] {
      return Reject(InvalidCrc, None);
    }
    if Hdrb(footer) {
      return Reject(InvalidCrc, Some(available));
    }
    if !Dv(footer) {
      return Finish;
    }
    if !started {
      if Sv(footer) {
        if Swo(footer) != 0 {
          return Reject(InvalidState, Some(Rba(footer)));
        }
      } else {
        return if Ev(footer) then Finish else Skip;
      }
    }
    return Keep;
  }

  /** The receive task: everything it passes to the stack after one notification. */
  method ReceiveAll(chip: Chip, buffer: array<byte>, limit: nat) returns (passed: seq<seq<byte>>)
    requires Idle(chip.idle) && BLOCK + WORD_SIZE <= limit <= buffer.Length
    modifies chip`queue, chip`headers, buffer
    ensures OnlyPolls(old(chip.headers), chip.headers)
    ensures (passed, chip.queue) == Drain(old(chip.queue), chip.idle, limit, 0, [])
  {
    hide Collect;
    passed := [];
    var remain, again := 0, true;
    ghost var goal := Drain(chip.queue, chip.idle, limit, 0, []);
    while again
      invariant OnlyPolls(old(chip.headers), chip.headers)
      invariant again ==> Drain(chip.queue, chip.idle, limit, remain, passed) == goal
      invariant !again ==> (passed, chip.queue) == goal
      decreases again, |chip.queue|
    {
      ghost var before, o := passed, Receive(chip.queue, chip.idle, limit);
      var ret, length, left := FrameReceive(chip, buffer, limit);
      if ret == Ok && length > 0 {
        passed := passed + [buffer[..length]];
      }
      assert passed == before + Passed(o);
      if left.Some? {
        remain := left.value;
      }
      again := remain > 0;
    }
  }
}
