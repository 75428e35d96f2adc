/**
 A frame as a chip hands it over, block by block, and what becomes of it. Every frame has such a
 stream, so the theorems about streams speak of something; and one byte more than the room is lost
 without an error.
 */
module Lan865xLongFrame {
  import opened Bytes
  import opened Bits
  import opened Lan865xParity
  import opened Lan865xFrames
  import opened Lan865xStream
  import opened Lan865xTransmit

  /** The footer of block `k`, without its parity bit: marks, end offset, and a block waiting unless it is the last. */
  function FooterBits(length: nat, k: nat): Word
    requires k < Blocks(length)
  {
    var last := k == Blocks(length) - 1;
    var w: Word := Zeros(32)[21 := true][20 := k == 0][24 := !last];
    if last then SetEbo(w[14 := true], (length - 1) % BLOCK) else w
  }

  function Footer(length: nat, k: nat): Word
    requires k < Blocks(length)
  {
    var w := FooterBits(length, k);
    w[0 := !Odd(w[1..])]
  }

  /** The bytes of block `k`, with zeros behind the end of the frame. */
  function Filled(f: seq<byte>, k: nat): Data
    requires k < Blocks(|f|)
  {
    f[k * BLOCK..k * BLOCK + Share(f, k)] + seq(BLOCK - Share(f, k), _ => 0)
  }

  function Encoded(f: seq<byte>): (q: seq<Reply>)
    ensures |q| == Blocks(|f|)
  {
    seq(Blocks(|f|), k requires 0 <= k < Blocks(|f|) => Reply(Filled(f, k), Footer(|f|, k)))
  }

  /** The fields of a footer, as the receive loop reads them. */
  lemma FooterFields(length: nat, k: nat)
    requires k < Blocks(length)
    ensures var w, last := Footer(length, k), k == Blocks(length) - 1;
            && Checked(w) && !Hdrb(w) && Dv(w) && (Sv(w) <==> k == 0) && Swo(w) == 0
            && (Ev(w) <==> last) && (Ev(w) ==> Ebo(w) == (length - 1) % BLOCK)
            && (Rba(w) > 0 <==> !last)
  {
    hide BitsOf, Odd, Value;
    var w, last := Footer(length, k), k == Blocks(length) - 1;
    ParityCompletes(FooterBits(length, k));
    assert w[16..20] == Zeros(4);
    ZeroValue(4);
    if last {
      assert w[8..14] == BitsOf((length - 1) % BLOCK, 6);
      EboRoundTrip((length - 1) % BLOCK);
      assert w[24..29] == Zeros(5);
      ZeroValue(5);
    } else {
      assert w[24..29] == [true] + Zeros(4);
      OneValue();
    }
  }

  lemma OneValue()
    ensures Value([true] + Zeros(4)) > 0
  {
  }

  lemma EncodedCarries(f: seq<byte>, k: nat)
    requires k < Blocks(|f|)
    ensures Carries(Encoded(f)[k], f, k)
  {
    hide Footer;
    FooterFields(|f|, k);
  }

  /** The blocks of a frame are a stream of that one frame. */
  lemma EncodedIsStream(f: seq<byte>)
    requires f != []
    ensures Heads(Encoded(f), f, 0) && Announced(Encoded(f)) && Stream(Encoded(f), [Frame(f)])
  {
    hide Footer, Carries, Filled;
    var q := Encoded(f);
    forall k | 0 <= k < Blocks(|f|) ensures Carries(q[k], f, k) && (Rba(q[k].footer) > 0 <==> k + 1 < |q|) {
      EncodedCarries(f, k);
      FooterFields(|f|, k);
    }
    assert q[Blocks(|f|)..] == [] && [Frame(f)][1..] == [];
  }

  /** Such a frame is delivered whole if and only if it fits the room. */
  lemma EncodedWholeIffFits(f: seq<byte>, idle: Reply, limit: nat)
    requires f != [] && Idle(idle) && limit >= BLOCK + WORD_SIZE
    ensures Drain(Encoded(f), idle, limit, 0, []) == ([f], []) <==> Fits(f, limit)
  {
    hide Drain, Encoded, Heads, Announced, Stream, Fits;
    EncodedIsStream(f);
    StreamWholeIffFits(Encoded(f), idle, limit, [Frame(f)]);
    OneFrame(f, limit);
  }

  lemma OneFrame(f: seq<byte>, limit: nat)
    ensures Frames([Frame(f)]) == [f] && (AllFit([Frame(f)], limit) <==> Fits(f, limit))
    ensures Delivered([Frame(f)], limit) == [Cut(f, limit)]
  {
    assert [Frame(f)][1..] == [];
    assert [Frame(f)][0] == Frame(f);
  }

  /** A frame of one byte more than the room: the call reports success, and the last byte is lost. */
  lemma LongFrameLosesByte(f: seq<byte>, idle: Reply, limit: nat)
    requires Idle(idle) && limit >= BLOCK + WORD_SIZE && |f| == Room(limit) * BLOCK + 1
    ensures var o := Receive(Encoded(f), idle, limit);
            o.ret == Ok && o.got == f[..|f| - 1]
    ensures Drain(Encoded(f), idle, limit, 0, []) == ([f[..|f| - 1]], [])
  {
    hide Drain, Receive, Encoded, Heads, Announced, Stream;
    EncodedIsStream(f);
    WholeIffFits(f, limit);
    ReceivesWholeIffFits(Encoded(f), idle, limit, f);
    var e: seq<seq<byte>> := [];
    DrainStream(Encoded(f), idle, limit, [Frame(f)], 0, e);
    OneFrame(f, limit);
    assert e + [Cut(f, limit)] == [Cut(f, limit)];
  }
}
