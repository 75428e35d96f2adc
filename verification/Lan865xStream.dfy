/**
 What the receive task delivers from a stream of blocks, whichever block it starts at: the frames
 that begin in what is left of the stream, in order and byte for byte, each cut to the room the
 receive loop leaves. A frame comes through whole exactly when it fits that room.
 */
module Lan865xStream {
  import opened Bytes
  import opened Bits
  import opened Lan865xParity
  import opened Lan865xFrames

  /** The number of blocks a frame of `length` bytes takes. */
  function Blocks(length: nat): nat {
    (length + BLOCK - 1) / BLOCK
  }

  /** How many bytes of frame `f` its block `k` holds. */
  function Share(f: seq<byte>, k: nat): nat
    requires k < Blocks(|f|)
  {
    if k == Blocks(|f|) - 1 then |f| - k * BLOCK else BLOCK
  }

  /** A reply without transmission errors. */
  predicate Sound(r: Reply) {
    Checked(r.footer) && !Hdrb(r.footer)
  }

  /** `r` is block `k` of frame `f`: start and end marks, end offset and bytes are as they should be. */
  ghost predicate Carries(r: Reply, f: seq<byte>, k: nat) {
    && k < Blocks(|f|)
    && Sound(r) && Dv(r.footer)
    && (Sv(r.footer) <==> k == 0) && (k == 0 ==> Swo(r.footer) == 0)
    && (Ev(r.footer) <==> k == Blocks(|f|) - 1) && (Ev(r.footer) ==> Ebo(r.footer) == (|f| - 1) % BLOCK)
    && r.data[..Share(f, k)] == f[k * BLOCK..k * BLOCK + Share(f, k)]
  }

  /** The blocks of frame `f` from block `k` on, at the head of the queue. */
  ghost predicate Heads(q: seq<Reply>, f: seq<byte>, k: nat) {
    && k <= Blocks(|f|) && |q| >= Blocks(|f|) - k
    && forall i | 0 <= i < Blocks(|f|) - k :: Carries(q[i], f, k + i)
  }

  datatype Item = Frame(bytes: seq<byte>) | Gap

  /** A queue that holds whole frames, with idle replies between them if need be. */
  ghost predicate Stream(q: seq<Reply>, items: seq<Item>)
    decreases |items|
  {
    if items == [] then q == []
    else
      match items[0]
      case Frame(f) => f != [] && Heads(q, f, 0) && Stream(q[Blocks(|f|)..], items[1..])
      case Gap => q != [] && Sound(q[0]) && !Dv(q[0].footer) && Stream(q[1..], items[1..])
  }

  /** Every reply tells whether more replies are waiting. */
  ghost predicate Announced(q: seq<Reply>) {
    forall i | 0 <= i < |q| :: Rba(q[i].footer) > 0 <==> i + 1 < |q|
  }

  /** How many blocks of one frame the room check lets through. */
  function Room(limit: nat): nat {
    if limit < WORD_SIZE then 0 else (limit - WORD_SIZE) / BLOCK
  }

  predicate Fits(f: seq<byte>, limit: nat) {
    Blocks(|f|) <= Room(limit)
  }

  /** What arrives of a frame. */
  function Cut(f: seq<byte>, limit: nat): seq<byte> {
    if Fits(f, limit) then f else f[..Room(limit) * BLOCK]
  }

  function Delivered(items: seq<Item>, limit: nat): seq<seq<byte>> {
    if items == [] then []
    else if items[0].Gap? then Delivered(items[1..], limit)
    else [Cut(items[0].bytes, limit)] + Delivered(items[1..], limit)
  }

  /** The check of line 322, read as a bound on whole blocks. */
  lemma RoomIsCheck(limit: nat, k: nat)
    ensures k * BLOCK + BLOCK + WORD_SIZE <= limit <==> k < Room(limit)
  {
  }

  /** One turn of the receive loop over block `k` of a frame. */
  lemma OneBlock(q: seq<Reply>, idle: Reply, limit: nat, f: seq<byte>, k: nat, available: nat)
    requires Idle(idle) && k < Blocks(|f|) && k < Room(limit) && q != [] && Carries(q[0], f, k)
    ensures Collect(q, idle, limit, f[..k * BLOCK], k > 0, available) ==
            if k == Blocks(|f|) - 1 then Outcome(Ok, f, q[1..], Some(Rba(q[0].footer)))
            else Collect(q[1..], idle, limit, f[..(k + 1) * BLOCK], true, Rba(q[0].footer))
  {
    hide Rba, Ebo, Swo, Odd;
    var got, share := f[..k * BLOCK], Share(f, k);
    assert Taken(q[0].footer) == share;
    assert got + q[0].data[..share] == f[..k * BLOCK + share];
    if k == Blocks(|f|) - 1 {
      assert f[..k * BLOCK + share] == f;
    }
  }

  /** From block `k` of a frame on, with the blocks before it received. */
  lemma {:induction false} CollectFrame(q: seq<Reply>, idle: Reply, limit: nat, f: seq<byte>, k: nat, available: nat)
    requires Idle(idle) && k < Blocks(|f|) && k <= Room(limit) && Heads(q, f, k)
    ensures var o := Collect(q, idle, limit, f[..k * BLOCK], k > 0, available);
            var n := if Fits(f, limit) then Blocks(|f|) - k else Room(limit) - k;
            && n <= |q|
            && o == Outcome(Ok, Cut(f, limit), q[n..], Some(if n == 0 then available else Rba(q[n - 1].footer)))
    decreases Blocks(|f|) - k
  {
    hide Collect, Carries, Heads, Idle, Rba;
    if k < Room(limit) {
      HeadIs(q, f, k);
      OneBlock(q, idle, limit, f, k, available);
      if k + 1 < Blocks(|f|) {
        HeadsDrop(q, f, k, 1);
        CollectFrame(q[1..], idle, limit, f, k + 1, Rba(q[0].footer));
      }
    } else {
      NoRoom(q, idle, limit, f[..k * BLOCK], k > 0, available);
    }
  }

  lemma NoRoom(q: seq<Reply>, idle: Reply, limit: nat, got: seq<byte>, started: bool, available: nat)
    requires Idle(idle) && |got| == Room(limit) * BLOCK
    ensures Collect(q, idle, limit, got, started, available) == Outcome(Ok, got, q, Some(available))
  {
    RoomIsCheck(limit, Room(limit));
  }

  lemma HeadIs(q: seq<Reply>, f: seq<byte>, k: nat)
    requires Heads(q, f, k) && k < Blocks(|f|)
    ensures q != [] && Carries(q[0], f, k)
  {
    assert Carries(q[0], f, k + 0);
  }

  /** What is left of a frame whose start has been missed is read and dropped. */
  lemma {:induction false} SkipTail(q: seq<Reply>, idle: Reply, limit: nat, f: seq<byte>, k: nat, available: nat)
    requires Idle(idle) && limit >= BLOCK + WORD_SIZE && 0 < k < Blocks(|f|) && Heads(q, f, k)
    ensures var n := Blocks(|f|) - k;
            && 0 < n <= |q|
            && Collect(q, idle, limit, [], false, available) == Outcome(Ok, [], q[n..], Some(Rba(q[n - 1].footer)))
    decreases Blocks(|f|) - k
  {
    hide Rba, Ebo, Swo, Odd;
    assert Carries(q[0], f, k);
    if k + 1 < Blocks(|f|) {
      HeadsDrop(q, f, k, 1);
      SkipTail(q[1..], idle, limit, f, k + 1, Rba(q[0].footer));
    }
  }

  lemma HeadsDrop(q: seq<Reply>, f: seq<byte>, k: nat, n: nat)
    requires Heads(q, f, k) && k + n <= Blocks(|f|)
    ensures Heads(q[n..], f, k + n)
  {
    forall i | 0 <= i < Blocks(|f|) - (k + n) ensures Carries(q[n..][i], f, k + n + i) {
      assert Carries(q[i + n], f, k + (i + n));
    }
  }

  /** Reading on after a frame that was cut, or at any place inside a frame: only the rest counts. */
  lemma {:induction false} DrainTail(q: seq<Reply>, idle: Reply, limit: nat, f: seq<byte>, k: nat, items: seq<Item>,
                                     remain: nat, passed: seq<seq<byte>>)
    requires Idle(idle) && limit >= BLOCK + WORD_SIZE && Announced(q)
    requires 0 < k < Blocks(|f|) && Heads(q, f, k) && Stream(q[Blocks(|f|) - k..], items)
    ensures Drain(q, idle, limit, remain, passed) == (passed + Delivered(items, limit), [])
    decreases |q|, |items|, 1
  {
    hide Collect, Drain, Delivered, Stream;
    SkipTail(q, idle, limit, f, k, 0);
    Continue(q, idle, limit, Blocks(|f|) - k, items, remain, passed);
    assert passed + [] == passed;
  }

  /** After a call that has read the first `n` replies the rest of the stream is read. */
  lemma {:induction false} Continue(q: seq<Reply>, idle: Reply, limit: nat, n: nat, items: seq<Item>,
                                    remain: nat, passed: seq<seq<byte>>)
    requires Idle(idle) && limit >= BLOCK + WORD_SIZE && Announced(q) && 0 < n <= |q|
    requires var o := Receive(q, idle, limit); o.rest == q[n..] && o.remain == Some(Rba(q[n - 1].footer))
    requires Stream(q[n..], items)
    ensures Drain(q, idle, limit, remain, passed) ==
            (passed + Passed(Receive(q, idle, limit)) + Delivered(items, limit), [])
    decreases |q|, |items|, 0
  {
    hide Collect;
    var o := Receive(q, idle, limit);
    var now := passed + Passed(o);
    if n < |q| {
      DrainStream(q[n..], idle, limit, items, o.remain.value, now);
    } else {
      assert q[n..] == [] && items == [] && now + [] == now;
    }
  }

  /** A reply without data ends the call, with nothing received. */
  lemma GapTurn(q: seq<Reply>, idle: Reply, limit: nat)
    requires Idle(idle) && limit >= BLOCK + WORD_SIZE && q != [] && Sound(q[0]) && !Dv(q[0].footer)
    ensures Receive(q, idle, limit) == Outcome(Ok, [], q[1..], Some(Rba(q[0].footer)))
  {
  }

  /** With nothing waiting the task asks once and stops. */
  lemma DrainNothing(idle: Reply, limit: nat, remain: nat, passed: seq<seq<byte>>)
    requires Idle(idle) && limit >= BLOCK + WORD_SIZE
    ensures Drain([], idle, limit, remain, passed) == (passed, [])
  {
    assert Receive([], idle, limit) == Outcome(Ok, [], [], Some(0));
    assert passed + [] == passed;
  }

  /** From the start of a frame on, the task delivers the frames of the stream, each cut to the room. */
  lemma {:induction false} DrainStream(q: seq<Reply>, idle: Reply, limit: nat, items: seq<Item>,
                                       remain: nat, passed: seq<seq<byte>>)
    requires Idle(idle) && limit >= BLOCK + WORD_SIZE && Announced(q) && Stream(q, items)
    ensures Drain(q, idle, limit, remain, passed) == (passed + Delivered(items, limit), [])
    decreases |q|, |items|, 2
  {
    assert passed + [] == passed;
    if items == [] {
      DrainNothing(idle, limit, remain, passed);
    } else {
      hide Heads, Announced, Collect, Cut, Drain, Receive;
      match items[0]
      case Gap =>
        GapTurn(q, idle, limit);
        Continue(q, idle, limit, 1, items[1..], remain, passed);
        assert passed + [] + Delivered(items[1..], limit) == passed + Delivered(items, limit);
      case Frame(f) =>
        DrainFrame(q, idle, limit, f, items[1..], remain, passed);
        assert passed + [Cut(f, limit)] + Delivered(items[1..], limit) == passed + Delivered(items, limit);
    }
  }

  lemma {:induction false} DrainFrame(q: seq<Reply>, idle: Reply, limit: nat, f: seq<byte>, items: seq<Item>,
                                      remain: nat, passed: seq<seq<byte>>)
    requires Idle(idle) && limit >= BLOCK + WORD_SIZE && Announced(q)
    requires f != [] && Heads(q, f, 0) && Stream(q[Blocks(|f|)..], items)
    ensures Drain(q, idle, limit, remain, passed) == (passed + [Cut(f, limit)] + Delivered(items, limit), [])
    decreases |q|, |items|, 1
  {
    hide Collect, Stream, Delivered, Heads;
    assert f[..0] == [];
    CollectFrame(q, idle, limit, f, 0, 0);
    if Fits(f, limit) {
      Continue(q, idle, limit, Blocks(|f|), items, remain, passed);
    } else {
      var n := Room(limit);
      HeadsDrop(q, f, 0, n);
      assert |q| >= Blocks(|f|) by { HeadsLong(q, f); }
      assert q[n..][Blocks(|f|) - n..] == q[Blocks(|f|)..];
      AnnouncedDrop(q, n);
      DrainTail(q[n..], idle, limit, f, n, items, Rba(q[n - 1].footer), passed + [Cut(f, limit)]);
    }
  }

  lemma HeadsLong(q: seq<Reply>, f: seq<byte>)
    requires Heads(q, f, 0)
    ensures |q| >= Blocks(|f|)
  {
  }

  lemma AnnouncedDrop(q: seq<Reply>, n: nat)
    requires Announced(q) && n <= |q|
    ensures Announced(q[n..])
  {
    assert forall i | 0 <= i < |q| - n :: q[n..][i] == q[n + i];
  }

  /**
   Resynchronisation: starting at any block of a frame, the first included, the task delivers exactly
   the frames that begin in what is left of the stream, and it leaves nothing in the chip.
   */
  lemma Resynchronises(q: seq<Reply>, idle: Reply, limit: nat, f: seq<byte>, k: nat, items: seq<Item>)
    requires Idle(idle) && limit >= BLOCK + WORD_SIZE && Announced(q)
    requires k < Blocks(|f|) && Heads(q, f, k) && Stream(q[Blocks(|f|) - k..], items)
    ensures Drain(q, idle, limit, 0, []) ==
            (Delivered(if k == 0 then [Frame(f)] + items else items, limit), [])
  {
    hide Drain, Heads, Stream;
    var e: seq<seq<byte>> := [];
    if k > 0 {
      DrainTail(q, idle, limit, f, k, items, 0, e);
      assert e + Delivered(items, limit) == Delivered(items, limit);
    } else {
      DrainFrame(q, idle, limit, f, items, 0, e);
      assert ([Frame(f)] + items)[1..] == items;
      assert e + [Cut(f, limit)] == [Cut(f, limit)];
    }
  }

  /** The room in bytes: a frame is cut exactly when it is longer. */
  lemma WholeIffFits(f: seq<byte>, limit: nat)
    ensures Cut(f, limit) == f <==> Fits(f, limit)
    ensures Fits(f, limit) <==> f == [] || |f| <= Room(limit) * BLOCK
    ensures !Fits(f, limit) ==> Room(limit) * BLOCK < |f| && |Cut(f, limit)| == Room(limit) * BLOCK
  {
  }

  /**
   The receive loop at the start of a frame always reports success; it brings the whole frame if and
   only if the frame's blocks pass the room check, and otherwise the bytes of as many blocks as do.
   */
  lemma ReceivesWholeIffFits(q: seq<Reply>, idle: Reply, limit: nat, f: seq<byte>)
    requires Idle(idle) && f != [] && Heads(q, f, 0)
    ensures var o := Receive(q, idle, limit);
            && o.ret == Ok
            && (o.got == f <==> Fits(f, limit))
            && (!Fits(f, limit) ==> Room(limit) * BLOCK < |f| && o.got == f[..Room(limit) * BLOCK])
  {
    hide Collect, Heads;
    assert f[..0] == [];
    CollectFrame(q, idle, limit, f, 0, 0);
    WholeIffFits(f, limit);
  }

  function Frames(items: seq<Item>): seq<seq<byte>> {
    if items == [] then []
    else if items[0].Gap? then Frames(items[1..])
    else [items[0].bytes] + Frames(items[1..])
  }

  ghost predicate AllFit(items: seq<Item>, limit: nat) {
    forall i | 0 <= i < |items| :: items[i].Frame? ==> Fits(items[i].bytes, limit)
  }

  lemma AllFitTail(items: seq<Item>, limit: nat)
    requires items != []
    ensures AllFit(items, limit) <==> (items[0].Frame? ==> Fits(items[0].bytes, limit)) && AllFit(items[1..], limit)
  {
    if AllFit(items[1..], limit) {
      assert forall i | 1 <= i < |items| :: items[i] == items[1..][i - 1];
    }
  }

  /** The deliveries are the frames if and only if every frame fits. */
  lemma {:induction false} DeliveredWhole(items: seq<Item>, limit: nat)
    ensures Delivered(items, limit) == Frames(items) <==> AllFit(items, limit)
    decreases |items|
  {
    if items != [] {
      hide AllFit, Fits, Cut;
      AllFitTail(items, limit);
      DeliveredWhole(items[1..], limit);
      if items[0].Frame? {
        var f := items[0].bytes;
        WholeIffFits(f, limit);
        SameHead(Cut(f, limit), f, Delivered(items[1..], limit), Frames(items[1..]));
      }
    } else {
      assert AllFit([], limit);
    }
  }

  lemma SameHead<T>(a: T, b: T, s: seq<T>, t: seq<T>)
    ensures [a] + s == [b] + t <==> a == b && s == t
  {
    if [a] + s == [b] + t {
      assert ([a] + s)[0] == a && ([b] + t)[0] == b;
      assert ([a] + s)[1..] == s && ([b] + t)[1..] == t;
    }
  }

  /** The task hands on exactly the frames of the stream, none cut, if and only if every frame fits. */
  lemma StreamWholeIffFits(q: seq<Reply>, idle: Reply, limit: nat, items: seq<Item>)
    requires Idle(idle) && limit >= BLOCK + WORD_SIZE && Announced(q) && Stream(q, items)
    ensures Drain(q, idle, limit, 0, []) == (Frames(items), []) <==> AllFit(items, limit)
  {
    hide Drain, Stream, Announced, Delivered, Frames, AllFit;
    var e: seq<seq<byte>> := [];
    DrainStream(q, idle, limit, items, 0, e);
    assert e + Delivered(items, limit) == Delivered(items, limit);
    DeliveredWhole(items, limit);
  }
}
