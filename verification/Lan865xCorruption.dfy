/**
 What one bad footer in a stream does to the receive task. The call that meets it fails and drops what it
 has received. A footer with bad parity leaves `remain` as the call before set it; one that reports a bad
 header sets it to what the footer before announced in the same call, or to zero where there was none. So
 the task reads on and only the frame with the bad block is lost, or it stops there and leaves the rest in
 the chip until it is notified again.
 */
module Lan865xCorruption {
  import opened Bytes
  import opened Bits
  import opened Lan865xParity
  import opened Lan865xFrames
  import opened Lan865xStream
  import opened Lan865xVerdicts

  /** Damage on the way in, which the parity bit shows, or on the way out, which the chip reports. */
  datatype Fault = BadParity | BadHeader

  predicate Faulty(r: Reply, fault: Fault) {
    match fault
    case BadParity => !Checked(r.footer)
    case BadHeader => Checked(r.footer) && r.footer[30]
  }

  /** What a call that meets the fault behind `n` good blocks says about what remains. */
  function Tells(fault: Fault, q: seq<Reply>, n: nat, available: nat): Maybe
    requires n <= |q|
  {
    match fault
    case BadParity => None
    case BadHeader => Some(Announces(q, n, available))
  }

  /** The blocks of frame `f` from block `k` on, of which block `j` arrives with a fault. */
  ghost predicate HeadsBut(q: seq<Reply>, f: seq<byte>, k: nat, j: nat, fault: Fault) {
    && k <= j < Blocks(|f|) && |q| >= Blocks(|f|) - k
    && forall i | 0 <= i < Blocks(|f|) - k ::
         if k + i == j then Faulty(q[i], fault) else Carries(q[i], f, k + i)
  }

  /** Every reply but the one at `bad` tells whether more replies are waiting. */
  ghost predicate AnnouncedBut(q: seq<Reply>, bad: int) {
    forall i | 0 <= i < |q| && i != bad :: Rba(q[i].footer) > 0 <==> i + 1 < |q|
  }

  /** The first `n` replies hold whole frames and idle replies. */
  ghost predicate Prefix(q: seq<Reply>, items: seq<Item>, n: nat)
    decreases |items|
  {
    n <= |q| &&
    if items == [] then n == 0
    else
      match items[0]
      case Frame(f) =>
        f != [] && Blocks(|f|) <= n && Heads(q, f, 0) && Prefix(q[Blocks(|f|)..], items[1..], n - Blocks(|f|))
      case Gap => n > 0 && Sound(q[0]) && !Dv(q[0].footer) && Prefix(q[1..], items[1..], n - 1)
  }

  // ----- one call -----

  lemma ButDrop(q: seq<Reply>, f: seq<byte>, k: nat, j: nat, fault: Fault)
    requires HeadsBut(q, f, k, j, fault) && k < j
    ensures q != [] && Carries(q[0], f, k) && HeadsBut(q[1..], f, k + 1, j, fault)
  {
    hide Faulty;
    assert Carries(q[0], f, k + 0);
    forall i | 0 <= i < Blocks(|f|) - (k + 1)
      ensures if k + 1 + i == j then Faulty(q[1..][i], fault) else Carries(q[1..][i], f, k + 1 + i)
    {
      assert if k + (i + 1) == j then Faulty(q[i + 1], fault) else Carries(q[i + 1], f, k + (i + 1));
    }
  }

  lemma BadHere(q: seq<Reply>, f: seq<byte>, j: nat, fault: Fault)
    requires HeadsBut(q, f, j, j, fault)
    ensures q != [] && Faulty(q[0], fault)
  {
    hide Faulty;
  }

  lemma BadTurn(q: seq<Reply>, idle: Reply, limit: nat, got: seq<byte>, started: bool, available: nat, fault: Fault)
    requires Idle(idle) && |got| + BLOCK + WORD_SIZE <= limit && q != [] && Faulty(q[0], fault)
    ensures Collect(q, idle, limit, got, started, available)
         == Outcome(InvalidCrc, got, q[1..], Tells(fault, q, 0, available))
  {
    hide Checked;
  }

  /** A frame under way runs into its bad block. */
  lemma {:induction false} CollectBad(q: seq<Reply>, idle: Reply, limit: nat, f: seq<byte>, k: nat, j: nat,
                                      available: nat, fault: Fault)
    requires Idle(idle) && HeadsBut(q, f, k, j, fault) && j < Room(limit)
    ensures j - k + 1 <= |q|
    ensures Collect(q, idle, limit, f[..k * BLOCK], k > 0, available)
         == Outcome(InvalidCrc, f[..j * BLOCK], q[j - k + 1..], Tells(fault, q, j - k, available))
    decreases j - k
  {
    hide Collect, Carries, Heads, HeadsBut, Idle, Rba, Checked, Faulty;
    ButLong(q, f, k, j, fault);
    BlockStarts(f, k);
    if k == j {
      BadHere(q, f, j, fault);
      RoomIsCheck(limit, k);
      BadTurn(q, idle, limit, f[..k * BLOCK], k > 0, available, fault);
    } else {
      ButDrop(q, f, k, j, fault);
      OneBlock(q, idle, limit, f, k, available);
      CollectBad(q[1..], idle, limit, f, k + 1, j, Rba(q[0].footer), fault);
    }
  }

  /** So does the rest of a frame whose start has been missed. */
  lemma {:induction false} SkipBad(q: seq<Reply>, idle: Reply, limit: nat, f: seq<byte>, k: nat, j: nat,
                                   available: nat, fault: Fault)
    requires Idle(idle) && HeadsBut(q, f, k, j, fault) && limit >= BLOCK + WORD_SIZE && 0 < k
    ensures j - k + 1 <= |q|
    ensures Collect(q, idle, limit, [], false, available)
         == Outcome(InvalidCrc, [], q[j - k + 1..], Tells(fault, q, j - k, available))
    decreases j - k
  {
    hide HeadsBut, Rba, Ebo, Swo, Odd, Faulty, Collect, Carries, Idle;
    ButLong(q, f, k, j, fault);
    if k == j {
      BadHere(q, f, j, fault);
      BadTurn(q, idle, limit, [], false, available, fault);
    } else {
      ButDrop(q, f, k, j, fault);
      SkipTurn(q, idle, limit, f, k, available);
      SkipBad(q[1..], idle, limit, f, k + 1, j, Rba(q[0].footer), fault);
    }
  }

  lemma SkipTurn(q: seq<Reply>, idle: Reply, limit: nat, f: seq<byte>, k: nat, available: nat)
    requires Idle(idle) && limit >= BLOCK + WORD_SIZE && 0 < k < Blocks(|f|) - 1 && q != [] && Carries(q[0], f, k)
    ensures Collect(q, idle, limit, [], false, available)
         == Collect(q[1..], idle, limit, [], false, Rba(q[0].footer))
  {
    hide Rba, Ebo, Swo, Odd;
  }

  /** A frame longer than the room is cut before its bad block is reached. */
  lemma {:induction false} CollectCut(q: seq<Reply>, idle: Reply, limit: nat, f: seq<byte>, k: nat, j: nat,
                                      available: nat, fault: Fault)
    requires Idle(idle) && HeadsBut(q, f, k, j, fault) && k <= Room(limit) <= j
    ensures var n := Room(limit) - k;
            && n <= |q| && HeadsBut(q[n..], f, k + n, j, fault)
            && Collect(q, idle, limit, f[..k * BLOCK], k > 0, available)
            == Outcome(Ok, f[..Room(limit) * BLOCK], q[n..], Some(Announces(q, n, available)))
    decreases j - k
  {
    hide Collect, Carries, HeadsBut, Idle, Rba;
    ButLong(q, f, k, j, fault);
    BlockStarts(f, k);
    if k == Room(limit) {
      assert q[0..] == q;
      RoomBytes(f, limit);
      NoRoom(q, idle, limit, f[..k * BLOCK], k > 0, available);
    } else {
      ButDrop(q, f, k, j, fault);
      OneBlock(q, idle, limit, f, k, available);
      CollectCut(q[1..], idle, limit, f, k + 1, j, Rba(q[0].footer), fault);
      var n := Room(limit) - k;
      assert q[1..][n - 1..] == q[n..];
    }
  }

  lemma ButLong(q: seq<Reply>, f: seq<byte>, k: nat, j: nat, fault: Fault)
    requires HeadsBut(q, f, k, j, fault)
    ensures k <= j < Blocks(|f|) && |q| >= Blocks(|f|) - k
  {
  }

  lemma BlockStarts(f: seq<byte>, k: nat)
    requires k < Blocks(|f|)
    ensures k * BLOCK <= |f|
  {
  }

  lemma RoomBytes(f: seq<byte>, limit: nat)
    ensures Room(limit) < Blocks(|f|) ==> Room(limit) * BLOCK <= |f|
  {
  }

  // ----- call after call -----

  /** A call that tells of more to come is followed by another. */
  lemma DrainOn(q: seq<Reply>, idle: Reply, limit: nat, remain: nat, passed: seq<seq<byte>>)
    requires Idle(idle) && limit >= BLOCK + WORD_SIZE
    ensures var o := Receive(q, idle, limit);
            var left := if o.remain.Some? then o.remain.value else remain;
            left > 0 ==> Drain(q, idle, limit, remain, passed) == Drain(o.rest, idle, limit, left, passed + Passed(o))
    ensures var o := Receive(q, idle, limit);
            var left := if o.remain.Some? then o.remain.value else remain;
            left == 0 ==> Drain(q, idle, limit, remain, passed) == (passed + Passed(o), o.rest)
  {
    hide Receive;
  }

  /** Behind the bad block only whole frames are left, and perhaps the tail of the broken one. */
  lemma DrainAfterBad(q: seq<Reply>, idle: Reply, limit: nat, f: seq<byte>, j: nat, items: seq<Item>,
                      remain: nat, passed: seq<seq<byte>>)
    requires Idle(idle) && limit >= BLOCK + WORD_SIZE && Announced(q) && j < Blocks(|f|)
    requires Heads(q, f, j + 1) && Stream(q[Blocks(|f|) - (j + 1)..], items)
    ensures Drain(q, idle, limit, remain, passed) == (passed + Delivered(items, limit), [])
  {
    hide Drain, Stream, Delivered;
    if j + 1 < Blocks(|f|) {
      DrainTail(q, idle, limit, f, j + 1, items, remain, passed);
    } else {
      assert q[0..] == q;
      DrainStream(q, idle, limit, items, remain, passed);
    }
  }

  /** Where the bad block has been read, the rest of the frame and of the stream follows. */
  lemma BehindBad(q: seq<Reply>, f: seq<byte>, k: nat, j: nat, items: seq<Item>, fault: Fault)
    requires HeadsBut(q, f, k, j, fault) && Stream(q[Blocks(|f|) - k..], items) && AnnouncedBut(q, j - k)
    ensures var n := j - k + 1; var rest := q[n..];
            && Announced(rest) && Heads(rest, f, j + 1) && Stream(rest[Blocks(|f|) - (j + 1)..], items)
  {
    var n := j - k + 1;
    var rest := q[n..];
    hide Stream, Carries, Rba, Checked, Faulty;
    forall i | 0 <= i < Blocks(|f|) - (j + 1) ensures Carries(rest[i], f, j + 1 + i) {
      assert k + (n + i) != j && Carries(q[n + i], f, k + (n + i));
    }
    forall i | 0 <= i < |rest| ensures Rba(rest[i].footer) > 0 <==> i + 1 < |rest| {
      assert rest[i] == q[n + i];
    }
    assert rest[Blocks(|f|) - (j + 1)..] == q[Blocks(|f|) - k..];
  }

  /** The task stops at the bad block if the call that meets it leaves `remain` at zero. */
  predicate Stops(fault: Fault, k: nat, j: nat, remain: nat) {
    match fault
    case BadParity => remain == 0
    case BadHeader => j == k
  }

  lemma {:induction false} TellsRight(q: seq<Reply>, n: nat, fault: Fault)
    requires AnnouncedBut(q, n) && n < |q|
    ensures var t := Tells(fault, q, n, 0);
            if fault.BadParity? then t.None? else t.Some? && (t.value == 0 <==> n == 0)
  {
    hide Rba;
  }

  /** From the start of the broken frame, or from inside it, with something announced before or not. */
  lemma DrainBad(q: seq<Reply>, idle: Reply, limit: nat, f: seq<byte>, k: nat, j: nat, items: seq<Item>,
                 remain: nat, passed: seq<seq<byte>>, fault: Fault)
    requires Idle(idle) && limit >= BLOCK + WORD_SIZE && (k == 0 ==> j < Room(limit))
    requires HeadsBut(q, f, k, j, fault) && Stream(q[Blocks(|f|) - k..], items) && AnnouncedBut(q, j - k)
    ensures j - k + 1 <= |q|
    ensures Drain(q, idle, limit, remain, passed)
         == if Stops(fault, k, j, remain) then (passed, q[j - k + 1..]) else (passed + Delivered(items, limit), [])
  {
    hide Collect, Drain, Stream, Delivered, Carries, AnnouncedBut, Announced, Heads, Idle, HeadsBut, Tells;
    ButLong(q, f, k, j, fault);
    BehindBad(q, f, k, j, items, fault);
    if k == 0 {
      assert f[..0] == [];
      CollectBad(q, idle, limit, f, 0, j, 0, fault);
    } else {
      SkipBad(q, idle, limit, f, k, j, 0, fault);
    }
    TellsRight(q, j - k, fault);
    DrainOn(q, idle, limit, remain, passed);
    assert passed + [] == passed;
    if !Stops(fault, k, j, remain) {
      var t := Tells(fault, q, j - k, 0);
      var left := if t.Some? then t.value else remain;
      DrainAfterBad(q[j - k + 1..], idle, limit, f, j, items, left, passed);
    }
  }

  /** A broken frame whose bad block lies beyond the room: its first blocks are delivered, the rest is dropped. */
  lemma DrainCutBad(q: seq<Reply>, idle: Reply, limit: nat, f: seq<byte>, j: nat, items: seq<Item>,
                    remain: nat, passed: seq<seq<byte>>, fault: Fault)
    requires Idle(idle) && limit >= BLOCK + WORD_SIZE && Room(limit) <= j
    requires HeadsBut(q, f, 0, j, fault) && Stream(q[Blocks(|f|)..], items) && AnnouncedBut(q, j)
    ensures j + 1 <= |q|
    ensures Drain(q, idle, limit, remain, passed)
         == if fault.BadHeader? && j == Room(limit) then (passed + [Cut(f, limit)], q[j + 1..])
            else (passed + [Cut(f, limit)] + Delivered(items, limit), [])
  {
    hide Collect, Drain, Stream, Delivered, Carries, Idle, HeadsBut;
    var n := Room(limit);
    ButLong(q, f, 0, j, fault);
    assert f[..0] == [] && n >= 1;
    CollectCut(q, idle, limit, f, 0, j, 0, fault);
    DrainOn(q, idle, limit, remain, passed);
    RoomBytes(f, limit);
    assert n - 1 != j && Rba(q[n - 1].footer) > 0;
    assert q[n..][Blocks(|f|) - n..] == q[Blocks(|f|)..] && q[n..][j - n + 1..] == q[j + 1..];
    ButAnnounced(q, n, j);
    DrainBad(q[n..], idle, limit, f, n, j, items, Rba(q[n - 1].footer), passed + [Cut(f, limit)], fault);
  }

  lemma ButAnnounced(q: seq<Reply>, n: nat, bad: int)
    requires AnnouncedBut(q, bad) && n <= |q|
    ensures AnnouncedBut(q[n..], bad - n)
  {
    hide Rba;
    forall i | 0 <= i < |q[n..]| && i != bad - n ensures Rba(q[n..][i].footer) > 0 <==> i + 1 < |q[n..]| {
      assert q[n..][i] == q[n + i];
    }
  }

  /** One whole frame, cut or not, with more behind it. */
  lemma DrainOver(q: seq<Reply>, idle: Reply, limit: nat, f: seq<byte>, remain: nat, passed: seq<seq<byte>>)
    requires Idle(idle) && limit >= BLOCK + WORD_SIZE && f != [] && Heads(q, f, 0)
    requires Blocks(|f|) < |q| && forall i | 0 <= i < Blocks(|f|) :: Rba(q[i].footer) > 0
    ensures var n := Blocks(|f|);
            n > 0 && Drain(q, idle, limit, remain, passed)
                  == Drain(q[n..], idle, limit, Rba(q[n - 1].footer), passed + [Cut(f, limit)])
  {
    hide Collect, Drain, Heads, Carries, Rba;
    var n, m := Blocks(|f|), Room(limit);
    assert f[..0] == [];
    CollectFrame(q, idle, limit, f, 0, 0);
    DrainOn(q, idle, limit, remain, passed);
    if !Fits(f, limit) {
      var rest, now := q[m..], passed + [Cut(f, limit)];
      HeadsDrop(q, f, 0, m);
      SkipTail(rest, idle, limit, f, m, 0);
      DrainOn(rest, idle, limit, Rba(q[m - 1].footer), now);
      assert rest[n - m..] == q[n..] && now + [] == now && rest[n - m - 1] == q[n - 1];
    }
  }

  /** The items in front are delivered, and the last reply in front says that there is more. */
  lemma {:induction false} DrainPrefix(q: seq<Reply>, idle: Reply, limit: nat, items: seq<Item>, n: nat,
                                       remain: nat, passed: seq<seq<byte>>)
    requires Idle(idle) && limit >= BLOCK + WORD_SIZE && Prefix(q, items, n) && n < |q|
    requires forall i | 0 <= i < n :: Rba(q[i].footer) > 0
    ensures items != [] ==> n > 0
    ensures Drain(q, idle, limit, remain, passed)
         == Drain(q[n..], idle, limit, if n == 0 then remain else Rba(q[n - 1].footer),
                  passed + Delivered(items, limit))
    decreases |items|
  {
    hide Drain, Collect, Heads, Rba, Cut, Receive, Dv, Sound;
    assert passed + [] == passed;
    if items == [] {
      assert q[0..] == q;
    } else {
      match items[0]
      case Gap =>
        GapTurn(q, idle, limit);
        DrainOn(q, idle, limit, remain, passed);
        PrefixStep(q, idle, limit, items, n, 1, passed, []);
      case Frame(f) =>
        DrainOver(q, idle, limit, f, remain, passed);
        PrefixStep(q, idle, limit, items, n, Blocks(|f|), passed, [Cut(f, limit)]);
    }
  }

  lemma {:induction false} PrefixStep(q: seq<Reply>, idle: Reply, limit: nat, items: seq<Item>, n: nat, m: nat,
                                      passed: seq<seq<byte>>, got: seq<seq<byte>>)
    requires Idle(idle) && limit >= BLOCK + WORD_SIZE && items != [] && 0 < m <= n < |q|
    requires Prefix(q[m..], items[1..], n - m) && Delivered(items, limit) == got + Delivered(items[1..], limit)
    requires forall i | 0 <= i < n :: Rba(q[i].footer) > 0
    ensures Drain(q[m..], idle, limit, Rba(q[m - 1].footer), passed + got)
         == Drain(q[n..], idle, limit, Rba(q[n - 1].footer), passed + Delivered(items, limit))
    decreases |items|, 0
  {
    hide Drain, Rba, Prefix, Delivered;
    var rest := q[m..];
    forall i | 0 <= i < n - m ensures Rba(rest[i].footer) > 0 {
      assert rest[i] == q[m + i];
    }
    DrainPrefix(rest, idle, limit, items[1..], n - m, Rba(q[m - 1].footer), passed + got);
    assert rest[n - m..] == q[n..];
    assert passed + got + Delivered(items[1..], limit) == passed + Delivered(items, limit);
    if n > m { assert rest[n - m - 1] == q[n - 1]; }
  }

  /**
   A stream with one bad footer, in block `j` of a frame with `items` in front and `more` behind. The task
   stops there if a bad parity is met by the first call, or if a bad header is the first block of a call.
   Otherwise it delivers every other frame, and of the broken one nothing, unless the room had already cut
   it before the bad block.
   */
  lemma OneBadFooter(q: seq<Reply>, idle: Reply, limit: nat, items: seq<Item>, n: nat, f: seq<byte>, j: nat,
                     more: seq<Item>, fault: Fault)
    requires Idle(idle) && limit >= BLOCK + WORD_SIZE
    requires Prefix(q, items, n) && HeadsBut(q[n..], f, 0, j, fault) && Stream(q[n..][Blocks(|f|)..], more)
    requires AnnouncedBut(q, n + j)
    ensures n + j + 1 <= |q|
    ensures var broken := if j < Room(limit) then [] else [Cut(f, limit)];
            var stops := if fault.BadParity? then items == [] && j < Room(limit) else j == 0 || j == Room(limit);
            Drain(q, idle, limit, 0, []) ==
            if stops then (Delivered(items, limit) + broken, q[n + j + 1..])
            else (Delivered(items, limit) + broken + Delivered(more, limit), [])
  {
    hide Drain, Stream, Delivered, Carries, Rba, Idle, HeadsBut;
    ButLong(q[n..], f, 0, j, fault);
    ButAnnounced(q, n, n + j);
    forall i | 0 <= i < n ensures Rba(q[i].footer) > 0 {
      assert i != n + j && i + 1 < |q|;
    }
    var e: seq<seq<byte>> := [];
    DrainPrefix(q, idle, limit, items, n, 0, e);
    var got := Delivered(items, limit);
    assert e + got == got && got + [] == got;
    var remain := if n == 0 then 0 else Rba(q[n - 1].footer);
    assert q[n..][j + 1..] == q[n + j + 1..];
    if j < Room(limit) {
      DrainBad(q[n..], idle, limit, f, 0, j, more, remain, got, fault);
    } else {
      DrainCutBad(q[n..], idle, limit, f, j, more, remain, got, fault);
    }
  }

  /** Notified again after such a stop, the task delivers everything behind the broken frame. */
  lemma NotifiedAgain(q: seq<Reply>, idle: Reply, limit: nat, f: seq<byte>, j: nat, more: seq<Item>, fault: Fault)
    requires Idle(idle) && limit >= BLOCK + WORD_SIZE
    requires HeadsBut(q, f, 0, j, fault) && Stream(q[Blocks(|f|)..], more) && AnnouncedBut(q, j)
    ensures j + 1 <= |q| && Drain(q[j + 1..], idle, limit, 0, []) == (Delivered(more, limit), [])
  {
    hide Drain, Stream, Delivered, Carries, Idle, HeadsBut;
    ButLong(q, f, 0, j, fault);
    BehindBad(q, f, 0, j, more, fault);
    var e: seq<seq<byte>> := [];
    DrainAfterBad(q[j + 1..], idle, limit, f, j, more, 0, e);
    assert e + Delivered(more, limit) == Delivered(more, limit);
  }

  // ----- data that start inside a word -----

  /** The blocks of frame `f`, of which the first says that its data start behind the first word. */
  ghost predicate HeadsLate(q: seq<Reply>, f: seq<byte>) {
    && 0 < Blocks(|f|) <= |q| && Sound(q[0]) && Dv(q[0].footer) && Sv(q[0].footer) && Swo(q[0].footer) != 0
    && Heads(q[1..], f, 1)
  }

  /** The refused start ends the call, and the announcement of its footer stands. */
  lemma LateTurn(q: seq<Reply>, idle: Reply, limit: nat, f: seq<byte>)
    requires Idle(idle) && limit >= BLOCK + WORD_SIZE && HeadsLate(q, f)
    ensures 0 < Blocks(|f|) <= |q| && Heads(q[1..], f, 1)
    ensures Receive(q, idle, limit) == Outcome(InvalidState, [], q[1..], Some(Rba(q[0].footer)))
  {
    hide Rba, Heads, Odd;
  }

  /** Of a stream in which one frame starts inside a word, just that frame is lost: the task never stops there. */
  lemma StartInsideWord(q: seq<Reply>, idle: Reply, limit: nat, items: seq<Item>, n: nat, f: seq<byte>,
                        more: seq<Item>)
    requires Idle(idle) && limit >= BLOCK + WORD_SIZE && Announced(q)
    requires Prefix(q, items, n) && HeadsLate(q[n..], f) && Stream(q[n..][Blocks(|f|)..], more)
    ensures Drain(q, idle, limit, 0, []) == (Delivered(items, limit) + Delivered(more, limit), [])
  {
    hide Drain, Stream, Delivered, Heads, Rba, Idle, HeadsLate, Receive, Blocks;
    LateTurn(q[n..], idle, limit, f);
    var e: seq<seq<byte>> := [];
    DrainPrefix(q, idle, limit, items, n, 0, e);
    var got, rest := Delivered(items, limit), q[n..][1..];
    assert e + got == got && got + [] == got;
    var remain := if n == 0 then 0 else Rba(q[n - 1].footer);
    DrainOn(q[n..], idle, limit, remain, got);
    assert rest == q[n + 1..] && q[n..][0] == q[n];
    assert rest[Blocks(|f|) - 1..] == q[n..][Blocks(|f|)..];
    if Rba(q[n].footer) > 0 {
      AnnouncedDrop(q, n + 1);
      DrainAfterBad(rest, idle, limit, f, 0, more, Rba(q[n].footer), got);
    } else {
      NothingBehind(q[n..][Blocks(|f|)..], more, limit);
    }
  }

  lemma NothingBehind(q: seq<Reply>, items: seq<Item>, limit: nat)
    requires Stream(q, items) && q == []
    ensures Delivered(items, limit) == []
  {
  }
}
