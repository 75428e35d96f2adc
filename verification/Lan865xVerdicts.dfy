/**
 What one footer does to the receive loop, told by the bits of the word and by the number it stands for,
 and what that means for frames that arrive disturbed: with a bad header reported, with data that do not
 start at the first word, with an idle block in between, or without their end.
 */
module Lan865xVerdicts {
  import opened Bytes
  import opened Bits
  import opened Lan865xParity
  import opened Lan865xFrames
  import opened Lan865xStream

  /** The number of blocks announced, the start word and the end byte, from the number the word stands for. */
  function Waiting(v: nat): nat { v / 0x100_0000 % 0x20 }
  function StartWord(v: nat): nat { v / 0x1_0000 % 0x10 }
  function EndByte(v: nat): nat { v / 0x100 % 0x40 }

  /** Every turn of the receive loop that has room, by the bits of the footer it meets. */
  lemma Turn(q: seq<Reply>, idle: Reply, limit: nat, got: seq<byte>, started: bool, available: nat)
    requires Idle(idle) && q != [] && |got| + 68 <= limit
    ensures var w := q[0].footer;
            var v, o := Value(w), Collect(q, idle, limit, got, started, available);
            && (Ones(w) % 2 == 0 ==> o == Outcome(InvalidCrc, got, q[1..], None))
            && (Ones(w) % 2 == 1 && w[30] ==> o == Outcome(InvalidCrc, got, q[1..], Some(available)))
            && (Ones(w) % 2 == 1 && !w[30] ==>
                  if !w[21] then o == Outcome(Ok, got, q[1..], Some(Waiting(v)))
                  else if !started && !w[20] then
                    if w[14] then o == Outcome(Ok, got, q[1..], Some(Waiting(v)))
                    else o == Collect(q[1..], idle, limit, got, false, Waiting(v))
                  else if !started && StartWord(v) != 0 then o == Outcome(InvalidState, got, q[1..], Some(Waiting(v)))
                  else if w[14] then
                    o == Outcome(Ok, got + q[0].data[..EndByte(v) + 1], q[1..], Some(Waiting(v)))
                  else o == Collect(q[1..], idle, limit, got + q[0].data, true, Waiting(v)))
  {
    hide Value, Ones, Checked, Odd, Idle, Rba, Swo, Ebo;
    var w := q[0].footer;
    FieldsOfValue(w);
    CheckedIsOdd(w);
    OddIs(w);
    assert q[0].data[..BLOCK] == q[0].data;
  }

  lemma OddIs(w: Word)
    ensures Odd(w) <==> Ones(w) % 2 == 1
    ensures Ones(w) % 2 == 0 || Ones(w) % 2 == 1
  {
  }

  /**
   A call whose first footer has good parity and the header-bad bit set fails, receives nothing, passes
   nothing on and reports that nothing waits; one that starts inside a word is refused as a bad state.
   */
  lemma FirstFooterRefused(q: seq<Reply>, idle: Reply, limit: nat)
    requires Idle(idle) && q != [] && limit >= 68
    ensures var w, o := q[0].footer, Receive(q, idle, limit);
            && (Ones(w) % 2 == 1 && w[30] ==> o == Outcome(InvalidCrc, [], q[1..], Some(0)) && Passed(o) == [])
            && (Ones(w) % 2 == 0 ==> o == Outcome(InvalidCrc, [], q[1..], None) && Passed(o) == [])
            && (Ones(w) % 2 == 1 && !w[30] && w[21] && w[20] && StartWord(Value(w)) != 0 ==>
                  o == Outcome(InvalidState, [], q[1..], Some(Waiting(Value(w)))) && Passed(o) == [])
  {
    Turn(q, idle, limit, [], false, 0);
    hide Collect, Value, Ones, StartWord, Waiting;
  }

  // ----- frames disturbed on the way -----

  /** The blocks of frame `f` from block `k` up to, but without, block `j`. */
  ghost predicate Part(q: seq<Reply>, f: seq<byte>, k: nat, j: nat) {
    k <= j <= Blocks(|f|) && |q| >= j - k && forall i | 0 <= i < j - k :: Carries(q[i], f, k + i)
  }

  lemma PartDrop(q: seq<Reply>, f: seq<byte>, k: nat, j: nat)
    requires Part(q, f, k, j) && k < j
    ensures q != [] && Carries(q[0], f, k) && Part(q[1..], f, k + 1, j)
  {
    assert Carries(q[0], f, k + 0);
    forall i | 0 <= i < j - (k + 1) ensures Carries(q[1..][i], f, k + 1 + i) {
      assert Carries(q[i + 1], f, k + (i + 1));
    }
  }

  /** What the last of `n` replies announces. */
  function Announces(q: seq<Reply>, n: nat, available: nat): nat
    requires n <= |q|
  {
    if n == 0 then available else Rba(q[n - 1].footer)
  }

  /** The loop takes in the first blocks of a frame behind whatever it has. */
  lemma {:induction false} CollectPart(q: seq<Reply>, idle: Reply, limit: nat, pre: seq<byte>, f: seq<byte>, k: nat,
                                       j: nat, started: bool, available: nat)
    requires Idle(idle) && Part(q, f, k, j) && j < Blocks(|f|) && |pre| + j * BLOCK + BLOCK + WORD_SIZE <= limit
    requires started || (pre == [] && k == 0)
    ensures j * BLOCK <= |f|
    ensures Collect(q, idle, limit, pre + f[..k * BLOCK], started, available)
         == Collect(q[j - k..], idle, limit, pre + f[..j * BLOCK], started || k < j, Announces(q, j - k, available))
    decreases j - k
  {
    hide Collect, Carries, Idle, Part, Rba;
    PartBounds(q, f, k, j);
    if k < j {
      PartDrop(q, f, k, j);
      PartTurn(q, idle, limit, pre, f, k, started, available);
      CollectPart(q[1..], idle, limit, pre, f, k + 1, j, true, Rba(q[0].footer));
      assert q[1..][j - k - 1..] == q[j - k..];
    } else {
      assert q[0..] == q;
    }
  }

  lemma PartBounds(q: seq<Reply>, f: seq<byte>, k: nat, j: nat)
    requires Part(q, f, k, j) && j < Blocks(|f|)
    ensures k <= j && k * BLOCK <= j * BLOCK <= |f| && j - k <= |q|
  {
  }

  /** One inner block of a frame, behind whatever has been received. */
  lemma PartTurn(q: seq<Reply>, idle: Reply, limit: nat, pre: seq<byte>, f: seq<byte>, k: nat, started: bool,
                 available: nat)
    requires Idle(idle) && q != [] && Carries(q[0], f, k) && k + 1 < Blocks(|f|)
    requires |pre| + k * BLOCK + BLOCK + WORD_SIZE <= limit && (started || k == 0)
    ensures (k + 1) * BLOCK <= |f|
    ensures Collect(q, idle, limit, pre + f[..k * BLOCK], started, available)
         == Collect(q[1..], idle, limit, pre + f[..(k + 1) * BLOCK], true, Rba(q[0].footer))
  {
    hide Rba, Ebo, Odd, Idle;
    assert f[..(k + 1) * BLOCK] == f[..k * BLOCK] + f[k * BLOCK..k * BLOCK + BLOCK];
    assert pre + f[..(k + 1) * BLOCK] == pre + f[..k * BLOCK] + q[0].data[..BLOCK];
  }

  /** The last block of a frame, behind whatever has been received. */
  lemma LastTurn(q: seq<Reply>, idle: Reply, limit: nat, pre: seq<byte>, f: seq<byte>, k: nat, started: bool,
                 available: nat)
    requires Idle(idle) && q != [] && Carries(q[0], f, k) && k + 1 == Blocks(|f|)
    requires |pre| + k * BLOCK + BLOCK + WORD_SIZE <= limit && (started || k == 0)
    ensures k * BLOCK <= |f|
    ensures Collect(q, idle, limit, pre + f[..k * BLOCK], started, available)
         == Outcome(Ok, pre + f, q[1..], Some(Rba(q[0].footer)))
  {
    hide Rba, Odd, Idle;
    assert f == f[..k * BLOCK] + f[k * BLOCK..k * BLOCK + Share(f, k)];
    assert pre + f == pre + f[..k * BLOCK] + q[0].data[..Share(f, k)];
  }

  /**
   A frame that an idle block interrupts is delivered as far as it has come, with success; what follows
   is the tail of a frame without its start.
   */
  lemma IdleBlockCutsFrame(q: seq<Reply>, idle: Reply, limit: nat, f: seq<byte>, j: nat)
    requires Idle(idle) && Part(q, f, 0, j) && j < Blocks(|f|) && j < Room(limit) && j < |q|
    requires Sound(q[j]) && !Dv(q[j].footer)
    ensures j * BLOCK <= |f|
    ensures Receive(q, idle, limit) == Outcome(Ok, f[..j * BLOCK], q[j + 1..], Some(Rba(q[j].footer)))
  {
    hide Collect, Part, Rba, Dv, Sound;
    RoomIsCheck(limit, j);
    PartBounds(q, f, 0, j);
    assert f[..0] == [] && [] + f[..0] == [] && [] + f[..j * BLOCK] == f[..j * BLOCK];
    CollectPart(q, idle, limit, [], f, 0, j, false, 0);
    GapAt(q[j..], idle, limit, f[..j * BLOCK], j > 0, Announces(q, j, 0));
    assert q[j..][1..] == q[j + 1..];
  }

  lemma GapAt(q: seq<Reply>, idle: Reply, limit: nat, got: seq<byte>, started: bool, available: nat)
    requires Idle(idle) && q != [] && Sound(q[0]) && !Dv(q[0].footer) && |got| + BLOCK + WORD_SIZE <= limit
    ensures Collect(q, idle, limit, got, started, available) == Outcome(Ok, got, q[1..], Some(Rba(q[0].footer)))
  {
    hide Rba, Odd;
  }

  /**
   A frame whose last blocks are missing runs into the next one: the loop does not look for a start inside a
   frame, and the two are delivered as one, with success.
   */
  lemma MissingEndJoinsFrames(q: seq<Reply>, idle: Reply, limit: nat, f: seq<byte>, j: nat, g: seq<byte>)
    requires Idle(idle) && Part(q, f, 0, j) && 0 < j < Blocks(|f|)
    requires g != [] && Heads(q[j..], g, 0) && j + Blocks(|g|) <= Room(limit)
    ensures j * BLOCK <= |f| && j + Blocks(|g|) <= |q|
    ensures var n := j + Blocks(|g|);
            Receive(q, idle, limit) == Outcome(Ok, f[..j * BLOCK] + g, q[n..], Some(Rba(q[n - 1].footer)))
  {
    hide Collect, Part, Rba, Heads, Carries, Blocks, Room, Idle, Announces;
    PartBounds(q, f, 0, j);
    HeadsPart(q[j..], g);
    RoomIsCheck(limit, j + Blocks(|g|) - 1);
    RoomIsCheck(limit, j);
    assert f[..0] == [] && [] + f[..0] == [] && [] + f[..j * BLOCK] == f[..j * BLOCK];
    CollectPart(q, idle, limit, [], f, 0, j, false, 0);
    CollectBehind(q[j..], idle, limit, f[..j * BLOCK], g, Announces(q, j, 0));
    assert q[j..][Blocks(|g|)..] == q[j + Blocks(|g|)..];
  }

  /** A whole frame behind bytes already received, which the loop takes for its beginning. */
  lemma CollectBehind(q: seq<Reply>, idle: Reply, limit: nat, pre: seq<byte>, g: seq<byte>, available: nat)
    requires Idle(idle) && g != [] && Heads(q, g, 0)
    requires |pre| + (Blocks(|g|) - 1) * BLOCK + BLOCK + WORD_SIZE <= limit
    ensures var n := Blocks(|g|);
            0 < n <= |q| && Collect(q, idle, limit, pre, true, available)
                         == Outcome(Ok, pre + g, q[n..], Some(Rba(q[n - 1].footer)))
  {
    hide Collect, Part, Rba, Heads, Carries, Blocks, Idle, Announces;
    HeadsPart(q, g);
    var k := Blocks(|g|) - 1;
    PartBounds(q, g, 0, k);
    assert g[..0] == [] && pre + g[..0] == pre;
    CollectPart(q, idle, limit, pre, g, 0, k, true, available);
    LastTurn(q[k..], idle, limit, pre, g, k, true, Announces(q, k, available));
    assert q[k..][1..] == q[k + 1..];
  }

  lemma HeadsPart(q: seq<Reply>, f: seq<byte>)
    requires f != [] && Heads(q, f, 0)
    ensures 0 < Blocks(|f|) <= |q|
    ensures Part(q, f, 0, Blocks(|f|) - 1) && Carries(q[Blocks(|f|) - 1], f, Blocks(|f|) - 1)
  {
    assert forall i | 0 <= i < Blocks(|f|) :: Carries(q[i], f, 0 + i);
    hide Carries;
  }
}
