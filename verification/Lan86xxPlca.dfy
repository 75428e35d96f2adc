/**
 The additional transmit opportunities of a LAN86xx PHY: eight one-byte entries in four registers, of
 which those holding 0x00 or 0xFF are free. Adding and removing are seen as operations on a multiset
 of node ids that holds no more than eight.
 */
module Lan86xxPlca {
  import opened Bytes

  const REGISTERS := 4
  const ENTRIES := 2
  const SIZE := 8

  datatype Status = Done | NoMem | NotFound

  type Table = t: seq<byte> | |t| == SIZE witness seq(SIZE, _ => 0)

  predicate Free(e: byte) {
    e == 0x00 || e == 0xFF
  }

  /** The first entry from `k` on that is free, or else SIZE. */
  function FirstFree(t: Table, k: nat): (i: nat)
    requires k <= SIZE
    ensures k <= i <= SIZE && (i < SIZE ==> Free(t[i]))
    ensures forall j | k <= j < i :: !Free(t[j])
    decreases SIZE - k
  {
    if k == SIZE || Free(t[k]) then k else FirstFree(t, k + 1)
  }

  /** The first entry from `k` on that is `id`, or else SIZE. */
  function FirstOf(t: Table, id: byte, k: nat): (i: nat)
    requires k <= SIZE
    ensures k <= i <= SIZE && (i < SIZE ==> t[i] == id)
    ensures forall j | k <= j < i :: t[j] != id
    decreases SIZE - k
  {
    if k == SIZE || t[k] == id then k else FirstOf(t, id, k + 1)
  }

  function Add(t: Table, id: byte): (Table, Status) {
    var i := FirstFree(t, 0);
    if i < SIZE then (t[i := id], Done) else (t, NoMem)
  }

  function Remove(t: Table, id: byte): (Table, Status) {
    var i := FirstOf(t, id, 0);
    if i < SIZE then (t[i := 0x00], Done) else (t, NotFound)
  }

  // ----- the multiset a table stands for -----

  function Occupied(s: seq<byte>): (m: multiset<byte>) {
    if s == [] then multiset{}
    else (if Free(s[0]) then multiset{} else multiset{s[0]}) + Occupied(s[1..])
  }

  lemma {:induction false} OccupiedMembers(s: seq<byte>, id: byte)
    ensures id in Occupied(s) <==> id in s && !Free(id)
  {
    if s != [] {
      OccupiedMembers(s[1..], id);
      assert s == [s[0]] + s[1..];
    }
  }

  lemma {:induction false} OccupiedSize(s: seq<byte>)
    ensures |Occupied(s)| <= |s|
    ensures |Occupied(s)| == |s| <==> forall j | 0 <= j < |s| :: !Free(s[j])
  {
    if s != [] {
      OccupiedSize(s[1..]);
      if forall j | 0 <= j < |s| :: !Free(s[j]) {
        forall j | 0 <= j < |s| - 1 ensures !Free(s[1..][j]) { assert s[1..][j] == s[j + 1]; }
      } else {
        var j :| 0 <= j < |s| && Free(s[j]);
        if j > 0 { assert Free(s[1..][j - 1]); }
      }
    }
  }

  /** Changing one entry takes out what it held and puts in what it now holds. */
  lemma {:induction false} OccupiedUpdate(s: seq<byte>, i: nat, e: byte)
    requires i < |s|
    ensures var out := if Free(s[i]) then multiset{} else multiset{s[i]};
            var entered := if Free(e) then multiset{} else multiset{e};
            out <= Occupied(s) && Occupied(s[i := e]) == Occupied(s) - out + entered
  {
    var now := s[i := e];
    if i == 0 {
      assert now[1..] == s[1..];
    } else {
      assert now[0] == s[0] && now[1..] == s[1..][i - 1 := e];
      OccupiedUpdate(s[1..], i - 1, e);
    }
  }

  /**
   Adding succeeds exactly while fewer than eight entries are occupied, and then changes the first entry that
   holds 0x00 or 0xFF and puts in one copy of the id; these two ids are accepted too, but put nothing in.
   */
  lemma AddIsInsert(t: Table, id: byte)
    ensures var (now, status) := Add(t, id);
            status == (if |Occupied(t)| < 8 then Done else NoMem) &&
            status == (if 0x00 in t || 0xFF in t then Done else NoMem) &&
            (status == NoMem ==> now == t) &&
            (status == Done ==> exists i | 0 <= i < 8 ::
               t[i] in [0x00, 0xFF] && 0x00 !in t[..i] && 0xFF !in t[..i] && now == t[i := id]) &&
            (status == Done ==> (Occupied(now) == Occupied(t) + multiset{id} <==> id !in [0x00, 0xFF])) &&
            (id in [0x00, 0xFF] ==> Occupied(now) == Occupied(t))
  {
    hide Occupied;
    var i := FirstFree(t, 0);
    OccupiedSize(t);
    if i < SIZE {
      OccupiedUpdate(t, i, id);
      assert Free(t[i]) && t[i := id] == Add(t, id).0;
      if Free(id) { assert (Occupied(t) + multiset{id})[id] == Occupied(t)[id] + 1; }
    }
  }

  /** Removing succeeds exactly when the id is there, and then changes one entry and takes out one copy. */
  lemma RemoveIsDelete(t: Table, id: byte)
    ensures var (now, status) := Remove(t, id);
            status == (if id in t then Done else NotFound) &&
            (!Free(id) ==> status == if id in Occupied(t) then Done else NotFound) &&
            (status == NotFound ==> now == t) &&
            (status == Done ==> exists i | 0 <= i < SIZE ::
               t[i] == id && id !in t[..i] && now == t[i := 0x00]) &&
            Occupied(now) == Occupied(t) - multiset{id}
  {
    hide Occupied;
    var i := FirstOf(t, id, 0);
    OccupiedMembers(t, id);
    if i < SIZE {
      OccupiedUpdate(t, i, 0x00);
      assert t[i] == id && t[i := 0x00] == Remove(t, id).0;
    }
    if id !in Occupied(t) { TakesNothing(Occupied(t), id); }
  }

  lemma TakesNothing(m: multiset<byte>, id: byte)
    requires id !in m
    ensures m - multiset{id} == m
  {
  }

  // ----- runs -----

  datatype Op = AddId(id: byte) | RemoveId(id: byte)

  function Step(t: Table, op: Op): (Table, Status) {
    match op
    case AddId(id) => Add(t, id)
    case RemoveId(id) => Remove(t, id)
  }

  /** The same on a multiset of at most eight ids. */
  function Bounded(m: multiset<byte>, op: Op): (multiset<byte>, Status) {
    match op
    case AddId(id) => if |m| < SIZE then (m + multiset{id}, Done) else (m, NoMem)
    case RemoveId(id) => if id in m then (m - multiset{id}, Done) else (m, NotFound)
  }

  function Run(t: Table, ops: seq<Op>): (Table, seq<Status>)
    decreases |ops|
  {
    if ops == [] then (t, [])
    else
      var (now, status) := Step(t, ops[0]);
      var (end, rest) := Run(now, ops[1..]);
      (end, [status] + rest)
  }

  function RunBounded(m: multiset<byte>, ops: seq<Op>): (multiset<byte>, seq<Status>)
    decreases |ops|
  {
    if ops == [] then (m, [])
    else
      var (now, status) := Bounded(m, ops[0]);
      var (end, rest) := RunBounded(now, ops[1..]);
      (end, [status] + rest)
  }

  lemma StepIsBounded(t: Table, op: Op)
    requires !Free(op.id)
    ensures var (now, status) := Step(t, op); Bounded(Occupied(t), op) == (Occupied(now), status)
  {
    hide Add, Remove, Occupied;
    if op.AddId? { AddIsInsert(t, op.id); } else { RemoveIsDelete(t, op.id); }
  }

  /** Over any run with proper ids the table is a multiset bounded by eight, with the same answers. */
  lemma {:induction false} RunIsBounded(t: Table, ops: seq<Op>)
    requires forall op | op in ops :: !Free(op.id)
    ensures Occupied(Run(t, ops).0) == RunBounded(Occupied(t), ops).0 && |Occupied(Run(t, ops).0)| <= SIZE
    ensures Run(t, ops).1 == RunBounded(Occupied(t), ops).1
    decreases |ops|
  {
    OccupiedSize(t);
    if ops != [] {
      hide Step, Bounded, Occupied, Free;
      StepIsBounded(t, ops[0]);
      RunIsBounded(Step(t, ops[0]).0, ops[1..]);
    }
  }

  // ----- the driver's code -----

  type MultiId = e: seq<byte> | |e| == ENTRIES witness [0, 0]

  /** The PHY's four registers, read and written as a whole. */
  class Phy {
    var multiId: seq<MultiId>

    constructor ()
      ensures |multiId| == REGISTERS && Entries() == seq(SIZE, _ => 0)
    {
      multiId := [[0, 0], [0, 0], [0, 0], [0, 0]];
    }

    ghost function Entries(): Table
      reads this
      requires |multiId| == REGISTERS
    {
      Flat(multiId)
    }

    method AddTxOpportunity(id: byte) returns (status: Status)
      requires |multiId| == REGISTERS
      modifies this
      ensures |multiId| == REGISTERS && (Entries(), status) == Add(old(Entries()), id)
    {
      for i := 0 to REGISTERS
        invariant multiId == old(multiId)
        invariant forall k | 0 <= k < ENTRIES * i :: !Free(Entries()[k])
      {
        var plcaMultipleId := multiId[i];
        for j := 0 to ENTRIES
          invariant multiId == old(multiId)
          invariant forall k | 0 <= k < ENTRIES * i + j :: !Free(Entries()[k])
        {
          assert plcaMultipleId[j] == Entries()[ENTRIES * i + j];
          if plcaMultipleId[j] == 0x00 || plcaMultipleId[j] == 0xFF {
            plcaMultipleId := plcaMultipleId[j := id];
            multiId := multiId[i := plcaMultipleId];
            EntrySet(old(multiId), i, j, id);
            return Done;
          }
        }
      }
      return NoMem;
    }

    method RemoveTxOpportunity(id: byte) returns (status: Status)
      requires |multiId| == REGISTERS
      modifies this
      ensures |multiId| == REGISTERS && (Entries(), status) == Remove(old(Entries()), id)
    {
      for i := 0 to REGISTERS
        invariant multiId == old(multiId)
        invariant forall k | 0 <= k < ENTRIES * i :: Entries()[k] != id
      {
        var plcaMultipleId := multiId[i];
        for j := 0 to ENTRIES
          invariant multiId == old(multiId)
          invariant forall k | 0 <= k < ENTRIES * i + j :: Entries()[k] != id
        {
          assert plcaMultipleId[j] == Entries()[ENTRIES * i + j];
          if plcaMultipleId[j] == id {
            plcaMultipleId := plcaMultipleId[j := 0x00];
            multiId := multiId[i := plcaMultipleId];
            EntrySet(old(multiId), i, j, 0x00);
            return Done;
          }
        }
      }
      return NotFound;
    }
  }

  function Flat(regs: seq<MultiId>): Table
    requires |regs| == REGISTERS
  {
    seq(SIZE, k requires 0 <= k < SIZE => regs[k / ENTRIES][k % ENTRIES])
  }

  /** Writing back one register with one entry changed changes that entry of the table. */
  lemma EntrySet(regs: seq<MultiId>, i: nat, j: nat, e: byte)
    requires |regs| == REGISTERS && i < REGISTERS && j < ENTRIES
    ensures Flat(regs[i := regs[i][j := e]]) == Flat(regs)[ENTRIES * i + j := e]
  {
  }
}
