/**
 The register banks of the ENC28J60 and the driver's cached bank number. The chip shows one bank of
 registers at a time, chosen by the low bits of ECON1, which is itself a register; the driver writes
 those bits only when its cache says that another bank is needed.
 */
module Enc28j60Bank {
  const ECON1: bv8 := 0x1F
  const FIRST_SHARED: bv8 := 0x1B
  const BANK_BITS: bv8 := 0x03
  const UNKNOWN: bv8 := 0xFF

  /** A register as the chip keeps it; the shared ones stand in bank 0 only. */
  datatype Place = Place(bank: bv8, index: bv8)

  type Registers = map<Place, bv8>

  const ECON1_PLACE := Place(0, ECON1)

  function SetBits(x: bv8, mask: bv8): bv8 {
    x | mask
  }

  function ClearBits(x: bv8, mask: bv8): bv8 {
    x & !mask
  }

  /** A value of ECON1 without the bank bits. */
  function Upper(x: bv8): bv8 {
    x & !BANK_BITS
  }

  /** The bank bits of a value of ECON1, or of a bank number. */
  function Lower(x: bv8): bv8 {
    x & BANK_BITS
  }

  function PlaceOf(bank: bv8, index: bv8): Place {
    if index & 0x1F >= FIRST_SHARED then Place(0, index & 0x1F) else Place(Lower(bank), index & 0x1F)
  }

  function Get(regs: Registers, p: Place): bv8 {
    if p in regs then regs[p] else 0
  }

  /** The bank the chip shows. */
  function Selected(regs: Registers): bv8 {
    Lower(Get(regs, ECON1_PLACE))
  }

  // ----- the commands of the chip, which see the selected bank -----

  function ChipRead(regs: Registers, index: bv8): bv8 {
    Get(regs, PlaceOf(Selected(regs), index))
  }

  function ChipWrite(regs: Registers, index: bv8, value: bv8): Registers {
    regs[PlaceOf(Selected(regs), index) := value]
  }

  function ChipSet(regs: Registers, index: bv8, mask: bv8): Registers {
    ChipWrite(regs, index, SetBits(ChipRead(regs, index), mask))
  }

  function ChipClear(regs: Registers, index: bv8, mask: bv8): Registers {
    ChipWrite(regs, index, ClearBits(ChipRead(regs, index), mask))
  }

  // ----- the driver -----

  datatype Driver = Driver(regs: Registers, lastBank: bv8)

  /** Bits 11..8 of an address name the bank, bits 7..0 the register in it. */
  function BankOf(addr: bv16): bv8 {
    ((addr & 0xF00) >> 8) as bv8
  }

  function IndexOf(addr: bv16): bv8 {
    (addr & 0xFF) as bv8
  }

  function Switch(d: Driver, bank: bv8): Driver {
    if bank == d.lastBank then d
    else Driver(ChipSet(ChipClear(d.regs, ECON1, BANK_BITS), ECON1, Lower(bank)), bank)
  }

  datatype Op =
    | Read(addr: bv16)
    | Write(addr: bv16, value: bv8)
    | BitSet(index: bv8, mask: bv8)
    | BitClear(index: bv8, mask: bv8)
    | Hardware(now: Registers)

  function Step(d: Driver, op: Op): Driver {
    match op
    case Read(addr) => Switch(d, BankOf(addr))
    case Write(addr, value) =>
      var s := Switch(d, BankOf(addr)); s.(regs := ChipWrite(s.regs, IndexOf(addr), value))
    case BitSet(index, mask) => d.(regs := ChipSet(d.regs, index, mask))
    case BitClear(index, mask) => d.(regs := ChipClear(d.regs, index, mask))
    case Hardware(now) => d.(regs := now)
  }

  /** What a read gives the caller; the other operations give nothing. */
  function Answer(d: Driver, op: Op): seq<bv8> {
    if op.Read? then [ChipRead(Step(d, op).regs, IndexOf(op.addr))] else []
  }

  /** The cache is either unknown or names the bank the chip shows. */
  predicate Coherent(d: Driver) {
    d.lastBank == UNKNOWN || Lower(d.lastBank) == Selected(d.regs)
  }

  /** The operation does not move the bank bits behind the cache's back. */
  predicate Harmless(d: Driver, op: Op) {
    match op
    case Read(_) => true
    case Write(addr, value) => IndexOf(addr) & 0x1F != ECON1 || Lower(value) == Lower(BankOf(addr))
    case BitSet(index, mask) =>
      index & 0x1F != ECON1 || d.lastBank == UNKNOWN || Lower(SetBits(d.lastBank, mask)) == Lower(d.lastBank)
    case BitClear(index, mask) =>
      index & 0x1F != ECON1 || d.lastBank == UNKNOWN || Lower(ClearBits(d.lastBank, mask)) == Lower(d.lastBank)
    case Hardware(now) => d.lastBank == UNKNOWN || Selected(now) == Lower(d.lastBank)
  }

  // ----- bits -----

  lemma BankIsSmall(addr: bv16)
    ensures BankOf(addr) != UNKNOWN
  {
  }

  lemma PlaceBits(bank: bv8, index: bv8)
    ensures PlaceOf(bank, index) == ECON1_PLACE <==> index & 0x1F == ECON1
    ensures PlaceOf(Lower(bank), index) == PlaceOf(bank, index)
  {
  }

  lemma ReplacedBits(x: bv8, bank: bv8)
    ensures Lower(SetBits(ClearBits(x, BANK_BITS), Lower(bank))) == Lower(bank)
    ensures Upper(SetBits(ClearBits(x, BANK_BITS), Lower(bank))) == Upper(x)
  {
  }

  lemma MaskBits(x: bv8, last: bv8, mask: bv8)
    requires Lower(last) == Lower(x)
    ensures Lower(SetBits(x, mask)) == Lower(SetBits(last, mask))
    ensures Lower(ClearBits(x, mask)) == Lower(ClearBits(last, mask))
  {
  }

  /**
   The layout of the driver's register addresses: the top nibble tells the kind of register, the next one
   the bank, the low byte the index. An index from 0x1B on names a register every bank shows.
   */
  function Address(kind: bv16, bank: bv16, index: bv16): bv16
    requires kind < 16 && bank < 4 && index < 0x20
  {
    (kind << 12) | (bank << 8) | index
  }

  /** An address names the register of that index in that bank, whatever its kind. */
  lemma AddressNames(kind: bv16, bank: bv16, index: bv16)
    requires kind < 16 && bank < 4 && index < 0x20
    ensures Named(Address(kind, bank, index)) ==
            if index < 0x1B then Place(bank as bv8, index as bv8) else Place(0, index as bv8)
  {
  }

  /** Different banks and indices of unshared registers are different registers. */
  lemma AddressesDiffer(kind: bv16, bank: bv16, index: bv16, kind': bv16, bank': bv16, index': bv16)
    requires kind < 16 && bank < 4 && index < 0x1B && kind' < 16 && bank' < 4 && index' < 0x20
    ensures Named(Address(kind, bank, index)) == Named(Address(kind', bank', index')) <==>
            bank == bank' && index == index'
  {
    hide Named, Address;
    AddressNames(kind, bank, index);
    AddressNames(kind', bank', index');
  }

  /** From any coherent state a read by address gives that register, and a write changes that register alone. */
  lemma AddressReached(d: Driver, kind: bv16, bank: bv16, index: bv16, value: bv8)
    requires Coherent(d) && kind < 16 && bank < 4 && index < 0x1B
    ensures var p, addr := Place(bank as bv8, index as bv8), Address(kind, bank, index);
            && Answer(d, Read(addr)) == [Get(d.regs, p)]
            && (forall q | q != ECON1_PLACE ::
                  Get(Step(d, Write(addr, value)).regs, q) == if q == p then value else Get(d.regs, q))
  {
    var p, addr := Place(bank as bv8, index as bv8), Address(kind, bank, index);
    AddressNames(kind, bank, index);
    NotEcon(kind, bank, index);
    hide Coherent, Answer, Get, Named, Address, Agree, Step;
    AgreesSelf(d.regs);
    ReadReaches(d, d.regs, addr);
    StepAgreesSelf(d, Write(addr, value));
    var flat, after := d.regs[p := value], Step(d, Write(addr, value)).regs;
    forall q | q != ECON1_PLACE ensures Get(after, q) == if q == p then value else Get(d.regs, q) {
      UpdateGets(d.regs, p, value, q);
      AgreeAt(flat, after, q);
    }
  }

  lemma NotEcon(kind: bv16, bank: bv16, index: bv16)
    requires kind < 16 && bank < 4 && index < 0x1B
    ensures IndexOf(Address(kind, bank, index)) & 0x1F != ECON1
  {
  }

  lemma AgreeAt(flat: Registers, regs: Registers, p: Place)
    requires Agree(flat, regs) && p != ECON1_PLACE
    ensures Get(flat, p) == Get(regs, p)
  {
  }

  // ----- one step -----

  lemma WriteGets(regs: Registers, index: bv8, value: bv8, p: Place)
    ensures Get(ChipWrite(regs, index, value), p)
         == if p == PlaceOf(Selected(regs), index) then value else Get(regs, p)
  {
    hide PlaceOf, Selected;
  }

  lemma ClearGets(regs: Registers, index: bv8, mask: bv8, p: Place)
    ensures Get(ChipClear(regs, index, mask), p)
         == if p == PlaceOf(Selected(regs), index) then ClearBits(Get(regs, p), mask) else Get(regs, p)
  {
    hide PlaceOf, Selected, Get, ChipWrite, SetBits, ClearBits;
    WriteGets(regs, index, ClearBits(ChipRead(regs, index), mask), p);
  }

  lemma SetGets(regs: Registers, index: bv8, mask: bv8, p: Place)
    ensures Get(ChipSet(regs, index, mask), p)
         == if p == PlaceOf(Selected(regs), index) then SetBits(Get(regs, p), mask) else Get(regs, p)
  {
    hide PlaceOf, Selected, Get, ChipWrite, SetBits, ClearBits;
    WriteGets(regs, index, SetBits(ChipRead(regs, index), mask), p);
  }

  /** What rewriting the bank bits of ECON1 does to every register. */
  lemma RewrittenBits(regs: Registers, bank: bv8, p: Place)
    ensures Get(ChipSet(ChipClear(regs, ECON1, BANK_BITS), ECON1, Lower(bank)), p)
         == if p == ECON1_PLACE then SetBits(ClearBits(Get(regs, p), BANK_BITS), Lower(bank)) else Get(regs, p)
  {
    hide *;
    var cleared := ChipClear(regs, ECON1, BANK_BITS);
    PlaceBits(Selected(regs), ECON1);
    PlaceBits(Selected(cleared), ECON1);
    ClearGets(regs, ECON1, BANK_BITS, p);
    SetGets(cleared, ECON1, Lower(bank), p);
    EconIndex();
  }

  lemma EconIndex()
    ensures ECON1 & 0x1F == ECON1
  {
  }

  /** After a switch the chip shows the wanted bank, and nothing but the bank bits has changed. */
  lemma SwitchSelects(d: Driver, bank: bv8)
    requires Coherent(d) && bank != UNKNOWN
    ensures var s := Switch(d, bank);
            s.lastBank == bank && Selected(s.regs) == Lower(bank)
    ensures forall p | p != ECON1_PLACE :: Get(Switch(d, bank).regs, p) == Get(d.regs, p)
    ensures Upper(Get(Switch(d, bank).regs, ECON1_PLACE)) == Upper(Get(d.regs, ECON1_PLACE))
  {
    hide Get, ChipSet, ChipClear, SetBits, ClearBits, Upper, Lower;
    ReplacedBits(Get(d.regs, ECON1_PLACE), bank);
    RewrittenBits(d.regs, bank, ECON1_PLACE);
    forall p | p != ECON1_PLACE ensures Get(Switch(d, bank).regs, p) == Get(d.regs, p) {
      RewrittenBits(d.regs, bank, p);
    }
  }

  /** The cache stays right exactly when the operation is harmless. */
  lemma StepCoherent(d: Driver, op: Op)
    requires Coherent(d)
    ensures Coherent(Step(d, op)) <==> Harmless(d, op)
  {
    hide Get, PlaceOf, ChipWrite, ChipSet, ChipClear, Switch, BankOf, IndexOf, SetBits, ClearBits, Upper, Lower;
    match op
    case Read(addr) =>
      BankIsSmall(addr);
      SwitchSelects(d, BankOf(addr));
    case Write(addr, value) =>
      BankIsSmall(addr);
      SwitchSelects(d, BankOf(addr));
      var s := Switch(d, BankOf(addr));
      PlaceBits(Selected(s.regs), IndexOf(addr));
      WriteGets(s.regs, IndexOf(addr), value, ECON1_PLACE);
    case BitSet(index, mask) =>
      PlaceBits(Selected(d.regs), index);
      SetGets(d.regs, index, mask, ECON1_PLACE);
      if d.lastBank != UNKNOWN { MaskBits(Get(d.regs, ECON1_PLACE), d.lastBank, mask); }
    case BitClear(index, mask) =>
      PlaceBits(Selected(d.regs), index);
      ClearGets(d.regs, index, mask, ECON1_PLACE);
      if d.lastBank != UNKNOWN { MaskBits(Get(d.regs, ECON1_PLACE), d.lastBank, mask); }
    case Hardware(_) =>
  }

  // ----- runs -----

  /** The driver's bit commands name shared registers, which every bank shows. */
  predicate Shared(op: Op) {
    match op
    case BitSet(index, _) => index & 0x1F >= FIRST_SHARED
    case BitClear(index, _) => index & 0x1F >= FIRST_SHARED
    case _ => true
  }

  /** Every operation of the run is harmless where it happens. */
  predicate AllHarmless(d: Driver, ops: seq<Op>)
    decreases |ops|
  {
    ops == [] || (Harmless(d, ops[0]) && AllHarmless(Step(d, ops[0]), ops[1..]))
  }

  predicate AlwaysCoherent(d: Driver, ops: seq<Op>)
    decreases |ops|
  {
    Coherent(d) && (ops == [] || AlwaysCoherent(Step(d, ops[0]), ops[1..]))
  }

  /** The cache is right all along a run exactly when every operation is harmless. */
  lemma {:induction false} CoherentIffHarmless(d: Driver, ops: seq<Op>)
    requires Coherent(d)
    ensures AlwaysCoherent(d, ops) <==> AllHarmless(d, ops)
    decreases |ops|
  {
    hide Coherent, Harmless, Step;
    if ops != [] {
      StepCoherent(d, ops[0]);
      if Harmless(d, ops[0]) { CoherentIffHarmless(Step(d, ops[0]), ops[1..]); }
      else { NotCoherent(Step(d, ops[0]), ops[1..]); }
    }
  }

  lemma NotCoherent(d: Driver, ops: seq<Op>)
    requires !Coherent(d)
    ensures !AlwaysCoherent(d, ops)
  {
  }

  function Run(d: Driver, ops: seq<Op>): Driver
    decreases |ops|
  {
    if ops == [] then d else Run(Step(d, ops[0]), ops[1..])
  }

  /** What the reads of a run give, the bank bits of ECON1 left aside. */
  function Answers(d: Driver, ops: seq<Op>): seq<bv8>
    decreases |ops|
  {
    if ops == [] then []
    else
      var rest := Answers(Step(d, ops[0]), ops[1..]);
      if ops[0].Read? then [Seen(ops[0].addr, Answer(d, ops[0])[0])] + rest else rest
  }

  function Seen(addr: bv16, value: bv8): bv8 {
    if IndexOf(addr) & 0x1F == ECON1 then Upper(value) else value
  }

  /** The register an address names, whatever bank the chip shows. */
  function Named(addr: bv16): Place {
    PlaceOf(BankOf(addr), IndexOf(addr))
  }

  /** The same operations on a register file without banks. */
  function FlatStep(flat: Registers, op: Op): Registers {
    match op
    case Read(_) => flat
    case Write(addr, value) => flat[Named(addr) := value]
    case BitSet(index, mask) => flat[PlaceOf(0, index) := SetBits(Get(flat, PlaceOf(0, index)), mask)]
    case BitClear(index, mask) => flat[PlaceOf(0, index) := ClearBits(Get(flat, PlaceOf(0, index)), mask)]
    case Hardware(now) => now
  }

  function FlatAnswers(flat: Registers, ops: seq<Op>): seq<bv8>
    decreases |ops|
  {
    if ops == [] then []
    else
      var rest := FlatAnswers(FlatStep(flat, ops[0]), ops[1..]);
      if ops[0].Read? then [Seen(ops[0].addr, Get(flat, Named(ops[0].addr)))] + rest else rest
  }

  /** The two agree on every register, but for the bank bits. */
  ghost predicate Agree(flat: Registers, regs: Registers) {
    && (forall p: Place | p != ECON1_PLACE :: Get(flat, p) == Get(regs, p))
    && Upper(Get(flat, ECON1_PLACE)) == Upper(Get(regs, ECON1_PLACE))
  }

  lemma UpdateGets(regs: Registers, at: Place, value: bv8, p: Place)
    ensures Get(regs[at := value], p) == if p == at then value else Get(regs, p)
  {
  }

  lemma MaskedBits(x: bv8, y: bv8, mask: bv8)
    requires Upper(x) == Upper(y)
    ensures Upper(SetBits(x, mask)) == Upper(SetBits(y, mask))
    ensures Upper(ClearBits(x, mask)) == Upper(ClearBits(y, mask))
  {
  }

  lemma SharedPlace(bank: bv8, index: bv8)
    requires index & 0x1F >= FIRST_SHARED
    ensures PlaceOf(bank, index) == PlaceOf(0, index)
  {
  }

  lemma AgreesSelf(regs: Registers)
    ensures Agree(regs, regs)
  {
  }

  /** Storing the same value, up to the bank bits of ECON1, in the same place. */
  lemma UpdateAgrees(flat: Registers, regs: Registers, at: Place, x: bv8, y: bv8)
    requires Agree(flat, regs)
    requires if at == ECON1_PLACE then Upper(x) == Upper(y) else x == y
    ensures Agree(flat[at := x], regs[at := y])
  {
    hide Get;
    var f, g := flat[at := x], regs[at := y];
    forall p: Place | p != ECON1_PLACE ensures Get(f, p) == Get(g, p) {
      UpdateGets(flat, at, x, p);
      UpdateGets(regs, at, y, p);
    }
    UpdateGets(flat, at, x, ECON1_PLACE);
    UpdateGets(regs, at, y, ECON1_PLACE);
  }

  lemma SwitchAgrees(d: Driver, flat: Registers, bank: bv8)
    requires Coherent(d) && Agree(flat, d.regs) && bank != UNKNOWN
    ensures Agree(flat, Switch(d, bank).regs)
  {
    hide Get, Switch, Coherent, Selected;
    SwitchSelects(d, bank);
  }

  lemma GetsAgree(flat: Registers, regs: Registers, p: Place)
    requires Agree(flat, regs)
    ensures if p == ECON1_PLACE then Upper(Get(flat, p)) == Upper(Get(regs, p)) else Get(flat, p) == Get(regs, p)
  {
    hide Get;
  }

  lemma WriteAgrees(d: Driver, flat: Registers, addr: bv16, value: bv8)
    requires Coherent(d) && Agree(flat, d.regs)
    ensures Agree(FlatStep(flat, Write(addr, value)), Step(d, Write(addr, value)).regs)
  {
    hide Get, PlaceOf, Switch, BankOf, IndexOf, Coherent, Selected, Agree, Upper;
    BankIsSmall(addr);
    SwitchAgrees(d, flat, BankOf(addr));
    SwitchSelects(d, BankOf(addr));
    PlaceBits(BankOf(addr), IndexOf(addr));
    UpdateAgrees(flat, Switch(d, BankOf(addr)).regs, Named(addr), value, value);
  }

  lemma SetIsUpdate(regs: Registers, index: bv8, mask: bv8)
    ensures var at := PlaceOf(Selected(regs), index);
            ChipSet(regs, index, mask) == regs[at := SetBits(Get(regs, at), mask)]
    ensures var at := PlaceOf(Selected(regs), index);
            ChipClear(regs, index, mask) == regs[at := ClearBits(Get(regs, at), mask)]
  {
  }

  /** Setting or clearing bits of agreeing values gives agreeing values. */
  lemma MaskAgrees(flat: Registers, regs: Registers, at: Place, mask: bv8)
    requires Agree(flat, regs)
    ensures Agree(flat[at := SetBits(Get(flat, at), mask)], regs[at := SetBits(Get(regs, at), mask)])
    ensures Agree(flat[at := ClearBits(Get(flat, at), mask)], regs[at := ClearBits(Get(regs, at), mask)])
  {
    hide *;
    var x, y := Get(flat, at), Get(regs, at);
    GetsAgree(flat, regs, at);
    if at == ECON1_PLACE { MaskedBits(x, y, mask); }
    UpdateAgrees(flat, regs, at, SetBits(x, mask), SetBits(y, mask));
    UpdateAgrees(flat, regs, at, ClearBits(x, mask), ClearBits(y, mask));
  }

  lemma MasksAgree(regs: Registers, flat: Registers, index: bv8, mask: bv8)
    requires Agree(flat, regs) && index & 0x1F >= FIRST_SHARED
    ensures Agree(flat[PlaceOf(0, index) := SetBits(Get(flat, PlaceOf(0, index)), mask)], ChipSet(regs, index, mask))
    ensures Agree(flat[PlaceOf(0, index) := ClearBits(Get(flat, PlaceOf(0, index)), mask)],
                  ChipClear(regs, index, mask))
  {
    hide *;
    SharedPlace(Selected(regs), index);
    SetIsUpdate(regs, index, mask);
    MaskAgrees(flat, regs, PlaceOf(0, index), mask);
  }

  /** One coherent step does to the banked registers what it does to the flat ones. */
  lemma StepAgrees(d: Driver, flat: Registers, op: Op)
    requires Coherent(d) && Agree(flat, d.regs) && Shared(op)
    ensures Agree(FlatStep(flat, op), Step(d, op).regs)
  {
    hide Get, PlaceOf, Switch, BankOf, IndexOf, Coherent, Selected, Agree, ChipSet, ChipClear, ChipWrite, Named;
    match op
    case Read(addr) =>
      BankIsSmall(addr);
      SwitchAgrees(d, flat, BankOf(addr));
    case Write(addr, value) => WriteAgrees(d, flat, addr, value);
    case BitSet(index, mask) => MasksAgree(d.regs, flat, index, mask);
    case BitClear(index, mask) => MasksAgree(d.regs, flat, index, mask);
    case Hardware(now) => AgreesSelf(now);
  }

  lemma StepAgreesSelf(d: Driver, op: Op)
    requires Coherent(d) && Shared(op)
    ensures Agree(FlatStep(d.regs, op), Step(d, op).regs)
  {
    hide Coherent, FlatStep, Step, Agree;
    AgreesSelf(d.regs);
    StepAgrees(d, d.regs, op);
  }

  /** A read answers with the register its address names. */
  lemma ReadReaches(d: Driver, flat: Registers, addr: bv16)
    requires Coherent(d) && Agree(flat, d.regs)
    ensures Seen(addr, Answer(d, Read(addr))[0]) == Seen(addr, Get(flat, Named(addr)))
    ensures IndexOf(addr) & 0x1F != ECON1 ==> Answer(d, Read(addr)) == [Get(d.regs, Named(addr))]
  {
    hide Get, PlaceOf, Switch, BankOf, IndexOf, Coherent, Selected;
    BankIsSmall(addr);
    SwitchSelects(d, BankOf(addr));
    PlaceBits(BankOf(addr), IndexOf(addr));
  }

  /** Over any harmless run the cache is never wrong, and banked and flat registers are indistinguishable. */
  lemma {:induction false} BankedIsFlat(d: Driver, flat: Registers, ops: seq<Op>)
    requires Coherent(d) && Agree(flat, d.regs) && AllHarmless(d, ops)
    requires forall op | op in ops :: Shared(op)
    ensures Coherent(Run(d, ops))
    ensures Answers(d, ops) == FlatAnswers(flat, ops)
    decreases |ops|
  {
    if ops != [] {
      hide Coherent, Agree, Harmless, Shared, Step, FlatStep, Answer, Seen, Get, Named;
      StepCoherent(d, ops[0]);
      StepAgrees(d, flat, ops[0]);
      if ops[0].Read? { ReadReaches(d, flat, ops[0].addr); }
      BankedIsFlat(Step(d, ops[0]), FlatStep(flat, ops[0]), ops[1..]);
    }
  }

  /** From the driver's start, where the cache is unknown, whatever the chip holds. */
  lemma BankedIsFlatFromStart(regs: Registers, ops: seq<Op>)
    requires AllHarmless(Driver(regs, UNKNOWN), ops)
    requires forall op | op in ops :: Shared(op)
    ensures Coherent(Run(Driver(regs, UNKNOWN), ops))
    ensures Answers(Driver(regs, UNKNOWN), ops) == FlatAnswers(regs, ops)
  {
    hide AllHarmless, Run, Answers, FlatAnswers;
    BankedIsFlat(Driver(regs, UNKNOWN), regs, ops);
  }

  /**
   The operations the driver issues, told by their arguments alone: registers other than ECON1 are
   written by address, and bit commands on ECON1 spare the bank bits.
   */
  predicate Issued(op: Op) {
    match op
    case Read(_) => true
    case Write(addr, _) => IndexOf(addr) & 0x1F != ECON1
    case BitSet(index, mask) => index & 0x1F != ECON1 || Lower(mask) == 0
    case BitClear(index, mask) => index & 0x1F != ECON1 || Lower(mask) == 0
    case Hardware(_) => true
  }

  lemma SparedBits(x: bv8, mask: bv8)
    requires Lower(mask) == 0
    ensures Lower(SetBits(x, mask)) == Lower(x) && Lower(ClearBits(x, mask)) == Lower(x)
  {
  }

  /** The chip may change any register by itself, but not the bank bits. */
  predicate HardwareKeeps(d: Driver, op: Op) {
    op.Hardware? ==> Selected(op.now) == Selected(d.regs)
  }

  lemma IssuedIsHarmless(d: Driver, op: Op)
    requires Coherent(d) && Issued(op) && HardwareKeeps(d, op)
    ensures Harmless(d, op)
  {
    hide Get, SetBits, ClearBits, Lower, IndexOf, BankOf;
    match op
    case Read(_) =>
    case Write(_, _) =>
    case BitSet(index, mask) => if Lower(mask) == 0 { SparedBits(d.lastBank, mask); }
    case BitClear(index, mask) => if Lower(mask) == 0 { SparedBits(d.lastBank, mask); }
    case Hardware(_) =>
  }

  predicate AllKept(d: Driver, ops: seq<Op>)
    decreases |ops|
  {
    ops == [] || (HardwareKeeps(d, ops[0]) && AllKept(Step(d, ops[0]), ops[1..]))
  }

  /** Runs of the driver's operations are harmless throughout. */
  lemma {:induction false} DriverIsHarmless(d: Driver, ops: seq<Op>)
    requires Coherent(d) && AllKept(d, ops) && forall op | op in ops :: Issued(op)
    ensures AllHarmless(d, ops)
    decreases |ops|
  {
    hide Coherent, Harmless, HardwareKeeps, Issued, Step;
    if ops != [] {
      IssuedIsHarmless(d, ops[0]);
      StepCoherent(d, ops[0]);
      DriverIsHarmless(Step(d, ops[0]), ops[1..]);
    }
  }

  lemma {:induction false} NothingToKeep(d: Driver, ops: seq<Op>)
    requires forall op | op in ops :: !op.Hardware?
    ensures AllKept(d, ops)
    decreases |ops|
  {
    hide Step;
    if ops != [] {
      NothingToKeep(Step(d, ops[0]), ops[1..]);
    }
  }

  /**
   What the driver does, from its start and with the hardware in between, is what a register file
   without banks does.
   */
  lemma DriverSeesFlat(regs: Registers, ops: seq<Op>)
    requires AllKept(Driver(regs, UNKNOWN), ops)
    requires forall op | op in ops :: Issued(op) && Shared(op)
    ensures Coherent(Run(Driver(regs, UNKNOWN), ops))
    ensures Answers(Driver(regs, UNKNOWN), ops) == FlatAnswers(regs, ops)
  {
    hide AllHarmless, Run, Answers, FlatAnswers, AllKept, Issued, Shared;
    DriverIsHarmless(Driver(regs, UNKNOWN), ops);
    BankedIsFlatFromStart(regs, ops);
  }

  /**
   A bit command on a bank bit of ECON1, which the driver never issues but in the switch itself, and a
   read of the first register of bank 0.
   */
  const SET_BANK := BitSet(ECON1, 0x01)
  const READ_FIRST := Read(0x0000)

  /** With bank 0 selected and cached, setting the bit makes the next read of a bank 0 register reach bank 1. */
  lemma StaleBankReadsOther(regs: Registers)
    requires Selected(regs) == 0
    ensures Coherent(Driver(regs, 0)) && !Harmless(Driver(regs, 0), SET_BANK)
    ensures var d := Step(Driver(regs, 0), SET_BANK);
            !Coherent(d) && Answer(d, READ_FIRST) == [Get(regs, Place(1, 0))] && Named(0x0000) == Place(0, 0)
  {
    hide Get, ChipSet;
    var d := Step(Driver(regs, 0), SET_BANK);
    SetGets(regs, ECON1, 0x01, ECON1_PLACE);
    SetGets(regs, ECON1, 0x01, Place(1, 0));
    assert Lower(SetBits(Get(regs, ECON1_PLACE), 0x01)) == 1 by { LowerSet(Get(regs, ECON1_PLACE)); }
    assert BankOf(0x0000) == 0 && IndexOf(0x0000) == 0;
  }

  lemma LowerSet(x: bv8)
    requires Lower(x) == 0
    ensures Lower(SetBits(x, 0x01)) == 1
  {
  }

  /** A chip on which the two registers differ: the read gives 7 where the register named holds 0. */
  lemma StaleBankReadsWrong()
    ensures var regs: Registers := map[Place(1, 0) := 7];
            && Answer(Step(Driver(regs, 0), SET_BANK), READ_FIRST) == [7]
            && Get(regs, Named(0x0000)) == 0
  {
    var regs: Registers := map[Place(1, 0) := 7];
    assert Selected(regs) == 0;
    StaleBankReadsOther(regs);
    hide Step, Answer;
  }

  // ----- the driver's code -----

  class Chip {
    var regs: Registers

    method Wcr(index: bv8, value: bv8)
      modifies this
      ensures regs == ChipWrite(old(regs), index, value)
    {
      regs := ChipWrite(regs, index, value);
    }

    method Bfs(index: bv8, mask: bv8)
      modifies this
      ensures regs == ChipSet(old(regs), index, mask)
    {
      regs := ChipSet(regs, index, mask);
    }

    method Bfc(index: bv8, mask: bv8)
      modifies this
      ensures regs == ChipClear(old(regs), index, mask)
    {
      regs := ChipClear(regs, index, mask);
    }
  }

  class Emac {
    const chip: Chip
    var lastBank: bv8

    constructor (chip: Chip)
      ensures this.chip == chip && lastBank == UNKNOWN
      ensures State() == Driver(chip.regs, UNKNOWN) && Coherent(State())
    {
      this.chip, lastBank := chip, UNKNOWN;
    }

    ghost function State(): Driver
      reads this, chip
    {
      Driver(chip.regs, lastBank)
    }

    method SwitchRegisterBank(bank: bv8)
      modifies this, chip
      ensures State() == Switch(old(State()), bank)
    {
      if bank != lastBank {
        chip.Bfc(ECON1, BANK_BITS);
        chip.Bfs(ECON1, Lower(bank));
        lastBank := bank;
      }
    }

    /** Writes the register `addr` names, leaving every other one as it was but for the bank bits. */
    method RegisterWrite(addr: bv16, value: bv8)
      requires Coherent(State())
      modifies this, chip
      ensures State() == Step(old(State()), Write(addr, value))
      ensures Agree(old(chip.regs)[Named(addr) := value], chip.regs)
      ensures Coherent(State()) <==> Harmless(old(State()), Write(addr, value))
    {
      hide Coherent, Agree, Switch, Harmless;
      StepCoherent(State(), Write(addr, value));
      StepAgreesSelf(State(), Write(addr, value));
      SwitchRegisterBank(((addr & 0xF00) >> 8) as bv8);
      chip.Wcr((addr & 0xFF) as bv8, value);
    }

    /** Reads the register `addr` names. */
    method RegisterRead(addr: bv16) returns (value: bv8)
      requires Coherent(State())
      modifies this, chip
      ensures State() == Step(old(State()), Read(addr))
      ensures Seen(addr, value) == Seen(addr, Get(old(chip.regs), Named(addr)))
      ensures IndexOf(addr) & 0x1F != ECON1 ==> value == Get(old(chip.regs), Named(addr))
      ensures Coherent(State())
    {
      hide Coherent, Agree, Switch, Seen, Get;
      AgreesSelf(chip.regs);
      ReadReaches(State(), chip.regs, addr);
      StepCoherent(State(), Read(addr));
      SwitchRegisterBank(((addr & 0xF00) >> 8) as bv8);
      value := ChipRead(chip.regs, (addr & 0xFF) as bv8);
    }
  }
}
