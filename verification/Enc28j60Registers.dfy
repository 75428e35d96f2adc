/**
 The receive call through the banked registers. The chip of Enc28j60Receive has its pointer registers by
 name; here they are the registers the driver's addresses name, reached through whichever bank.
 */
module Enc28j60Registers {
  import opened Bytes
  import Ring = Enc28j60Ring
  import opened Enc28j60Bank
  import opened Enc28j60Receive

  const ECON2: bv8 := 0x1E
  const PKTDEC: bv8 := 0x40
  const EPKTCNT: bv16 := 0x0119
  const EPKTCNT_PLACE := Place(1, 0x19)

  function AddressOf(reg: Register): bv16 {
    match reg
    case ERDPTL => 0x0000
    case ERDPTH => 0x0001
    case ERXRDPTL => 0x000C
    case ERXRDPTH => 0x000D
  }

  function PlaceFor(reg: Register): Place {
    match reg
    case ERDPTL => Place(0, 0x00)
    case ERDPTH => Place(0, 0x01)
    case ERXRDPTL => Place(0, 0x0C)
    case ERXRDPTH => Place(0, 0x0D)
  }

  /** What a pointer register holds. */
  function Held(d: Driver, reg: Register): bv8 {
    Get(d.regs, PlaceFor(reg))
  }

  lemma AddressReaches(reg: Register)
    ensures Named(AddressOf(reg)) == PlaceFor(reg) && IndexOf(AddressOf(reg)) & 0x1F != ECON1
  {
  }

  lemma CountReaches()
    ensures Named(EPKTCNT) == EPKTCNT_PLACE && IndexOf(EPKTCNT) & 0x1F != ECON1
  {
  }

  lemma DecrementStays()
    ensures PlaceOf(0, ECON2) == Place(0, ECON2) && ECON2 & 0x1F != ECON1 && ECON2 & 0x1F >= FIRST_SHARED
  {
  }

  /** A register write by address changes the pointer register meant and no other, as the named write does. */
  lemma WriteHeld(d: Driver, reg: Register, value: byte, other: Register)
    requires Coherent(d)
    ensures var after := Step(d, Write(AddressOf(reg), value as bv8));
            && Coherent(after)
            && Held(after, other) == (if other == reg then value as bv8 else Held(d, other))
            && Get(after.regs, EPKTCNT_PLACE) == Get(d.regs, EPKTCNT_PLACE)
  {
    var v := value as bv8;
    var op := Write(AddressOf(reg), v);
    hide Coherent, Step, Get, Agree, AddressOf, Named;
    AddressReaches(reg);
    WriteIsHarmless(d, AddressOf(reg), v);
    StepCoherent(d, op);
    StepAgreesSelf(d, op);
    UpdateGets(d.regs, PlaceFor(reg), v, PlaceFor(other));
    UpdateGets(d.regs, PlaceFor(reg), v, EPKTCNT_PLACE);
    AgreeAt(d.regs[PlaceFor(reg) := v], Step(d, op).regs, PlaceFor(other));
    AgreeAt(d.regs[PlaceFor(reg) := v], Step(d, op).regs, EPKTCNT_PLACE);
  }

  lemma WriteIsHarmless(d: Driver, addr: bv16, value: bv8)
    requires IndexOf(addr) & 0x1F != ECON1
    ensures Harmless(d, Write(addr, value)) && Shared(Write(addr, value))
    ensures FlatStep(d.regs, Write(addr, value)) == d.regs[Named(addr) := value]
  {
  }

  /** The two writes that set a sixteen-bit pointer. */
  function SetPointer(d: Driver, low: Register, high: Register, value: nat): Driver
    requires value < 0x1_0000
  {
    Step(Step(d, Write(AddressOf(low), Ring.Low(value) as bv8)), Write(AddressOf(high), Ring.High(value) as bv8))
  }

  /** A pointer register pair holds a value. */
  predicate Points(d: Driver, low: Register, high: Register, value: nat)
    requires value < 0x1_0000
  {
    Held(d, low) == Ring.Low(value) as bv8 && Held(d, high) == Ring.High(value) as bv8
  }

  lemma SetPointerPoints(d: Driver, low: Register, high: Register, value: nat, other: Register)
    requires Coherent(d) && value < 0x1_0000 && low != high
    ensures var after := SetPointer(d, low, high, value);
            && Coherent(after) && Points(after, low, high, value)
            && (other != low && other != high ==> Held(after, other) == Held(d, other))
            && Get(after.regs, EPKTCNT_PLACE) == Get(d.regs, EPKTCNT_PLACE)
  {
    var l, h: byte := Ring.Low(value), Ring.High(value);
    hide Coherent, Step, Held, AddressOf, Get;
    var mid := Step(d, Write(AddressOf(low), l as bv8));
    WriteHeld(d, low, l, low);
    WriteHeld(d, low, l, other);
    WriteHeld(mid, high, h, low);
    WriteHeld(mid, high, h, high);
    WriteHeld(mid, high, h, other);
  }

  /** The driver after each stage of a receive call on the ring `r`. */
  function HeaderPointed(d: Driver, r: Ring.Ring): Driver
    requires Ring.Fetchable(r)
  {
    SetPointer(d, ERDPTL, ERDPTH, r.next)
  }

  function PayloadPointed(d: Driver, r: Ring.Ring): Driver
    requires Ring.Fetchable(r)
  {
    Ring.PacketStartWraps(r.next);
    SetPointer(HeaderPointed(d, r), ERDPTL, ERDPTH, Ring.RxPacketStart(r.next, Ring.RSV_SIZE))
  }

  function SpaceFreed(d: Driver, r: Ring.Ring): Driver
    requires Ring.Fetchable(r)
  {
    SetPointer(PayloadPointed(d, r), ERXRDPTL, ERXRDPTH, Ring.Freed(r).erxrdpt)
  }

  /**
   The register accesses of a receive call, from any coherent state of the bank cache: the header and the
   payload are read from where the ring has them, ERXRDPT receives the freed space, and the packet count
   is read from its own register in bank 1.
   */
  lemma ReceiveReaches(d: Driver, r: Ring.Ring)
    requires Coherent(d) && Ring.Fetchable(r)
    ensures Points(HeaderPointed(d, r), ERDPTL, ERDPTH, r.next)
    ensures var start := Ring.RxPacketStart(r.next, Ring.RSV_SIZE);
            start < Ring.SIZE && Points(PayloadPointed(d, r), ERDPTL, ERDPTH, start)
            && Points(SpaceFreed(d, r), ERDPTL, ERDPTH, start)
    ensures Points(SpaceFreed(d, r), ERXRDPTL, ERXRDPTH, Ring.Freed(r).erxrdpt)
    ensures var decremented := Step(SpaceFreed(d, r), BitSet(ECON2, PKTDEC));
            && Coherent(Step(decremented, Read(EPKTCNT)))
            && Answer(decremented, Read(EPKTCNT)) == [Get(d.regs, EPKTCNT_PLACE)]
  {
    var start, free := Ring.RxPacketStart(r.next, Ring.RSV_SIZE), Ring.Freed(r).erxrdpt;
    Ring.PacketStartWraps(r.next);
    hide Coherent, Step, Get, SetPointer, Answer, Ring.Freed, Ring.RxPacketStart;
    SetPointerPoints(d, ERDPTL, ERDPTH, r.next, ERXRDPTL);
    SetPointerPoints(HeaderPointed(d, r), ERDPTL, ERDPTH, start, ERXRDPTL);
    SetPointerPoints(PayloadPointed(d, r), ERXRDPTL, ERXRDPTH, free, ERDPTL);
    SetPointerPoints(PayloadPointed(d, r), ERXRDPTL, ERXRDPTH, free, ERDPTH);
    CountIsRead(SpaceFreed(d, r));
  }

  lemma CountIsRead(d: Driver)
    requires Coherent(d)
    ensures var decremented := Step(d, BitSet(ECON2, PKTDEC));
            && Coherent(Step(decremented, Read(EPKTCNT)))
            && Answer(decremented, Read(EPKTCNT)) == [Get(d.regs, EPKTCNT_PLACE)]
  {
    var op, after := BitSet(ECON2, PKTDEC), Step(d, BitSet(ECON2, PKTDEC));
    CountReaches();
    DecrementStays();
    assert Harmless(d, op) && Shared(op) && Harmless(after, Read(EPKTCNT));
    assert FlatStep(d.regs, op) == d.regs[Place(0, ECON2) := SetBits(Get(d.regs, Place(0, ECON2)), PKTDEC)];
    hide Coherent, Step, Get, Agree, Answer, Named, SetBits, Harmless, FlatStep;
    StepCoherent(d, op);
    StepAgreesSelf(d, op);
    UpdateGets(d.regs, Place(0, ECON2), SetBits(Get(d.regs, Place(0, ECON2)), PKTDEC), EPKTCNT_PLACE);
    AgreeAt(FlatStep(d.regs, op), after.regs, EPKTCNT_PLACE);
    AgreesSelf(after.regs);
    ReadReaches(after, after.regs, EPKTCNT);
    StepCoherent(after, Read(EPKTCNT));
  }
}
