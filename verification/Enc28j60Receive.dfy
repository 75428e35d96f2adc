/** The receive call of the ENC28J60 driver, register by register, and the ring operation it amounts to. */
module Enc28j60Receive {
  import opened Bytes
  import opened Enc28j60Ring

  datatype Register = ERDPTL | ERDPTH | ERXRDPTL | ERXRDPTH

  /** The part of the chip the call touches; the low half of ERXRDPT waits for the high half. */
  class Chip {
    var mem: Memory
    var wr: nat
    var erdptLow: byte
    var erdptHigh: byte
    var erxrdptLow: byte
    var erxrdpt: nat
    var count: nat

    constructor ()
      ensures mem == EMPTY.mem && wr == EMPTY.wr && erxrdpt == EMPTY.erxrdpt && count == EMPTY.count
    {
      mem, wr, erxrdpt, count := EMPTY.mem, EMPTY.wr, EMPTY.erxrdpt, EMPTY.count;
      erdptLow, erdptHigh, erxrdptLow := 0, 0, 0;
    }

    method RegisterWrite(reg: Register, value: byte)
      modifies this`erdptLow, this`erdptHigh, this`erxrdptLow, this`erxrdpt
      ensures erdptLow == if reg.ERDPTL? then value else old(erdptLow)
      ensures erdptHigh == if reg.ERDPTH? then value else old(erdptHigh)
      ensures erxrdptLow == if reg.ERXRDPTL? then value else old(erxrdptLow)
      ensures erxrdpt == if reg.ERXRDPTH? then Both(old(erxrdptLow), value) else old(erxrdpt)
    {
      match reg
      case ERDPTL => erdptLow := value;
      case ERDPTH => erdptHigh := value;
      case ERXRDPTL => erxrdptLow := value;
      case ERXRDPTH => erxrdpt := Both(erxrdptLow, value);
    }

    /** Sequential read: the pointer steps on and goes round at the end of the receive buffer. */
    method MemoryRead(buf: array<byte>, len: nat)
      requires Both(erdptLow, erdptHigh) < SIZE && len <= buf.Length
      modifies this`erdptLow, this`erdptHigh, buf
      ensures buf[..len] == Read(mem, old(Both(erdptLow, erdptHigh)), len) && buf[len..] == old(buf[len..])
    {
      var erdpt := Both(erdptLow, erdptHigh);
      ghost var at := erdpt;
      var i := 0;
      while i < len
        invariant 0 <= i <= len
        invariant erdpt == Wrap(at + i % SIZE)
        invariant forall j | 0 <= j < i :: buf[j] == At(mem, at, j % SIZE)
        invariant buf[len..] == old(buf[len..])
        modifies buf
      {
        buf[i] := mem[erdpt];
        erdpt := if erdpt == RX_END then RX_START else erdpt + 1;
        RoundStep(at, i);
        i := i + 1;
      }
      erdptLow, erdptHigh := Low(erdpt), High(erdpt);
    }
  }

  /** One byte further, round the ring. */
  lemma RoundStep(at: nat, i: nat)
    requires at < SIZE
    ensures var here := Wrap(at + i % SIZE);
            Wrap(at + (i + 1) % SIZE) == if here == RX_END then RX_START else here + 1
  {
  }

  class Emac {
    const chip: Chip
    var nextPacketPtr: nat
    var packetsRemain: bool

    constructor (chip: Chip)
      ensures this.chip == chip && nextPacketPtr == RX_START && !packetsRemain
    {
      this.chip, nextPacketPtr, packetsRemain := chip, RX_START, false;
    }

    ghost function State(): Ring
      reads this, chip
    {
      Ring(chip.mem, chip.wr, chip.erxrdpt, chip.count, nextPacketPtr)
    }

    method ReadPacket(addr: nat, packet: array<byte>, len: nat)
      requires addr < SIZE && len <= packet.Length
      modifies chip`erdptLow, chip`erdptHigh, chip`erxrdptLow, chip`erxrdpt, packet
      ensures packet[..len] == Read(chip.mem, addr, len) && packet[len..] == old(packet[len..])
      ensures chip.erxrdpt == old(chip.erxrdpt)
    {
      hide Both, Low, High, Read, Wrap;
      BothHalves(addr);
      chip.RegisterWrite(ERDPTL, Low(addr));
      chip.RegisterWrite(ERDPTH, High(addr));
      chip.MemoryRead(packet, len);
    }

    /** Gives the chip the buffer space up to `erxrdpt`. */
    method FreeUpTo(erxrdpt: nat)
      requires erxrdpt <= RX_END
      modifies chip`erdptLow, chip`erdptHigh, chip`erxrdptLow, chip`erxrdpt
      ensures chip.erxrdpt == erxrdpt
    {
      BothHalves(erxrdpt);
      chip.RegisterWrite(ERXRDPTL, Low(erxrdpt));
      chip.RegisterWrite(ERXRDPTH, High(erxrdpt));
    }

    /** Takes the next packet: the caller sees what Fetch says, and the ring becomes what Freed says. */
    method Receive(buf: array<byte>) returns (length: nat)
      requires Fetchable(State())
      requires |Fetch(State()).buf| <= buf.Length
      modifies this`nextPacketPtr, this`packetsRemain, chip, buf
      ensures State() == Freed(old(State()))
      ensures var out := Fetch(old(State()));
              buf[..|out.buf|] == out.buf && buf[|out.buf|..] == old(buf[|out.buf|..]) &&
              length == out.length && packetsRemain == out.remain
    {
      hide Read, Wrap, RxPacketStart, Both, NextPtrAlignOdd;
      ghost var was := State();
      var header := new byte[RSV_SIZE];
      ReadPacket(nextPacketPtr, header, RSV_SIZE);
      assert header[..RSV_SIZE] == HeaderAt(was);
      var rxLen := Both(header[2], header[3]);
      var nextPacketAddr := Both(header[0], header[1]);
      PacketStartWraps(nextPacketPtr);
      ReadPacket(RxPacketStart(nextPacketPtr, RSV_SIZE), buf, rxLen);
      var erxrdpt := NextPtrAlignOdd(nextPacketAddr, RX_START, RX_END);
      FreeUpTo(erxrdpt);
      nextPacketPtr := nextPacketAddr;
      chip.count := chip.count - 1;
      length := (rxLen + 0x1_0000_0000 - CRC_SIZE) % 0x1_0000_0000;
      packetsRemain := chip.count > 0;
    }
  }
}
