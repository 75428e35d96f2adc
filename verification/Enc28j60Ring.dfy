/**
 The receive buffer of the ENC28J60: a ring of 0x1800 bytes that the chip fills with linked packets
 and the driver empties, giving the room back by writing ERXRDPT. The chip's side, storing a packet,
 follows its data sheet: a packet starts at an even address, its six-byte header points to the next
 one, and the byte at ERXRDPT is never written.
 */
module Enc28j60Ring {
  import opened Bytes

  const RX_START := 0
  const RX_END := 0x17FF
  const SIZE := 0x1800
  const RSV_SIZE := 6
  const CRC_SIZE := 4
  const MAX_COUNT := 255

  type Memory = m: seq<byte> | |m| == SIZE witness seq(SIZE, _ => 0)

  /** The bytes of a frame with its CRC, and the two status bytes of the chip. */
  datatype Packet = Packet(bytes: seq<byte>, statusLow: byte, statusHigh: byte)

  /** The ring as chip and driver see it; `next` is the driver's next_packet_ptr. */
  datatype Ring = Ring(mem: Memory, wr: nat, erxrdpt: nat, count: nat, next: nat)

  const EMPTY := Ring(seq(SIZE, _ => 0), RX_START, RX_END, 0, RX_START)

  function Wrap(x: nat): (a: nat)
    requires x < 2 * SIZE
    ensures a < SIZE
  {
    if x >= SIZE then x - SIZE else x
  }

  /** How far `b` lies behind `a` round the ring. */
  function Distance(a: nat, b: nat): (d: nat)
    requires a < SIZE && b < SIZE
    ensures d < SIZE && Wrap(a + d) == b
  {
    if b >= a then b - a else b + SIZE - a
  }

  /** The byte `i` places behind `at`. */
  function At(mem: Memory, at: nat, i: nat): byte
    requires at < SIZE && i < SIZE
  {
    mem[Wrap(at + i)]
  }

  /** `n` bytes from `at` on, round the ring as often as need be. */
  function Read(mem: Memory, at: nat, n: nat): (s: seq<byte>)
    requires at < SIZE
    ensures |s| == n
  {
    seq(n, i requires 0 <= i < n => At(mem, at, i % SIZE))
  }

  function Write(mem: Memory, at: nat, bytes: seq<byte>): Memory
    requires at < SIZE && |bytes| <= SIZE
  {
    seq(SIZE, k requires 0 <= k < SIZE => if Distance(at, k) < |bytes| then bytes[Distance(at, k)] else mem[k])
  }

  /** The room a packet takes, kept even. */
  function Extent(p: Packet): nat {
    RSV_SIZE + |p.bytes| + |p.bytes| % 2
  }

  function Extents(ps: seq<Packet>): nat {
    if ps == [] then 0 else Extent(ps[0]) + Extents(ps[1..])
  }

  function Low(x: nat): byte { x % 0x100 }

  function High(x: nat): byte
    requires x < 0x1_0000
  {
    x / 0x100
  }

  function Both(low: byte, high: byte): nat {
    low as nat + 0x100 * high as nat
  }

  lemma BothHalves(x: nat)
    requires x < 0x1_0000
    ensures Both(Low(x), High(x)) == x
  {
  }

  /** The six bytes in front of a packet stored at `at`. */
  function Header(p: Packet, at: nat): (h: seq<byte>)
    requires at < SIZE && Extent(p) < SIZE
    ensures |h| == RSV_SIZE
  {
    var next := Wrap(at + Extent(p));
    [Low(next), High(next), Low(|p.bytes|), High(|p.bytes|), p.statusLow, p.statusHigh]
  }

  /** The chip has room for a packet: the bytes from `wr` up to ERXRDPT, which stays untouched. */
  predicate HasRoom(r: Ring, p: Packet)
    requires r.wr < SIZE && r.erxrdpt < SIZE
  {
    CRC_SIZE <= |p.bytes| && Extent(p) <= Distance(r.wr, r.erxrdpt) && r.count < MAX_COUNT
  }

  /** The chip takes a packet off the wire. */
  function Arrive(r: Ring, p: Packet): Ring
    requires r.wr < SIZE && r.erxrdpt < SIZE && HasRoom(r, p)
  {
    r.(mem := Write(r.mem, r.wr, Header(p, r.wr) + p.bytes), wr := Wrap(r.wr + Extent(p)), count := r.count + 1)
  }

  /** ERXRDPT for the next packet: the byte before it, in 32-bit arithmetic. */
  function NextPtrAlignOdd(next: nat, start: nat, end: nat): (e: nat)
    ensures e <= end
  {
    var before := (next + 0xFFFF_FFFF) % 0x1_0000_0000;
    if before < start || before > end then end else before
  }

  /** For the even addresses packets start at, ERXRDPT is the byte before, round the ring, and odd. */
  lemma AlignedIsPredecessor(next: nat)
    requires next < SIZE && next % 2 == 0
    ensures var e := NextPtrAlignOdd(next, RX_START, RX_END);
            e < SIZE && e % 2 == 1 && Wrap(e + 1) == next
  {
  }

  /** For every pointer a header can hold: one less where that lies in the buffer, the last byte otherwise. */
  lemma AlignedExact(next: nat)
    requires next < 0x1_0000
    ensures NextPtrAlignOdd(next, RX_START, RX_END) == if 1 <= next <= SIZE then next - 1 else RX_END
  {
  }

  /** The address `off` bytes behind `start`, in 32-bit arithmetic. */
  function RxPacketStart(start: nat, off: nat): nat {
    var sum := (start + off) % 0x1_0000_0000;
    if sum > RX_END then sum - (RX_END - RX_START + 1) else sum
  }

  lemma PacketStartWraps(start: nat)
    requires start < SIZE
    ensures RxPacketStart(start, RSV_SIZE) == (start + RSV_SIZE) % SIZE == Wrap(start + RSV_SIZE)
  {
  }

  function HeaderAt(r: Ring): (h: seq<byte>)
    requires r.next < SIZE
    ensures |h| == RSV_SIZE
  {
    Read(r.mem, r.next, RSV_SIZE)
  }

  /** There is a packet to be fetched, whatever its header says. */
  predicate Fetchable(r: Ring) {
    r.next < SIZE && r.count > 0
  }

  /** What the driver's buffer receives, the length it reports, and whether it sees packets left. */
  datatype Fetched = Fetched(buf: seq<byte>, length: nat, remain: bool)

  function Fetch(r: Ring): Fetched
    requires Fetchable(r)
  {
    var len := Both(HeaderAt(r)[2], HeaderAt(r)[3]);
    Fetched(Read(r.mem, RxPacketStart(r.next, RSV_SIZE), len), (len + 0x1_0000_0000 - CRC_SIZE) % 0x1_0000_0000,
            r.count - 1 > 0)
  }

  /** The length reported leaves the CRC out; a header that says less than the CRC's four bytes makes it wrap around. */
  lemma LengthWraps(r: Ring)
    requires Fetchable(r)
    ensures var f := Fetch(r);
            f.length == if |f.buf| >= CRC_SIZE then |f.buf| - CRC_SIZE else 0xFFFF_FFFC + |f.buf|
  {
  }

  /** The ring after the driver has taken the next packet. */
  function Freed(r: Ring): Ring
    requires Fetchable(r)
  {
    var next := Both(HeaderAt(r)[0], HeaderAt(r)[1]);
    r.(next := next, erxrdpt := NextPtrAlignOdd(next, RX_START, RX_END), count := r.count - 1)
  }

  /**
   A receive call by the bytes it reads: the length from the third and fourth byte behind the pointer, the
   data from the seventh on, the next pointer from the first two, round a buffer of 0x1800 bytes.
   */
  lemma FetchExact(r: Ring)
    requires Fetchable(r)
    ensures var length := r.mem[(r.next + 2) % 0x1800] as int + 0x100 * r.mem[(r.next + 3) % 0x1800] as int;
            && |Fetch(r).buf| == length
            && forall i | 0 <= i < length :: Fetch(r).buf[i] == r.mem[(r.next + 6 + i) % 0x1800]
    ensures Fetch(r).remain <==> r.count > 1
    ensures Freed(r).next == r.mem[r.next] as int + 0x100 * r.mem[(r.next + 1) % 0x1800] as int
    ensures Freed(r).count == r.count - 1 && Freed(r).mem == r.mem && Freed(r).wr == r.wr
  {
    HeaderBytes(r);
    PacketStartWraps(r.next);
    hide HeaderAt, RxPacketStart, NextPtrAlignOdd, Wrap;
    forall i | 0 <= i < |Fetch(r).buf| ensures Fetch(r).buf[i] == r.mem[(r.next + 6 + i) % 0x1800] {
      RoundFrom(r.next, i);
    }
  }

  lemma HeaderBytes(r: Ring)
    requires Fetchable(r)
    ensures HeaderAt(r)[0] == r.mem[r.next] && HeaderAt(r)[1] == r.mem[(r.next + 1) % 0x1800]
    ensures HeaderAt(r)[2] == r.mem[(r.next + 2) % 0x1800] && HeaderAt(r)[3] == r.mem[(r.next + 3) % 0x1800]
  {
  }

  lemma RoundFrom(next: nat, i: nat)
    requires next < SIZE
    ensures Wrap((next + RSV_SIZE) % SIZE + i % SIZE) == (next + 6 + i) % 0x1800
  {
  }

  /** From `at` on the memory holds the packets `ps`, linked one to the next, up to `end`. */
  ghost predicate Chain(mem: Memory, at: nat, ps: seq<Packet>, end: nat)
    decreases |ps|
  {
    at < SIZE && at % 2 == 0 &&
    if ps == [] then at == end
    else
      && CRC_SIZE <= |ps[0].bytes| && Extent(ps[0]) < SIZE
      && Read(mem, at, RSV_SIZE) == Header(ps[0], at)
      && Read(mem, Wrap(at + RSV_SIZE), |ps[0].bytes|) == ps[0].bytes
      && Chain(mem, Wrap(at + Extent(ps[0])), ps[1..], end)
  }

  /** The unread packets are `ps`, whole and in order, and ERXRDPT is the odd byte just before them. */
  ghost predicate Holds(r: Ring, ps: seq<Packet>) {
    && Chain(r.mem, r.next, ps, r.wr)
    && r.next < SIZE && r.next % 2 == 0 && r.wr < SIZE && r.wr % 2 == 0
    && Extents(ps) < SIZE && Wrap(r.next + Extents(ps)) == r.wr
    && r.erxrdpt < SIZE && r.erxrdpt % 2 == 1 && Wrap(r.erxrdpt + 1) == r.next
    && r.count == |ps| <= MAX_COUNT
  }

  lemma EmptyHolds()
    ensures Holds(EMPTY, [])
  {
  }

  lemma {:induction false} ExtentsEven(ps: seq<Packet>)
    ensures Extents(ps) % 2 == 0
  {
    if ps != [] {
      ExtentsEven(ps[1..]);
    }
  }

  lemma {:induction false} ExtentsAppend(ps: seq<Packet>, p: Packet)
    ensures Extents(ps + [p]) == Extents(ps) + Extent(p)
    decreases |ps|
  {
    hide Extent;
    if ps != [] {
      assert (ps + [p])[1..] == ps[1..] + [p];
      ExtentsAppend(ps[1..], p);
    } else {
      assert ps + [p] == [p] && [p][1..] == [];
    }
  }

  // ----- arithmetic of the ring -----

  lemma DistanceAdd(at: nat, e: nat, k: nat)
    requires at < SIZE && e < SIZE && k < SIZE && e + Distance(Wrap(at + e), k) < SIZE
    ensures Distance(at, k) == e + Distance(Wrap(at + e), k)
  {
  }

  lemma WrapAdd(at: nat, e: nat, f: nat)
    requires at < SIZE && e + f < SIZE
    ensures Wrap(Wrap(at + e) + f) == Wrap(at + (e + f))
  {
  }

  lemma DistanceOfWrap(at: nat, i: nat)
    requires at < SIZE && i < SIZE
    ensures Distance(at, Wrap(at + i)) == i
  {
  }

  /** Room is what the unread packets leave, less one byte. */
  lemma RoomIsRest(next: nat, extents: nat, wr: nat, erxrdpt: nat)
    requires next < SIZE && extents < SIZE && wr == Wrap(next + extents)
    requires erxrdpt < SIZE && Wrap(erxrdpt + 1) == next
    ensures Distance(wr, erxrdpt) == SIZE - 1 - extents
  {
  }

  /** Bytes that are unread lie behind those about to be written. */
  lemma UnreadIsFar(next: nat, extents: nat, k: nat)
    requires next < SIZE && extents < SIZE && k < SIZE && Distance(next, k) < extents
    ensures Distance(Wrap(next + extents), k) >= SIZE - extents
  {
  }

  // ----- reading and writing -----

  lemma ReadAgrees(mem: Memory, now: Memory, at: nat, n: nat)
    requires at < SIZE && n <= SIZE
    requires forall k | 0 <= k < SIZE && Distance(at, k) < n :: now[k] == mem[k]
    ensures Read(now, at, n) == Read(mem, at, n)
  {
    hide Distance, Wrap;
    forall i | 0 <= i < n ensures At(now, at, i) == At(mem, at, i) {
      DistanceOfWrap(at, i);
    }
  }

  lemma WriteReads(mem: Memory, at: nat, bytes: seq<byte>)
    requires at < SIZE && |bytes| <= SIZE
    ensures Read(Write(mem, at, bytes), at, |bytes|) == bytes
  {
    hide Distance, Wrap;
    forall i | 0 <= i < |bytes| ensures At(Write(mem, at, bytes), at, i) == bytes[i] {
      DistanceOfWrap(at, i);
    }
  }

  lemma WriteKeeps(mem: Memory, at: nat, bytes: seq<byte>, k: nat)
    requires at < SIZE && |bytes| <= SIZE && k < SIZE && |bytes| <= Distance(at, k)
    ensures Write(mem, at, bytes)[k] == mem[k]
  {
  }

  /** A read of two stretches is the two reads, the second starting where the first ends. */
  lemma ReadSplits(mem: Memory, at: nat, n: nat, m: nat)
    requires at < SIZE && n + m < SIZE
    ensures Read(mem, at, n + m) == Read(mem, at, n) + Read(mem, Wrap(at + n), m)
  {
    hide Wrap;
    var left, right := Read(mem, at, n + m), Read(mem, at, n) + Read(mem, Wrap(at + n), m);
    forall k | 0 <= k < n + m ensures left[k] == right[k] {
      if k >= n { WrapAdd(at, n, k - n); }
    }
  }

  /** A packet just written reads back as header and bytes. */
  lemma WrittenPacket(mem: Memory, at: nat, p: Packet)
    requires at < SIZE && Extent(p) < SIZE
    ensures var now := Write(mem, at, Header(p, at) + p.bytes);
            Read(now, at, RSV_SIZE) == Header(p, at) && Read(now, Wrap(at + RSV_SIZE), |p.bytes|) == p.bytes
  {
    hide Read, Write, Wrap, Header;
    var now := Write(mem, at, Header(p, at) + p.bytes);
    WriteReads(mem, at, Header(p, at) + p.bytes);
    ReadSplits(now, at, RSV_SIZE, |p.bytes|);
    var all := Header(p, at) + p.bytes;
    assert all == Read(now, at, RSV_SIZE) + Read(now, Wrap(at + RSV_SIZE), |p.bytes|);
    assert all[..RSV_SIZE] == Header(p, at) && all[RSV_SIZE..] == p.bytes;
  }

  // ----- chains -----

  /** A chain survives any change outside the bytes it covers. */
  lemma {:induction false} ChainKept(mem: Memory, now: Memory, at: nat, ps: seq<Packet>, end: nat)
    requires Chain(mem, at, ps, end) && Extents(ps) < SIZE
    requires forall k | 0 <= k < SIZE && Distance(at, k) < Extents(ps) :: now[k] == mem[k]
    ensures Chain(now, at, ps, end)
    decreases |ps|
  {
    hide Read, Header, Wrap, Distance;
    if ps != [] {
      var e, n := Extent(ps[0]), |ps[0].bytes|;
      var next := Wrap(at + e);
      ReadAgrees(mem, now, at, RSV_SIZE);
      forall k | 0 <= k < SIZE && Distance(Wrap(at + RSV_SIZE), k) < n ensures now[k] == mem[k] {
        DistanceAdd(at, RSV_SIZE, k);
      }
      ReadAgrees(mem, now, Wrap(at + RSV_SIZE), n);
      forall k | 0 <= k < SIZE && Distance(next, k) < Extents(ps[1..]) ensures now[k] == mem[k] {
        DistanceAdd(at, e, k);
      }
      ChainKept(mem, now, next, ps[1..], end);
    }
  }

  lemma {:induction false} ChainAppend(mem: Memory, at: nat, ps: seq<Packet>, end: nat, p: Packet)
    requires Chain(mem, at, ps, end) && end < SIZE
    requires CRC_SIZE <= |p.bytes| && Extent(p) < SIZE
    requires Read(mem, end, RSV_SIZE) == Header(p, end) && Read(mem, Wrap(end + RSV_SIZE), |p.bytes|) == p.bytes
    requires Wrap(end + Extent(p)) % 2 == 0
    ensures Chain(mem, at, ps + [p], Wrap(end + Extent(p)))
    decreases |ps|
  {
    hide Read, Header, Wrap, Extent;
    var all := ps + [p];
    if ps != [] {
      assert all[1..] == ps[1..] + [p] && all[0] == ps[0];
      ChainAppend(mem, Wrap(at + Extent(ps[0])), ps[1..], end, p);
    } else {
      assert all[0] == p && all[1..] == [];
    }
  }

  lemma EvenWrap(at: nat, p: Packet)
    requires at < SIZE && at % 2 == 0 && Extent(p) < SIZE
    ensures Wrap(at + Extent(p)) % 2 == 0
  {
  }

  lemma ExtentCovers(p: Packet)
    ensures RSV_SIZE + |p.bytes| <= Extent(p)
  {
  }

  lemma WriteKeepsUnread(mem: Memory, next: nat, extents: nat, bytes: seq<byte>)
    requires next < SIZE && extents + |bytes| < SIZE
    ensures forall k | 0 <= k < SIZE && Distance(next, k) < extents ::
              Write(mem, Wrap(next + extents), bytes)[k] == mem[k]
  {
    hide Wrap, Distance, Write;
    forall k | 0 <= k < SIZE && Distance(next, k) < extents
      ensures Write(mem, Wrap(next + extents), bytes)[k] == mem[k]
    {
      UnreadIsFar(next, extents, k);
      WriteKeeps(mem, Wrap(next + extents), bytes, k);
    }
  }

  /** Storing a packet leaves the unread ones alone and puts the new one behind them. */
  lemma ArriveChain(r: Ring, ps: seq<Packet>, p: Packet)
    requires Extents(ps) + Extent(p) < SIZE && CRC_SIZE <= |p.bytes|
    requires r.next < SIZE && r.wr == Wrap(r.next + Extents(ps)) && r.wr % 2 == 0
    requires Chain(r.mem, r.next, ps, r.wr)
    ensures Chain(Write(r.mem, r.wr, Header(p, r.wr) + p.bytes), r.next, ps + [p], Wrap(r.wr + Extent(p)))
  {
    hide *;
    var bytes := Header(p, r.wr) + p.bytes;
    ExtentCovers(p);
    WriteKeepsUnread(r.mem, r.next, Extents(ps), bytes);
    ChainKept(r.mem, Write(r.mem, r.wr, bytes), r.next, ps, r.wr);
    EvenWrap(r.wr, p);
    WrittenPacket(r.mem, r.wr, p);
    ChainAppend(Write(r.mem, r.wr, bytes), r.next, ps, r.wr, p);
  }

  lemma ArriveHolds(r: Ring, ps: seq<Packet>, p: Packet)
    requires Holds(r, ps) && HasRoom(r, p)
    ensures Holds(Arrive(r, p), ps + [p])
  {
    hide Read, Header, Extents, Extent, Chain, Wrap, Distance, Write;
    RoomIsRest(r.next, Extents(ps), r.wr, r.erxrdpt);
    ExtentsAppend(ps, p);
    EvenWrap(r.wr, p);
    WrapAdd(r.next, Extents(ps), Extent(p));
    ArriveChain(r, ps, p);
  }

  /** What the header and the payload of the first unread packet read as. */
  lemma FirstPacket(r: Ring, ps: seq<Packet>)
    requires Holds(r, ps) && ps != []
    ensures Extent(ps[0]) < SIZE && CRC_SIZE <= |ps[0].bytes| < SIZE
    ensures Both(HeaderAt(r)[0], HeaderAt(r)[1]) == Wrap(r.next + Extent(ps[0]))
    ensures Both(HeaderAt(r)[2], HeaderAt(r)[3]) == |ps[0].bytes|
    ensures Read(r.mem, Wrap(r.next + RSV_SIZE), |ps[0].bytes|) == ps[0].bytes
    ensures Chain(r.mem, Wrap(r.next + Extent(ps[0])), ps[1..], r.wr)
  {
    hide Read, Wrap, Low, High, Both;
    BothHalves(Wrap(r.next + Extent(ps[0])));
    BothHalves(|ps[0].bytes|);
  }

  /** Receiving hands out the oldest packet without its CRC and frees exactly its room. */
  lemma ReceiveHolds(r: Ring, ps: seq<Packet>)
    requires Holds(r, ps) && ps != []
    ensures Fetchable(r)
    ensures Fetch(r) == Fetched(ps[0].bytes, |ps[0].bytes| - CRC_SIZE, |ps| > 1)
    ensures Holds(Freed(r), ps[1..])
  {
    hide Read, Both, HeaderAt, Chain, Wrap, NextPtrAlignOdd, RxPacketStart, Extent;
    assert Extents(ps) == Extent(ps[0]) + Extents(ps[1..]);
    hide Extents;
    FirstPacket(r, ps);
    EvenWrap(r.next, ps[0]);
    PacketStartWraps(r.next);
    AlignedIsPredecessor(Wrap(r.next + Extent(ps[0])));
    WrapAdd(r.next, Extent(ps[0]), Extents(ps[1..]));
  }

  // ----- runs -----

  datatype Event = Arrival(packet: Packet) | Reception

  /** A run of chip and driver; a packet without room is dropped, a call without a packet not made. */
  function Run(r: Ring, events: seq<Event>): (out: (seq<seq<byte>>, Ring))
    decreases |events|
  {
    if events == [] then ([], r)
    else
      match events[0]
      case Arrival(p) =>
        Run(if r.wr < SIZE && r.erxrdpt < SIZE && HasRoom(r, p) then Arrive(r, p) else r, events[1..])
      case Reception =>
        if !Fetchable(r) || Fetch(r).length > |Fetch(r).buf| then Run(r, events[1..])
        else
          var (rest, end) := Run(Freed(r), events[1..]);
          ([Fetch(r).buf[..Fetch(r).length]] + rest, end)
  }

  /** A queue of packets with room for SIZE - 1 bytes and MAX_COUNT packets, nothing more. */
  predicate Enters(ps: seq<Packet>, p: Packet) {
    CRC_SIZE <= |p.bytes| && Extents(ps) + Extent(p) < SIZE && |ps| < MAX_COUNT
  }

  function Frame(p: Packet): seq<byte> {
    if |p.bytes| < CRC_SIZE then [] else p.bytes[..|p.bytes| - CRC_SIZE]
  }

  /** The same run on the queue: what it delivers, what enters it, and what is left. */
  function Queue(ps: seq<Packet>, events: seq<Event>): (out: (seq<seq<byte>>, seq<Packet>, seq<Packet>))
    decreases |events|
  {
    if events == [] then ([], [], ps)
    else
      match events[0]
      case Arrival(p) =>
        if Enters(ps, p) then
          var (delivered, entered, left) := Queue(ps + [p], events[1..]); (delivered, [p] + entered, left)
        else Queue(ps, events[1..])
      case Reception =>
        if ps == [] then Queue(ps, events[1..])
        else var (delivered, entered, left) := Queue(ps[1..], events[1..]); ([Frame(ps[0])] + delivered, entered, left)
  }

  lemma RoomIsEnters(r: Ring, ps: seq<Packet>, p: Packet)
    requires Holds(r, ps)
    ensures HasRoom(r, p) <==> Enters(ps, p)
  {
    RoomIsRest(r.next, Extents(ps), r.wr, r.erxrdpt);
    hide Chain, Distance, Wrap, Extent, Extents;
  }

  /** Over any run the ring behaves as the queue: same deliveries, and the unread packets stay intact. */
  lemma {:induction false} RingIsQueue(r: Ring, ps: seq<Packet>, events: seq<Event>)
    requires Holds(r, ps)
    ensures Run(r, events).0 == Queue(ps, events).0
    ensures Holds(Run(r, events).1, Queue(ps, events).2)
    decreases |events|
  {
    hide Arrive, HasRoom, Enters, Fetch, Freed, Extents, Extent, Chain;
    if events != [] {
      match events[0] {
        case Arrival(p) =>
          assert r.wr < SIZE && r.erxrdpt < SIZE;
          hide Holds;
          RoomIsEnters(r, ps, p);
          if HasRoom(r, p) {
            ArriveHolds(r, ps, p);
            RingIsQueue(Arrive(r, p), ps + [p], events[1..]);
          } else {
            RingIsQueue(r, ps, events[1..]);
          }
        case Reception =>
          if ps != [] {
            hide Holds;
            ReceiveHolds(r, ps);
            RingIsQueue(Freed(r), ps[1..], events[1..]);
            FirstPacket(r, ps);
          } else {
            assert r.count == 0;
            RingIsQueue(r, ps, events[1..]);
          }
      }
    }
  }

  function Frames(ps: seq<Packet>): (fs: seq<seq<byte>>)
    ensures |fs| == |ps|
  {
    seq(|ps|, i requires 0 <= i < |ps| => Frame(ps[i]))
  }

  /** First in, first out: what was queued and what entered is what is delivered and what is left, in order. */
  lemma {:induction false} QueueIsFifo(ps: seq<Packet>, events: seq<Event>)
    ensures var (delivered, entered, left) := Queue(ps, events);
            delivered + Frames(left) == Frames(ps) + Frames(entered)
    decreases |events|
  {
    hide Enters, Frame;
    if events != [] {
      match events[0] {
        case Arrival(p) =>
          if Enters(ps, p) {
            QueueIsFifo(ps + [p], events[1..]);
            var entered := Queue(ps + [p], events[1..]).1;
            assert Frames(ps + [p]) + Frames(entered) == Frames(ps) + Frames([p] + entered);
          } else {
            QueueIsFifo(ps, events[1..]);
          }
        case Reception =>
          if ps != [] {
            QueueIsFifo(ps[1..], events[1..]);
            assert Frames(ps) == [Frame(ps[0])] + Frames(ps[1..]);
            var (delivered, entered, left) := Queue(ps[1..], events[1..]);
            assert ([Frame(ps[0])] + delivered) + Frames(left) == [Frame(ps[0])] + (delivered + Frames(left));
            assert Frames(ps) + Frames(entered) == [Frame(ps[0])] + (Frames(ps[1..]) + Frames(entered));
          } else {
            QueueIsFifo(ps, events[1..]);
          }
      }
    }
  }

  /** From power-up, over any run: deliveries and unread frames are the accepted frames, in arrival order. */
  lemma RingIsFifo(events: seq<Event>)
    ensures var (delivered, entered, left) := Queue([], events);
            Run(EMPTY, events).0 == delivered && Holds(Run(EMPTY, events).1, left) &&
            delivered + Frames(left) == Frames(entered)
  {
    hide Holds, Run;
    EmptyHolds();
    RingIsQueue(EMPTY, [], events);
    QueueIsFifo([], events);
    assert Frames([]) + Frames(Queue([], events).1) == Frames(Queue([], events).1);
  }
}
