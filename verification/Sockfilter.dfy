/** `sockfilter`: the socket program that copies packet header bytes into a ring record, and the user-space
    code that prints the record. Offsets are those of section 3.1 of RFC 791. */
module Sockfilter {
  import opened Kernel

  datatype ByteOrder = Little | Big

  const ETH_HLEN := 14
  const ETH_P_IP := 0x0800
  const IPPROTO_GRE := 47

  const RING_SIZE := 262144
  const HEADER := 8
  const PAYLOAD := 24
  const RECORD := 32
  const SLOTS := 8192

  // Offsets in struct so_event.
  const SRC := 0
  const DST := 4
  const PORTS := 8
  const PROTO := 12
  const PKT_TYPE := 16
  const IFINDEX := 20

  type Memory = m: seq<byte> | |m| == RING_SIZE witness Zeros(RING_SIZE)

  // ---------- words in memory ----------

  function BigEndian(b: seq<byte>): nat {
    if b == [] then 0 else BigEndian(b[..|b| - 1]) * 0x100 + b[|b| - 1]
  }

  function Reversed(b: seq<byte>): (r: seq<byte>)
    ensures |r| == |b|
  {
    if b == [] then [] else [b[|b| - 1]] + Reversed(b[..|b| - 1])
  }

  /** The number a host reads from bytes in memory. */
  function Word(order: ByteOrder, b: seq<byte>): nat {
    if order.Little? then BigEndian(Reversed(b)) else BigEndian(b)
  }

  function Digits(x: nat, n: nat): (b: seq<byte>)
    ensures |b| == n
  {
    if n == 0 then [] else Digits(x / 0x100, n - 1) + [x % 0x100]
  }

  /** The bytes a host writes for a number. */
  function Bytes(order: ByteOrder, x: nat, n: nat): (b: seq<byte>)
    ensures |b| == n
  {
    if order.Little? then Reversed(Digits(x, n)) else Digits(x, n)
  }

  /** `ntohl` and `ntohs`: byte swapping on little-endian hosts, nothing on big-endian ones. */
  function NetToHost(order: ByteOrder, x: nat, n: nat): nat {
    if order.Little? then BigEndian(Reversed(Digits(x, n))) else x
  }

  // ---------- the packet ----------

  datatype Packet = Packet(data: seq<byte>, pktType: u32, ifindex: u32)

  /** `bpf_skb_load_bytes`: zeroes when the range is not in the packet. */
  function Load(data: seq<byte>, off: nat, n: nat): (b: seq<byte>)
    ensures |b| == n
  {
    if off + n <= |data| then data[off..off + n] else Zeros(n)
  }

  function LoadNet16(order: ByteOrder, data: seq<byte>, off: nat): nat {
    NetToHost(order, Word(order, Load(data, off, 2)), 2)
  }

  /** The fragment bits: more-fragments flag and fragment offset, the low 14 bits of the word. */
  predicate IpIsFragment(order: ByteOrder, data: seq<byte>, nhoff: nat) {
    LoadNet16(order, data, nhoff + 6) % 0x4000 != 0
  }

  predicate Wanted(order: ByteOrder, data: seq<byte>) {
    LoadNet16(order, data, 12) == ETH_P_IP && !IpIsFragment(order, data, ETH_HLEN)
  }

  /** Where the ports are: after the header length in 32-bit words. */
  function PortsAt(data: seq<byte>): nat {
    ETH_HLEN + Load(data, ETH_HLEN, 1)[0] % 0x10 * 4
  }

  // ---------- the ring record ----------

  function Put(mem: Memory, off: nat, b: seq<byte>): (r: Memory)
    requires off + |b| <= RING_SIZE
  {
    mem[..off] + b + mem[off + |b|..]
  }

  function Field(mem: Memory, off: nat, n: nat): (b: seq<byte>)
    requires off + n <= RING_SIZE
    ensures |b| == n
  {
    mem[off..off + n]
  }

  /** Reserving and submitting write the record header; nothing clears the payload. */
  function WithProtocol(mem: Memory, base: nat, p: Packet, header: seq<byte>): Memory
    requires base + RECORD <= RING_SIZE && |header| == HEADER
  {
    Put(Put(mem, base, header), base + HEADER + PROTO, Load(p.data, ETH_HLEN + 9, 1))
  }

  function WithAddresses(order: ByteOrder, mem: Memory, base: nat, p: Packet): Memory
    requires base + RECORD <= RING_SIZE
  {
    if Word(order, Field(mem, base + HEADER + PROTO, 4)) == IPPROTO_GRE then mem
    else Put(Put(mem, base + HEADER + SRC, Load(p.data, ETH_HLEN + 12, 4)),
             base + HEADER + DST, Load(p.data, ETH_HLEN + 16, 4))
  }

  function WithPorts(order: ByteOrder, mem: Memory, base: nat, p: Packet): Memory
    requires base + RECORD <= RING_SIZE
  {
    Put(Put(Put(mem, base + HEADER + PORTS, Load(p.data, PortsAt(p.data), 4)),
            base + HEADER + PKT_TYPE, Bytes(order, p.pktType, 4)),
        base + HEADER + IFINDEX, Bytes(order, p.ifindex, 4))
  }

  /** The ring after a record at `base` was reserved, filled from `p` and submitted. */
  function Filled(order: ByteOrder, mem: Memory, base: nat, p: Packet, header: seq<byte>): Memory
    requires base + RECORD <= RING_SIZE && |header| == HEADER
  {
    WithPorts(order, WithAddresses(order, WithProtocol(mem, base, p, header), base, p), base, p)
  }

  /** The ring memory and how many records were ever reserved, all of the same size. */
  datatype Ring = Ring(mem: Memory, count: nat)

  /** A packet, whether a record could be reserved for it, and the record header the kernel writes. */
  datatype Arrival = Arrival(p: Packet, reserved: bool, header: seq<byte>)

  predicate ValidArrival(a: Arrival) { |a.header| == HEADER }

  /** Where the next record starts: the producer position modulo the ring. Because the record size
      divides the ring size, records never straddle its end and always fall on the same boundaries. */
  function Base(count: nat): (base: nat)
    ensures base == count % SLOTS * RECORD
    ensures base + RECORD <= RING_SIZE
  {
    RecordsDivideRing(count);
    count * RECORD % RING_SIZE
  }

  lemma RecordsDivideRing(count: nat)
    ensures count * RECORD % RING_SIZE == count % SLOTS * RECORD
  {
    assert count == count / SLOTS * SLOTS + count % SLOTS;
    assert count * RECORD == count / SLOTS * RING_SIZE + count % SLOTS * RECORD;
  }

  function Next(order: ByteOrder, r: Ring, a: Arrival): Ring
    requires ValidArrival(a)
  {
    if Wanted(order, a.p.data) && a.reserved
    then Ring(Filled(order, r.mem, Base(r.count), a.p, a.header), r.count + 1)
    else r
  }

  /** The ring after the first `n` arrivals, from a ring of zeroes. */
  function RingAt(order: ByteOrder, arrivals: seq<Arrival>, n: nat): Ring
    requires n <= |arrivals| && forall i :: 0 <= i < |arrivals| ==> ValidArrival(arrivals[i])
  {
    if n == 0 then Ring(Zeros(RING_SIZE), 0) else Next(order, RingAt(order, arrivals, n - 1), arrivals[n - 1])
  }

  // ---------- the handler as it is written ----------

  class SocketProgram {
    const order: ByteOrder
    const mem: array<byte>
    var count: nat

    ghost predicate Valid() { mem.Length == RING_SIZE }

    ghost function Snapshot(): Ring
      requires Valid()
      reads this, mem
    {
      Ring(mem[..], count)
    }

    constructor (order: ByteOrder)
      ensures Valid() && this.order == order && fresh(mem)
      ensures Snapshot() == Ring(Zeros(RING_SIZE), 0)
    {
      this.order := order;
      mem := new byte[RING_SIZE](i => 0);
      count := 0;
      new;
      assert mem[..] == Zeros(RING_SIZE);
    }

    method Store(off: nat, b: seq<byte>)
      requires Valid() && off + |b| <= RING_SIZE
      modifies mem
      ensures mem[..] == Put(old(mem[..]), off, b)
    {
      forall i | 0 <= i < |b| {
        mem[off + i] := b[i];
      }
    }

    method StoreAddresses(base: nat, p: Packet)
      requires Valid() && base + RECORD <= RING_SIZE
      modifies mem
      ensures mem[..] == WithAddresses(order, old(mem[..]), base, p)
    {
      var e := base + HEADER;
      if Word(order, mem[..][e + PROTO..e + PROTO + 4]) != IPPROTO_GRE {
        Store(e + SRC, Load(p.data, ETH_HLEN + 12, 4));
        Store(e + DST, Load(p.data, ETH_HLEN + 16, 4));
      }
    }

    method StorePorts(base: nat, p: Packet)
      requires Valid() && base + RECORD <= RING_SIZE
      modifies mem
      ensures mem[..] == WithPorts(order, old(mem[..]), base, p)
    {
      var e := base + HEADER;
      var verlen := Load(p.data, ETH_HLEN, 1)[0];
      Store(e + PORTS, Load(p.data, ETH_HLEN + verlen % 0x10 * 4, 4));
      Store(e + PKT_TYPE, Bytes(order, p.pktType, 4));
      Store(e + IFINDEX, Bytes(order, p.ifindex, 4));
    }

    /** Returns the length to keep of the packet: all of it, or nothing when no record was made. */
    method SocketHandler(p: Packet, reserved: bool, header: seq<byte>) returns (keep: nat)
      requires Valid() && |header| == HEADER
      modifies this, mem
      ensures Snapshot() == Next(order, old(Snapshot()), Arrival(p, reserved, header))
      ensures keep == if Wanted(order, p.data) && reserved then |p.data| else 0
    {
      var proto := LoadNet16(order, p.data, 12);
      if proto != ETH_P_IP {
        return 0;
      }
      if IpIsFragment(order, p.data, ETH_HLEN) {
        return 0;
      }
      if !reserved {
        return 0;
      }
      var base := Base(count);
      Store(base, header);
      Store(base + HEADER + PROTO, Load(p.data, ETH_HLEN + 9, 1));
      StoreAddresses(base, p);
      StorePorts(base, p);
      count := count + 1;
      keep := |p.data|;
    }
  }
}
