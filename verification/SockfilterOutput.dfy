/** What `sockfilter` prints for a packet, in terms of the packet's bytes: over whole runs of a reused
    ring, on hosts of either byte order. */
module SockfilterOutput {
  import opened Kernel
  import opened Sockfilter

  // ---------- byte order ----------

  lemma {:induction false} DigitsOfBigEndian(b: seq<byte>)
    ensures Digits(BigEndian(b), |b|) == b
  {
    if b != [] {
      DigitsOfBigEndian(b[..|b| - 1]);
    }
  }

  lemma {:induction false} ReversedAt(b: seq<byte>, i: nat)
    requires i < |b|
    ensures Reversed(b)[i] == b[|b| - 1 - i]
  {
    if i > 0 {
      ReversedAt(b[..|b| - 1], i - 1);
    }
  }

  lemma ReversedTwice(b: seq<byte>)
    ensures Reversed(Reversed(b)) == b
  {
    forall i | 0 <= i < |b| ensures Reversed(Reversed(b))[i] == b[i] {
      ReversedAt(Reversed(b), i);
      ReversedAt(b, |b| - 1 - i);
    }
  }

  /** Under either byte order, converting the word in memory gives the bytes read in network order. */
  lemma NetworkOrderIsPortable(order: ByteOrder, b: seq<byte>)
    ensures NetToHost(order, Word(order, b), |b|) == BigEndian(b)
  {
    DigitsOfBigEndian(Reversed(b));
    ReversedTwice(b);
  }

  function Pow256(n: nat): nat { if n == 0 then 1 else Pow256(n - 1) * 0x100 }

  lemma {:induction false} BigEndianOfDigits(x: nat, n: nat)
    requires x < Pow256(n)
    ensures BigEndian(Digits(x, n)) == x
  {
    if n > 0 {
      BigEndianOfDigits(x / 0x100, n - 1);
      assert Digits(x, n)[..n - 1] == Digits(x / 0x100, n - 1);
    }
  }

  lemma WordReadsBack(order: ByteOrder, x: u32)
    ensures Word(order, Bytes(order, x, 4)) == x
  {
    assert Pow256(4) == TWO_32 by {
      assert Pow256(2) == 0x10000;
    }
    BigEndianOfDigits(x, 4);
    ReversedTwice(Digits(x, 4));
  }

  lemma BigEndianSplit(b: seq<byte>)
    requires b != []
    ensures BigEndian(b) / 0x100 == BigEndian(b[..|b| - 1])
    ensures BigEndian(b) % 0x100 == b[|b| - 1]
  {
  }

  // ---------- dotted text ----------

  function Dec(n: nat): string {
    if n < 10 then [Digit(n)] else Dec(n / 10) + [Digit(n % 10)]
  }

  function Digit(d: nat): char
    requires d < 10
  {
    "0123456789"[d]
  }

  function Dotted(b: seq<byte>): string
    requires |b| == 4
  {
    Dec(b[0]) + "." + Dec(b[1]) + "." + Dec(b[2]) + "." + Dec(b[3])
  }

  /** The text formatted by `ltoa`, before it is cut to the 16-byte buffer. */
  function AddrText(addr: nat): string {
    Dec(addr / 0x100_0000 % 0x100) + "." + Dec(addr / 0x1_0000 % 0x100) + "."
    + Dec(addr / 0x100 % 0x100) + "." + Dec(addr % 0x100)
  }

  const ADDR_BUF := 16

  function Truncated(text: string): string {
    if |text| < ADDR_BUF then text else text[..ADDR_BUF - 1]
  }

  method Ltoa(addr: u32, dst: array<char>)
    requires dst.Length == ADDR_BUF
    modifies dst
    ensures var text := Truncated(AddrText(addr));
            && dst[..|text|] == text && dst[|text|] == 0 as char
            && forall i :: |text| < i < dst.Length ==> dst[i] == old(dst[i])
  {
    var text := Truncated(AddrText(addr));
    forall i | 0 <= i < |text| {
      dst[i] := text[i];
    }
    dst[|text|] := 0 as char;
  }

  lemma DecShape(n: byte)
    ensures Dec(n) == if n < 10 then [Digit(n)]
                      else if n < 100 then [Digit(n / 10), Digit(n % 10)]
                      else [Digit(n / 100), Digit(n / 10 % 10), Digit(n % 10)]
  {
    if 100 <= n {
      assert n / 10 / 10 == n / 100;
      assert Dec(n / 10) == Dec(n / 100) + [Digit(n / 10 % 10)];
    }
  }

  lemma AddrTextIsDotted(b: seq<byte>)
    requires |b| == 4
    ensures AddrText(BigEndian(b)) == Dotted(b)
  {
    var x, b3, b2, b1 := BigEndian(b), b[..3], b[..2], b[..1];
    assert b3[..2] == b2 && b2[..1] == b1;
    BigEndianSplit(b);
    BigEndianSplit(b3);
    BigEndianSplit(b2);
    BigEndianSplit(b1);
    assert BigEndian(b1) == b[0];
    assert x / 0x1_0000 == x / 0x100 / 0x100;
    assert x / 0x100_0000 == x / 0x100 / 0x100 / 0x100;
  }

  /** No address text is cut by the buffer. */
  lemma DottedFits(b: seq<byte>)
    requires |b| == 4
    ensures |Dotted(b)| < ADDR_BUF && Truncated(Dotted(b)) == Dotted(b)
  {
    DecShape(b[0]);
    DecShape(b[1]);
    DecShape(b[2]);
    DecShape(b[3]);
  }

  // ---------- reading the text back ----------

  predicate IsDigit(c: char) { '0' <= c <= '9' }

  /** The number at the front of `s`, and what follows it. */
  function TakeNumber(s: string, acc: nat): (nat, string) {
    if s == "" || !IsDigit(s[0]) then (acc, s)
    else TakeNumber(s[1..], acc * 10 + (s[0] as int - '0' as int))
  }

  /** Octets separated by dots, or `None`. */
  function ParseOctets(s: string, n: nat): Option<seq<byte>>
    decreases n
  {
    var (x, rest) := TakeNumber(s, 0);
    if n == 0 || s == "" || !IsDigit(s[0]) || 0x100 <= x then None
    else if n == 1 then if rest == "" then Some([x]) else None
    else if rest == "" || rest[0] != '.' then None
    else
      match ParseOctets(rest[1..], n - 1)
      case None => None
      case Some(more) => Some([x] + more)
  }

  lemma TakeDigit(d: nat, rest: string, acc: nat)
    requires d < 10
    ensures TakeNumber([Digit(d)] + rest, acc) == TakeNumber(rest, acc * 10 + d)
    ensures IsDigit(([Digit(d)] + rest)[0])
  {
    assert ([Digit(d)] + rest)[1..] == rest;
  }

  lemma TakeTwo(tens: nat, units: nat, rest: string)
    requires tens < 10 && units < 10 && (rest == "" || !IsDigit(rest[0]))
    ensures TakeNumber([Digit(tens), Digit(units)] + rest, 0) == (tens * 10 + units, rest)
    ensures IsDigit(([Digit(tens), Digit(units)] + rest)[0])
  {
    var s1 := [Digit(units)] + rest;
    assert [Digit(tens), Digit(units)] + rest == [Digit(tens)] + s1;
    TakeDigit(tens, s1, 0);
    TakeDigit(units, rest, tens);
  }

  lemma TakeThree(hundreds: nat, tens: nat, units: nat, rest: string)
    requires hundreds < 10 && tens < 10 && units < 10 && (rest == "" || !IsDigit(rest[0]))
    ensures TakeNumber([Digit(hundreds), Digit(tens), Digit(units)] + rest, 0)
         == (hundreds * 100 + tens * 10 + units, rest)
    ensures IsDigit(([Digit(hundreds), Digit(tens), Digit(units)] + rest)[0])
  {
    var s1 := [Digit(units)] + rest;
    var s2 := [Digit(tens)] + s1;
    assert [Digit(hundreds), Digit(tens), Digit(units)] + rest == [Digit(hundreds)] + s2;
    TakeDigit(hundreds, s2, 0);
    TakeDigit(tens, s1, hundreds);
    TakeDigit(units, rest, hundreds * 10 + tens);
  }

  lemma TakeOctet(n: byte, rest: string)
    requires rest == "" || !IsDigit(rest[0])
    ensures TakeNumber(Dec(n) + rest, 0) == (n, rest)
    ensures Dec(n) + rest != "" && IsDigit((Dec(n) + rest)[0])
  {
    DecShape(n);
    if n < 10 {
      TakeDigit(n, rest, 0);
      assert TakeNumber(rest, n) == (n, rest);
    } else if n < 100 {
      TakeTwo(n / 10, n % 10, rest);
      assert n / 10 * 10 + n % 10 == n;
    } else {
      TakeThree(n / 100, n / 10 % 10, n % 10, rest);
      assert n / 100 * 100 + n / 10 % 10 * 10 + n % 10 == n;
    }
  }

  lemma ParseStep(x: byte, rest: string, n: nat)
    requires 1 < n && rest != "" && rest[0] == '.'
    ensures ParseOctets(Dec(x) + rest, n) ==
            match ParseOctets(rest[1..], n - 1)
            case None => None
            case Some(more) => Some([x] + more)
  {
    TakeOctet(x, rest);
  }

  lemma LastTwoParse(x: byte, y: byte)
    ensures ParseOctets(Dec(x) + ("." + Dec(y)), 2) == Some([x, y])
  {
    var t := "." + Dec(y);
    assert t[1..] == Dec(y) == Dec(y) + "";
    TakeOctet(y, "");
    assert ParseOctets(Dec(y), 1) == Some([y]);
    ParseStep(x, t, 2);
    assert [x] + [y] == [x, y];
  }

  /** The printed address can be read back, and is the address. */
  lemma DottedParsesBack(b: seq<byte>)
    requires |b| == 4
    ensures ParseOctets(Dotted(b), 4) == Some(b)
  {
    var t1 := "." + (Dec(b[2]) + ("." + Dec(b[3])));
    var t0 := "." + (Dec(b[1]) + t1);
    assert Dotted(b) == Dec(b[0]) + t0;
    LastTwoParse(b[2], b[3]);
    assert t1[1..] == Dec(b[2]) + ("." + Dec(b[3]));
    ParseStep(b[1], t1, 3);
    assert t0[1..] == Dec(b[1]) + t1;
    ParseStep(b[0], t0, 4);
    assert [b[0]] + ([b[1]] + [b[2], b[3]]) == b;
  }

  // ---------- ring memory ----------

  lemma PutThere(mem: Memory, off: nat, b: seq<byte>)
    requires off + |b| <= RING_SIZE
    ensures Field(Put(mem, off, b), off, |b|) == b
  {
  }

  lemma PutElsewhere(mem: Memory, off: nat, b: seq<byte>, at: nat, n: nat)
    requires off + |b| <= RING_SIZE && at + n <= RING_SIZE
    requires at + n <= off || off + |b| <= at
    ensures Field(Put(mem, off, b), at, n) == Field(mem, at, n)
  {
  }

  /** The upper three bytes of `ip_proto` on a little-endian host, in the record of slot `k`. */
  function UpperProto(mem: Memory, k: nat): seq<byte>
    requires k < SLOTS
  {
    Field(mem, k * RECORD + HEADER + PROTO + 1, 3)
  }

  /** Filling a record writes neither those three bytes of its own slot nor anything in another slot. */
  lemma {:induction false} FilledKeepsUpperProto(order: ByteOrder, mem: Memory, q: nat, p: Packet,
                                                 header: seq<byte>, k: nat)
    requires q < SLOTS && k < SLOTS && |header| == HEADER
    ensures UpperProto(Filled(order, mem, q * RECORD, p, header), k) == UpperProto(mem, k)
  {
    var base, at := q * RECORD, k * RECORD + HEADER + PROTO + 1;
    assert at + 3 <= base || at == base + 21 || base + RECORD <= at;
    var mem1 := WithProtocol(mem, base, p, header);
    PutElsewhere(mem, base, header, at, 3);
    PutElsewhere(Put(mem, base, header), base + HEADER + PROTO, Load(p.data, ETH_HLEN + 9, 1), at, 3);
    AddressesKeep(order, mem1, base, p, at, 3);
    PortsKeep(order, WithAddresses(order, mem1, base, p), base, p, at, 3);
  }

  lemma AddressesKeep(order: ByteOrder, mem: Memory, base: nat, p: Packet, at: nat, n: nat)
    requires base + RECORD <= RING_SIZE && at + n <= RING_SIZE
    requires at + n <= base + HEADER + SRC || base + HEADER + PORTS <= at
    ensures Field(WithAddresses(order, mem, base, p), at, n) == Field(mem, at, n)
  {
    var e, src := base + HEADER, Load(p.data, ETH_HLEN + 12, 4);
    PutElsewhere(mem, e + SRC, src, at, n);
    PutElsewhere(Put(mem, e + SRC, src), e + DST, Load(p.data, ETH_HLEN + 16, 4), at, n);
  }

  lemma PortsKeep(order: ByteOrder, mem: Memory, base: nat, p: Packet, at: nat, n: nat)
    requires base + RECORD <= RING_SIZE && at + n <= RING_SIZE
    requires at + n <= base + HEADER + PORTS || base + RECORD <= at
          || (base + HEADER + PROTO <= at && at + n <= base + HEADER + PKT_TYPE)
    ensures Field(WithPorts(order, mem, base, p), at, n) == Field(mem, at, n)
  {
    var e := base + HEADER;
    var mem1 := Put(mem, e + PORTS, Load(p.data, PortsAt(p.data), 4));
    var mem2 := Put(mem1, e + PKT_TYPE, Bytes(order, p.pktType, 4));
    PutElsewhere(mem, e + PORTS, Load(p.data, PortsAt(p.data), 4), at, n);
    PutElsewhere(mem1, e + PKT_TYPE, Bytes(order, p.pktType, 4), at, n);
    PutElsewhere(mem2, e + IFINDEX, Bytes(order, p.ifindex, 4), at, n);
  }

  lemma NextKeepsUpperProto(order: ByteOrder, r: Ring, a: Arrival, k: nat)
    requires ValidArrival(a) && k < SLOTS
    ensures UpperProto(Next(order, r, a).mem, k) == UpperProto(r.mem, k)
  {
    FilledKeepsUpperProto(order, r.mem, r.count % SLOTS, a.p, a.header, k);
  }

  /** In every run from a zeroed ring, in every slot, the bytes of `ip_proto` that are never written
      stay zero however often the slot is reused. */
  lemma {:induction false} UpperProtoStaysZero(order: ByteOrder, arrivals: seq<Arrival>, n: nat, k: nat)
    requires n <= |arrivals| && forall i :: 0 <= i < |arrivals| ==> ValidArrival(arrivals[i])
    requires k < SLOTS
    ensures UpperProto(RingAt(order, arrivals, n).mem, k) == [0, 0, 0]
  {
    if n > 0 {
      UpperProtoStaysZero(order, arrivals, n - 1, k);
      NextKeepsUpperProto(order, RingAt(order, arrivals, n - 1), arrivals[n - 1], k);
    }
  }

  // ---------- what is printed ----------

  datatype Line = Line(ifname: string, protocol: nat, src: string, srcPort: nat, dst: string, dstPort: nat)

  /** `names` resolves interface indexes; `table` is the size of the protocol name table, IPPROTO_MAX, which
      exceeds every one-byte protocol number. */
  datatype Host = Host(order: ByteOrder, table: nat, names: u32 -> Option<string>)

  const PACKET_HOST := 0

  /** The line for the record at `base`, if any. */
  function HandleEvent(host: Host, mem: Memory, base: nat): Option<Line>
    requires base + RECORD <= RING_SIZE
  {
    var e, o := base + HEADER, host.order;
    var proto := Word(o, Field(mem, e + PROTO, 4));
    var ifindex := Word(o, Field(mem, e + IFINDEX, 4));
    if Word(o, Field(mem, e + PKT_TYPE, 4)) != PACKET_HOST then None
    else if host.table <= proto then None
    else if TWO_32 <= ifindex || host.names(ifindex).None? then None
    else Some(Rendered(o, mem, e, host.names(ifindex).value, proto))
  }

  /** The text printed for the address in the four bytes at `at`. */
  function AddrAt(o: ByteOrder, mem: Memory, at: nat): string
    requires at + 4 <= RING_SIZE
  {
    Truncated(AddrText(NetToHost(o, Word(o, Field(mem, at, 4)), 4)))
  }

  function PortAt(o: ByteOrder, mem: Memory, at: nat): nat
    requires at + 2 <= RING_SIZE
  {
    NetToHost(o, Word(o, Field(mem, at, 2)), 2)
  }

  function Rendered(o: ByteOrder, mem: Memory, e: nat, ifname: string, proto: nat): Line
    requires e + PAYLOAD <= RING_SIZE
  {
    Line(ifname, proto, AddrAt(o, mem, e + SRC), PortAt(o, mem, e + PORTS),
         AddrAt(o, mem, e + DST), PortAt(o, mem, e + PORTS + 2))
  }

  /** The line that the header bytes of a packet call for, when its header is `ihl` 32-bit words long. */
  function HeaderLine(ifname: string, data: seq<byte>, ihl: nat): Line
    requires LongEnough(data, ihl)
  {
    var l4 := 14 + 4 * ihl;
    Line(ifname, data[23], Dotted(data[26..30]), data[l4] as int * 0x100 + data[l4 + 1],
         Dotted(data[30..34]), data[l4 + 2] as int * 0x100 + data[l4 + 3])
  }

  /** The packet reaches to the end of the fixed header and of the ports. */
  predicate LongEnough(data: seq<byte>, ihl: nat) {
    34 <= |data| && 14 + 4 * ihl + 4 <= |data|
  }

  /** The first byte of the IP header: version in the upper half, header length in the lower. */
  predicate HeaderLength(data: seq<byte>, version: nat, ihl: nat)
    requires 14 < |data|
  {
    version < 16 && ihl < 16 && data[14] as int == version * 16 + ihl
  }

  lemma PortsFollowHeader(data: seq<byte>, version: nat, ihl: nat)
    requires 14 < |data| && HeaderLength(data, version, ihl)
    ensures PortsAt(data) == 14 + 4 * ihl
  {
    assert (version * 16 + ihl) % 16 == ihl;
  }

  lemma BigEndianOfTwo(b: seq<byte>)
    requires |b| == 2
    ensures BigEndian(b) == b[0] as int * 0x100 + b[1]
  {
    assert b[..1] == [b[0]] && BigEndian(b[..1]) == b[0];
  }

  /** `b` is what was copied from offset `off`: the bytes of the packet, or zeroes if it ends too early. */
  predicate CopiedFrom(data: seq<byte>, off: nat, b: seq<byte>) {
    forall i :: 0 <= i < |b| ==> b[i] == if off + |b| <= |data| then data[off + i] else 0
  }

  lemma LoadCopies(data: seq<byte>, off: nat, n: nat)
    ensures CopiedFrom(data, off, Load(data, off, n))
  {
  }

  /** Under either byte order exactly unfragmented IPv4 frames are kept; a frame that ends before the fragment
      word counts as unfragmented. */
  lemma WantedIsPortable(order: ByteOrder, data: seq<byte>)
    ensures Wanted(order, data)
       <==> && 14 <= |data| && data[12] as int * 0x100 + data[13] == 0x0800
            && (22 <= |data| ==> (data[20] as int * 0x100 + data[21]) % 0x4000 == 0)
  {
    var kind, fragment := Load(data, 12, 2), Load(data, 20, 2);
    NetworkOrderIsPortable(order, kind);
    NetworkOrderIsPortable(order, fragment);
    BigEndianOfTwo(kind);
    BigEndianOfTwo(fragment);
  }

  /** The number `ip_proto` holds when its unwritten bytes are zero. */
  lemma ProtocolWord(order: ByteOrder, proto: byte)
    ensures Word(order, [proto, 0, 0, 0]) == if order.Little? then proto else proto as int * 0x100_0000
  {
    var zeros: seq<byte> := [0, 0, 0];
    var b: seq<byte> := [proto, 0, 0, 0];
    ReversedAt(b, 0);
    ReversedAt(b, 1);
    ReversedAt(b, 2);
    ReversedAt(b, 3);
    assert Reversed(b)[..3] == zeros;
    assert b[..3] == [proto, 0, 0] && b[..3][..2] == [proto, 0] && b[..3][..2][..1] == [proto];
    assert BigEndian([proto]) == proto;
    assert BigEndian([proto, 0]) == proto as int * 0x100;
    assert BigEndian([proto, 0, 0]) == proto as int * 0x1_0000;
    assert zeros[..2] == [0, 0] && zeros[..2][..1] == [0];
    assert BigEndian([0]) == 0;
    assert BigEndian([0, 0]) == 0;
    assert BigEndian(zeros) == 0;
  }

  lemma ProtocolField(mem: Memory, q: nat, p: Packet, header: seq<byte>)
    requires q < SLOTS && |header| == HEADER
    ensures Field(WithProtocol(mem, q * RECORD, p, header), q * RECORD + HEADER + PROTO, 4)
         == Load(p.data, ETH_HLEN + 9, 1) + UpperProto(mem, q)
  {
    var base := q * RECORD;
    var mem1 := Put(mem, base, header);
    PutElsewhere(mem, base, header, base + HEADER + PROTO + 1, 3);
    PutThere(mem1, base + HEADER + PROTO, Load(p.data, ETH_HLEN + 9, 1));
    PutElsewhere(mem1, base + HEADER + PROTO, Load(p.data, ETH_HLEN + 9, 1), base + HEADER + PROTO + 1, 3);
    FieldSplit(WithProtocol(mem, base, p, header), base + HEADER + PROTO, 1, 3);
  }

  lemma FieldSplit(mem: Memory, at: nat, m: nat, n: nat)
    requires at + m + n <= RING_SIZE
    ensures Field(mem, at, m + n) == Field(mem, at, m) + Field(mem, at + m, n)
  {
  }

  lemma AddressFields(order: ByteOrder, mem: Memory, base: nat, p: Packet)
    requires base + RECORD <= RING_SIZE && Word(order, Field(mem, base + HEADER + PROTO, 4)) != IPPROTO_GRE
    ensures var after, e := WithAddresses(order, mem, base, p), base + HEADER;
            && Field(after, e + SRC, 4) == Load(p.data, ETH_HLEN + 12, 4)
            && Field(after, e + DST, 4) == Load(p.data, ETH_HLEN + 16, 4)
            && Field(after, e + PROTO, 4) == Field(mem, e + PROTO, 4)
  {
    var e, src, dst := base + HEADER, Load(p.data, ETH_HLEN + 12, 4), Load(p.data, ETH_HLEN + 16, 4);
    var mem1 := Put(mem, e + SRC, src);
    PutThere(mem, e + SRC, src);
    PutElsewhere(mem1, e + DST, dst, e + SRC, 4);
    PutThere(mem1, e + DST, dst);
    AddressesKeep(order, mem, base, p, e + PROTO, 4);
  }

  lemma PortFields(order: ByteOrder, mem: Memory, base: nat, p: Packet)
    requires base + RECORD <= RING_SIZE
    ensures var after, e := WithPorts(order, mem, base, p), base + HEADER;
            && Field(after, e + PORTS, 4) == Load(p.data, PortsAt(p.data), 4)
            && Field(after, e + PKT_TYPE, 4) == Bytes(order, p.pktType, 4)
            && Field(after, e + IFINDEX, 4) == Bytes(order, p.ifindex, 4)
  {
    var e, ports := base + HEADER, Load(p.data, PortsAt(p.data), 4);
    var kind, index := Bytes(order, p.pktType, 4), Bytes(order, p.ifindex, 4);
    var mem1 := Put(mem, e + PORTS, ports);
    var mem2 := Put(mem1, e + PKT_TYPE, kind);
    PutThere(mem, e + PORTS, ports);
    PutElsewhere(mem1, e + PKT_TYPE, kind, e + PORTS, 4);
    PutElsewhere(mem2, e + IFINDEX, index, e + PORTS, 4);
    PutThere(mem1, e + PKT_TYPE, kind);
    PutElsewhere(mem2, e + IFINDEX, index, e + PKT_TYPE, 4);
    PutThere(mem2, e + IFINDEX, index);
  }

  lemma RecordLoads(order: ByteOrder, mem: Memory, q: nat, p: Packet, header: seq<byte>)
    requires q < SLOTS && |header| == HEADER && UpperProto(mem, q) == [0, 0, 0]
    requires Load(p.data, ETH_HLEN + 9, 1)[0] != IPPROTO_GRE
    ensures var after, e := Filled(order, mem, q * RECORD, p, header), q * RECORD + HEADER;
            && Field(after, e + SRC, 4) == Load(p.data, ETH_HLEN + 12, 4)
            && Field(after, e + DST, 4) == Load(p.data, ETH_HLEN + 16, 4)
            && Field(after, e + PORTS, 4) == Load(p.data, PortsAt(p.data), 4)
            && Field(after, e + PROTO, 4) == [Load(p.data, ETH_HLEN + 9, 1)[0], 0, 0, 0]
            && Field(after, e + PKT_TYPE, 4) == Bytes(order, p.pktType, 4)
            && Field(after, e + IFINDEX, 4) == Bytes(order, p.ifindex, 4)
  {
    var base := q * RECORD;
    var mem1 := WithProtocol(mem, base, p, header);
    ProtocolField(mem, q, p, header);
    assert Field(mem1, base + HEADER + PROTO, 4) == [Load(p.data, ETH_HLEN + 9, 1)[0], 0, 0, 0];
    ProtocolWord(order, Load(p.data, ETH_HLEN + 9, 1)[0]);
    AddressFields(order, mem1, base, p);
    var mem2 := WithAddresses(order, mem1, base, p);
    PortFields(order, mem2, base, p);
    PortsKeep(order, mem2, base, p, base + HEADER + SRC, 4);
    PortsKeep(order, mem2, base, p, base + HEADER + DST, 4);
    PortsKeep(order, mem2, base, p, base + HEADER + PROTO, 4);
  }

  /** Every field of a filled record, for a packet that is not GRE: addresses and protocol from their places in
      the IP header, the ports from behind its `ihl` words, and what the kernel knows of the packet. */
  lemma RecordFields(order: ByteOrder, mem: Memory, q: nat, p: Packet, header: seq<byte>, version: nat, ihl: nat)
    requires q < SLOTS && |header| == HEADER && UpperProto(mem, q) == [0, 0, 0]
    requires 24 <= |p.data| && p.data[23] != 47 && HeaderLength(p.data, version, ihl)
    ensures var after, e := Filled(order, mem, q * RECORD, p, header), q * RECORD + HEADER;
            && CopiedFrom(p.data, 26, Field(after, e + SRC, 4))
            && CopiedFrom(p.data, 30, Field(after, e + DST, 4))
            && CopiedFrom(p.data, 14 + 4 * ihl, Field(after, e + PORTS, 4))
            && Field(after, e + PROTO, 4) == [p.data[23], 0, 0, 0]
            && Word(order, Field(after, e + PKT_TYPE, 4)) == p.pktType
            && Word(order, Field(after, e + IFINDEX, 4)) == p.ifindex
  {
    RecordLoads(order, mem, q, p, header);
    PortsFollowHeader(p.data, version, ihl);
    LoadCopies(p.data, 26, 4);
    LoadCopies(p.data, 30, 4);
    LoadCopies(p.data, 14 + 4 * ihl, 4);
    WordReadsBack(order, p.pktType);
    WordReadsBack(order, p.ifindex);
  }

  /** On a little-endian host the addresses of a GRE packet are not copied: the record keeps the old ones. */
  lemma GreKeepsOldAddresses(mem: Memory, q: nat, p: Packet, header: seq<byte>)
    requires q < SLOTS && |header| == HEADER && UpperProto(mem, q) == [0, 0, 0]
    requires 24 <= |p.data| && p.data[23] == 47
    ensures var after, e := Filled(Little, mem, q * RECORD, p, header), q * RECORD + HEADER;
            Field(after, e + SRC, 8) == Field(mem, e + SRC, 8)
  {
    var base := q * RECORD;
    var mem1 := Put(mem, base, header);
    var mem2 := WithProtocol(mem, base, p, header);
    ProtocolField(mem, q, p, header);
    assert Field(mem2, base + HEADER + PROTO, 4) == [p.data[23], 0, 0, 0];
    ProtocolWord(Little, p.data[23]);
    PutElsewhere(mem, base, header, base + HEADER + SRC, 8);
    PutElsewhere(mem1, base + HEADER + PROTO, Load(p.data, ETH_HLEN + 9, 1), base + HEADER + SRC, 8);
    PortsKeep(Little, mem2, base, p, base + HEADER + SRC, 8);
  }

  /** The words user space reads from a record whose fields hold header bytes print as those bytes. */
  lemma FieldsPrint(host: Host, mem: Memory, base: nat, p: Packet, ihl: nat)
    requires base + RECORD <= RING_SIZE && LongEnough(p.data, ihl) && 0x100 <= host.table <= 0x100_0000
    requires var e := base + HEADER;
             && Field(mem, e + SRC, 4) == p.data[26..30] && Field(mem, e + DST, 4) == p.data[30..34]
             && Field(mem, e + PORTS, 4) == p.data[14 + 4 * ihl..18 + 4 * ihl]
             && Field(mem, e + PROTO, 4) == [p.data[23], 0, 0, 0]
             && Field(mem, e + PKT_TYPE, 4) == Bytes(host.order, p.pktType, 4)
             && Field(mem, e + IFINDEX, 4) == Bytes(host.order, p.ifindex, 4)
    ensures HandleEvent(host, mem, base) == Expected(host, p, ihl)
  {
    var e, o := base + HEADER, host.order;
    WordReadsBack(o, p.pktType);
    WordReadsBack(o, p.ifindex);
    ProtocolWord(o, p.data[23]);
    if host.names(p.ifindex).Some? {
      RenderedIsHeader(o, mem, e, host.names(p.ifindex).value, p.data, ihl);
    }
  }

  /** The address half of the line, and the port half. */
  lemma RenderedHalves(order: ByteOrder, mem: Memory, e: nat, ifname: string, proto: nat, src: string, dst: string,
                       data: seq<byte>, l4: nat)
    requires e + PAYLOAD <= RING_SIZE && l4 + 4 <= |data|
    requires AddrAt(order, mem, e + SRC) == src && AddrAt(order, mem, e + DST) == dst
    requires Field(mem, e + PORTS, 4) == data[l4..l4 + 4]
    ensures Rendered(order, mem, e, ifname, proto)
         == Line(ifname, proto, src, data[l4] as int * 0x100 + data[l4 + 1],
                 dst, data[l4 + 2] as int * 0x100 + data[l4 + 3])
  {
    PortsPrint(order, mem, e + PORTS, data, l4);
  }

  lemma RenderedIsHeader(order: ByteOrder, mem: Memory, e: nat, ifname: string, data: seq<byte>, ihl: nat)
    requires e + PAYLOAD <= RING_SIZE && LongEnough(data, ihl)
    requires Field(mem, e + SRC, 4) == data[26..30] && Field(mem, e + DST, 4) == data[30..34]
    requires Field(mem, e + PORTS, 4) == data[14 + 4 * ihl..18 + 4 * ihl]
    ensures Rendered(order, mem, e, ifname, data[23]) == HeaderLine(ifname, data, ihl)
  {
    var src, dst := Dotted(data[26..30]), Dotted(data[30..34]);
    AddressPrints(order, mem, e + SRC, data[26..30]);
    AddressPrints(order, mem, e + DST, data[30..34]);
    RenderedHalves(order, mem, e, ifname, data[23], src, dst, data, 14 + 4 * ihl);
  }

  lemma PortPrints(order: ByteOrder, mem: Memory, at: nat)
    requires at + 2 <= RING_SIZE
    ensures PortAt(order, mem, at) == mem[at] as int * 0x100 + mem[at + 1]
  {
    NetworkOrderIsPortable(order, Field(mem, at, 2));
    BigEndianOfTwo(Field(mem, at, 2));
  }

  lemma PortsPrint(order: ByteOrder, mem: Memory, at: nat, data: seq<byte>, l4: nat)
    requires at + 4 <= RING_SIZE && l4 + 4 <= |data| && Field(mem, at, 4) == data[l4..l4 + 4]
    ensures PortAt(order, mem, at) == data[l4] as int * 0x100 + data[l4 + 1]
    ensures PortAt(order, mem, at + 2) == data[l4 + 2] as int * 0x100 + data[l4 + 3]
  {
    var here, there := Field(mem, at, 4), data[l4..l4 + 4];
    assert here[0] == there[0] && here[1] == there[1] && here[2] == there[2] && here[3] == there[3];
    PortPrints(order, mem, at);
    PortPrints(order, mem, at + 2);
  }

  lemma AddressPrints(order: ByteOrder, mem: Memory, at: nat, b: seq<byte>)
    requires at + 4 <= RING_SIZE && |b| == 4 && Field(mem, at, 4) == b
    ensures AddrAt(order, mem, at) == Dotted(b)
  {
    NetworkOrderIsPortable(order, b);
    AddrTextIsDotted(b);
    DottedFits(b);
  }

  /** What is printed for a filled record, for a packet that is long enough and not GRE. */
  function Expected(host: Host, p: Packet, ihl: nat): Option<Line>
    requires LongEnough(p.data, ihl)
  {
    if p.pktType == 0 && (host.order.Little? || p.data[23] == 0) && host.names(p.ifindex).Some?
    then Some(HeaderLine(host.names(p.ifindex).value, p.data, ihl)) else None
  }

  lemma FilledPrints(host: Host, mem: Memory, q: nat, p: Packet, header: seq<byte>, version: nat, ihl: nat)
    requires q < SLOTS && |header| == HEADER && UpperProto(mem, q) == [0, 0, 0]
    requires LongEnough(p.data, ihl) && HeaderLength(p.data, version, ihl)
    requires p.data[23] != 47 && 0x100 <= host.table <= 0x100_0000
    ensures HandleEvent(host, Filled(host.order, mem, q * RECORD, p, header), q * RECORD) == Expected(host, p, ihl)
  {
    RecordLoads(host.order, mem, q, p, header);
    PortsFollowHeader(p.data, version, ihl);
    FieldsPrint(host, Filled(host.order, mem, q * RECORD, p, header), q * RECORD, p, ihl);
  }

  // ---------- until user space polls ----------

  /** Filling one slot leaves every other slot alone. */
  lemma FilledKeepsOthers(order: ByteOrder, mem: Memory, q: nat, p: Packet, header: seq<byte>, k: nat)
    requires q < SLOTS && k < SLOTS && q != k && |header| == HEADER
    ensures Field(Filled(order, mem, q * RECORD, p, header), k * RECORD, RECORD) == Field(mem, k * RECORD, RECORD)
  {
    var base, at := q * RECORD, k * RECORD;
    assert at + RECORD <= base || base + RECORD <= at;
    var mem1 := WithProtocol(mem, base, p, header);
    PutElsewhere(mem, base, header, at, RECORD);
    PutElsewhere(Put(mem, base, header), base + HEADER + PROTO, Load(p.data, ETH_HLEN + 9, 1), at, RECORD);
    AddressesKeep(order, mem1, base, p, at, RECORD);
    PortsKeep(order, WithAddresses(order, mem1, base, p), base, p, at, RECORD);
  }

  lemma DifferentSlots(c: nat, d: nat)
    requires c < d < c + SLOTS
    ensures c % SLOTS != d % SLOTS
  {
  }

  lemma NextKeepsRecord(order: ByteOrder, r: Ring, a: Arrival, c: nat)
    requires ValidArrival(a) && c < r.count && Next(order, r, a).count <= c + SLOTS
    ensures Field(Next(order, r, a).mem, Base(c), RECORD) == Field(r.mem, Base(c), RECORD)
  {
    if Wanted(order, a.p.data) && a.reserved {
      DifferentSlots(c, r.count);
      FilledKeepsOthers(order, r.mem, r.count % SLOTS, a.p, a.header, c % SLOTS);
    }
  }

  /** From one ring to the next, the record at `at`, number `c`, keeps its bytes while it is not overwritten. */
  predicate KeepsRecord(r: Ring, r': Ring, c: nat, at: nat)
    requires at + RECORD <= RING_SIZE
  {
    && r.count <= r'.count
    && (c < r.count && r'.count <= c + SLOTS ==> Field(r'.mem, at, RECORD) == Field(r.mem, at, RECORD))
  }

  lemma NextKeeps(order: ByteOrder, r: Ring, a: Arrival, r': Ring, c: nat)
    requires ValidArrival(a) && r' == Next(order, r, a)
    ensures KeepsRecord(r, r', c, Base(c))
  {
    if c < r.count && r'.count <= c + SLOTS {
      NextKeepsRecord(order, r, a, c);
    }
  }

  lemma KeepsTwice(r: Ring, r1: Ring, r2: Ring, c: nat, at: nat)
    requires at + RECORD <= RING_SIZE && KeepsRecord(r, r1, c, at) && KeepsRecord(r1, r2, c, at)
    ensures KeepsRecord(r, r2, c, at)
  {
  }

  /** Record number `c` keeps its bytes until `SLOTS` more records have been reserved after it. */
  lemma {:induction false} RecordStays(order: ByteOrder, arrivals: seq<Arrival>, n: nat, m: nat, c: nat)
    requires n <= m <= |arrivals| && forall i :: 0 <= i < |arrivals| ==> ValidArrival(arrivals[i])
    ensures KeepsRecord(RingAt(order, arrivals, n), RingAt(order, arrivals, m), c, Base(c))
  {
    if n < m {
      var r, r1, r2 := RingAt(order, arrivals, n), RingAt(order, arrivals, m - 1), RingAt(order, arrivals, m);
      RecordStays(order, arrivals, n, m - 1, c);
      NextKeeps(order, r1, arrivals[m - 1], r2, c);
      KeepsTwice(r, r1, r2, c, Base(c));
    }
  }

  lemma FieldOfRecord(mem: Memory, mem': Memory, base: nat, off: nat, n: nat)
    requires base + RECORD <= RING_SIZE && off + n <= RECORD
    requires Field(mem, base, RECORD) == Field(mem', base, RECORD)
    ensures Field(mem, base + off, n) == Field(mem', base + off, n)
  {
    var x, y := Field(mem, base + off, n), Field(mem', base + off, n);
    forall i | 0 <= i < n ensures x[i] == y[i] {
      assert Field(mem, base, RECORD)[off + i] == Field(mem', base, RECORD)[off + i];
    }
  }

  /** What is printed for a record depends on its own bytes only. */
  lemma SameRecordSameLine(host: Host, mem: Memory, mem': Memory, base: nat)
    requires base + RECORD <= RING_SIZE && Field(mem, base, RECORD) == Field(mem', base, RECORD)
    ensures HandleEvent(host, mem, base) == HandleEvent(host, mem', base)
  {
    FieldOfRecord(mem, mem', base, HEADER + SRC, 4);
    FieldOfRecord(mem, mem', base, HEADER + DST, 4);
    FieldOfRecord(mem, mem', base, HEADER + PORTS, 2);
    FieldOfRecord(mem, mem', base, HEADER + PORTS + 2, 2);
    FieldOfRecord(mem, mem', base, HEADER + PROTO, 4);
    FieldOfRecord(mem, mem', base, HEADER + PKT_TYPE, 4);
    FieldOfRecord(mem, mem', base, HEADER + IFINDEX, 4);
  }

  /** An unfragmented IPv4 packet with a header of `ihl` words, long enough for its ports, and not GRE. */
  predicate Ordinary(data: seq<byte>, version: nat, ihl: nat) {
    && LongEnough(data, ihl) && HeaderLength(data, version, ihl) && data[23] != 47
    && data[12] as int * 0x100 + data[13] == 0x0800
    && (data[20] as int * 0x100 + data[21]) % 0x4000 == 0
  }

  lemma SubmittedPrints(host: Host, r: Ring, a: Arrival, version: nat, ihl: nat)
    requires ValidArrival(a) && a.reserved && Ordinary(a.p.data, version, ihl)
    requires UpperProto(r.mem, r.count % SLOTS) == [0, 0, 0] && 0x100 <= host.table <= 0x100_0000
    ensures Next(host.order, r, a).count == r.count + 1
    ensures HandleEvent(host, Next(host.order, r, a).mem, Base(r.count)) == Expected(host, a.p, ihl)
  {
    WantedIsPortable(host.order, a.p.data);
    FilledPrints(host, r.mem, r.count % SLOTS, a.p, a.header, version, ihl);
  }

  lemma ReadLater(host: Host, filled: Ring, polled: Ring, c: nat, line: Option<Line>)
    requires KeepsRecord(filled, polled, c, Base(c)) && c < filled.count && polled.count <= c + SLOTS
    requires HandleEvent(host, filled.mem, Base(c)) == line
    ensures HandleEvent(host, polled.mem, Base(c)) == line
  {
    SameRecordSameLine(host, polled.mem, filled.mem, Base(c));
  }

  lemma NthPrints(host: Host, arrivals: seq<Arrival>, n: nat, version: nat, ihl: nat)
    requires n < |arrivals| && forall i :: 0 <= i < |arrivals| ==> ValidArrival(arrivals[i])
    requires arrivals[n].reserved && Ordinary(arrivals[n].p.data, version, ihl)
    requires 0x100 <= host.table <= 0x100_0000
    ensures var r, filled := RingAt(host.order, arrivals, n), RingAt(host.order, arrivals, n + 1);
            && filled.count == r.count + 1
            && HandleEvent(host, filled.mem, Base(r.count)) == Expected(host, arrivals[n].p, ihl)
  {
    var r := RingAt(host.order, arrivals, n);
    UpperProtoStaysZero(host.order, arrivals, n, r.count % SLOTS);
    SubmittedPrints(host, r, arrivals[n], version, ihl);
  }

  /** In any run, the record of an unfragmented, long enough, non-GRE IPv4 packet that was given one prints
      exactly the header bytes at their RFC 791 offsets, the ports from behind the `ihl` words of the header,
      whenever user space reads it before its slot comes round again, when the packet is for this host, its
      interface has a name, and the host is little-endian; a big-endian host prints it only for protocol 0. */
  lemma PrintedLineIsHeader(host: Host, arrivals: seq<Arrival>, n: nat, m: nat, version: nat, ihl: nat)
    requires n < m <= |arrivals| && forall i :: 0 <= i < |arrivals| ==> ValidArrival(arrivals[i])
    requires arrivals[n].reserved && Ordinary(arrivals[n].p.data, version, ihl)
    requires 0x100 <= host.table <= 0x100_0000
    requires RingAt(host.order, arrivals, m).count <= RingAt(host.order, arrivals, n).count + SLOTS
    ensures var c := RingAt(host.order, arrivals, n).count;
            HandleEvent(host, RingAt(host.order, arrivals, m).mem, Base(c)) == Expected(host, arrivals[n].p, ihl)
  {
    var c := RingAt(host.order, arrivals, n).count;
    NthPrints(host, arrivals, n, version, ihl);
    RecordStays(host.order, arrivals, n + 1, m, c);
    ReadLater(host, RingAt(host.order, arrivals, n + 1), RingAt(host.order, arrivals, m), c,
              Expected(host, arrivals[n].p, ihl));
  }

  // ---------- the consumer as it is written ----------

  const NUL := 0 as char

  /** The string that starts a buffer, as `printf` reads it. */
  function Text(buf: seq<char>): string {
    if buf == [] || buf[0] == NUL then "" else [buf[0]] + Text(buf[1..])
  }

  lemma {:induction false} TextOf(text: string, rest: seq<char>)
    requires NUL !in text
    ensures Text(text + [NUL] + rest) == text
  {
    if text != "" {
      TextOf(text[1..], rest);
      assert (text + [NUL] + rest)[1..] == text[1..] + [NUL] + rest;
    }
  }

  lemma {:induction false} DecHasNoNul(n: nat)
    ensures NUL !in Dec(n)
  {
    if 10 <= n {
      DecHasNoNul(n / 10);
    }
  }

  lemma AddrTextHasNoNul(addr: nat)
    ensures NUL !in Truncated(AddrText(addr))
  {
    DecHasNoNul(addr / 0x100_0000 % 0x100);
    DecHasNoNul(addr / 0x1_0000 % 0x100);
    DecHasNoNul(addr / 0x100 % 0x100);
    DecHasNoNul(addr % 0x100);
  }

  lemma {:induction false} BigEndianBound(b: seq<byte>)
    ensures BigEndian(b) < Pow256(|b|)
  {
    if b != [] {
      BigEndianBound(b[..|b| - 1]);
    }
  }

  /** A buffer that a text was printed into reads back as that text. */
  lemma BufferReadsBack(buf: seq<char>, text: string)
    requires |text| < |buf| && buf[..|text|] == text && buf[|text|] == NUL && NUL !in text
    ensures Text(buf) == text
  {
    assert buf == text + [NUL] + buf[|text| + 1..];
    TextOf(text, buf[|text| + 1..]);
  }

  lemma AddressFits(order: ByteOrder, b: seq<byte>)
    requires |b| == 4
    ensures 0 <= NetToHost(order, Word(order, b), 4) < TWO_32
  {
    NetworkOrderIsPortable(order, b);
    BigEndianBound(b);
    assert Pow256(2) == 0x10000;
  }

  /** The address at `at` as text, through the 16-byte buffer of the handler. */
  method AddressText(order: ByteOrder, mem: Memory, at: nat) returns (text: string)
    requires at + 4 <= RING_SIZE
    ensures text == AddrAt(order, mem, at)
  {
    var str := new char[ADDR_BUF](i => NUL);
    AddressFits(order, Field(mem, at, 4));
    var addr := NetToHost(order, Word(order, Field(mem, at, 4)), 4);
    Ltoa(addr, str);
    text := Text(str[..]);
    AddrTextHasNoNul(addr);
    BufferReadsBack(str[..], Truncated(AddrText(addr)));
  }

  /** The ring callback for the record at `base`. */
  method HandleRecord(host: Host, mem: Memory, base: nat) returns (line: Option<Line>)
    requires base + RECORD <= RING_SIZE
    ensures line == HandleEvent(host, mem, base)
  {
    var e, o := base + HEADER, host.order;
    if Word(o, Field(mem, e + PKT_TYPE, 4)) != PACKET_HOST {
      return None;
    }
    var proto := Word(o, Field(mem, e + PROTO, 4));
    if host.table <= proto {
      return None;
    }
    var ifindex := Word(o, Field(mem, e + IFINDEX, 4));
    if TWO_32 <= ifindex || host.names(ifindex).None? {
      return None;
    }
    var sstr := AddressText(o, mem, e + SRC);
    var dstr := AddressText(o, mem, e + DST);
    var sport := NetToHost(o, Word(o, Field(mem, e + PORTS, 2)), 2);
    var dport := NetToHost(o, Word(o, Field(mem, e + PORTS + 2, 2)), 2);
    line := Some(Line(host.names(ifindex).value, proto, sstr, sport, dstr, dport));
  }
}
