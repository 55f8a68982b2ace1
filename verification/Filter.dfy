// The packet checks: what may pass between the Internet and the campus.
module Filter {
  import opened AccessLists
  import opened NetworkStore
  import opened NetworkTables

  const MAX_NUM_ALLOW_ENTRIES: nat := 8
  const MAX_NUM_REJECT_ENTRIES: nat := 32

  type Address = x: nat | x < 0x1_0000_0000
  type Port = x: nat | x < 0x1_0000
  type Nibble = x: nat | x < 16

  datatype RejectEntry = RejectEntry(network: bv32, mask: bv32)
  datatype AllowEntry = AllowEntry(network: bv32, mask: bv32, access: seq<Range>)

  datatype Config = Config(denyMulticast: bool, discardOther: bool, discardOtherIp: bool, discardSuspectOffset: bool)

  // Everything but the networks that a decision depends on.
  datatype Rules = Rules(
    inList: seq<Range>,
    outList: seq<Range>,
    sourceList: seq<Range>,
    udpList: seq<Range>,
    allow: seq<AllowEntry>,
    reject: seq<RejectEntry>,
    config: Config)

  // Every class's list, and every allow entry's, ends somewhere in its table.
  ghost predicate RulesOk(r: Rules) {
    && (forall c {:trigger Base(c)} :: 0 <= c < MAX_NUM_ACCESS_LISTS ==>
          && Terminated(r.inList, Base(c)) && Terminated(r.outList, Base(c))
          && Terminated(r.sourceList, Base(c)) && Terminated(r.udpList, Base(c)))
    && |r.allow| == MAX_NUM_ALLOW_ENTRIES && |r.reject| == MAX_NUM_REJECT_ENTRIES
    && (forall i {:trigger r.allow[i]} :: 0 <= i < |r.allow| ==> Terminated(r.allow[i].access, 0))
  }

  function Base(c: nat): nat { c * MAX_NUM_ACCESS_RANGES }

  // ----- Decisions, given the class of the campus host

  predicate TcpIn(r: Rules, c: Byte, dst: Address, srcPort: Port, dstPort: Port)
    requires RulesOk(r)
  {
    if IsClassD(dst) then !r.config.denyMulticast
    else Scan(r.inList, Base(c), dstPort) || (dstPort > 900 && Scan(r.sourceList, Base(c), srcPort))
  }

  predicate UdpIn(r: Rules, c: Byte, dst: Address, dstPort: Port)
    requires RulesOk(r)
  {
    if IsClassD(dst) then !r.config.denyMulticast else Scan(r.udpList, Base(c), dstPort)
  }

  predicate UdpOut(r: Rules, dst: Address) {
    IsClassD(dst) ==> !r.config.denyMulticast
  }

  predicate Covers(network: bv32, mask: bv32, a: Address) {
    network & mask == (a as bv32) & mask
  }

  // The allow entry that decides for `dst`: the first, from `i` on, that covers it,
  // none if an unused entry comes first.
  function AllowIndex(allow: seq<AllowEntry>, dst: Address, i: nat): (k: nat)
    requires i <= |allow|
    ensures i <= k <= |allow|
    ensures k < |allow| && allow[k].network != 0 ==> Covers(allow[k].network, allow[k].mask, dst)
    ensures forall j :: i <= j < k ==> allow[j].network != 0 && !Covers(allow[j].network, allow[j].mask, dst)
    decreases |allow| - i
  {
    if i == |allow| || allow[i].network == 0 || Covers(allow[i].network, allow[i].mask, dst) then i
    else AllowIndex(allow, dst, i + 1)
  }

  predicate Allowed(r: Rules, dst: Address, dstPort: Port)
    requires RulesOk(r)
  {
    var k := AllowIndex(r.allow, dst, 0);
    k < |r.allow| && r.allow[k].network != 0 && Scan(r.allow[k].access, 0, dstPort)
  }

  predicate TcpOut(r: Rules, c: Byte, dst: Address, dstPort: Port)
    requires RulesOk(r)
  {
    if IsClassD(dst) then !r.config.denyMulticast
    else Scan(r.outList, Base(c), dstPort) || Allowed(r, dst, dstPort)
  }

  predicate Rejected(reject: seq<RejectEntry>, src: Address, i: nat)
    requires i <= |reject|
    decreases |reject| - i
  {
    i < |reject| && reject[i].network != 0 &&
    (Covers(reject[i].network, reject[i].mask, src) || Rejected(reject, src, i + 1))
  }

  // ----- Whole packets, with decoded headers

  const TCP_PROT: nat := 6
  const UDP_PROT: nat := 17
  const ICMP_PROT: nat := 1

  datatype Packet =
    | Ip(offset: nat, protocol: nat, src: Address, dst: Address, ipLen: Port, headerWords: Nibble,
         srcPort: Port, dstPort: Port, syn: bool, ack: bool)
    | Arp
    | Rarp
    | OtherProtocol

  // The IP packet is longer than what arrived, or leaves less than `min` bytes for
  // the transport header; the subtraction is on 16-bit unsigned words.
  predicate TooShort(p: Packet, length: nat, min: nat)
    requires p.Ip?
  {
    p.ipLen > length || (p.ipLen - 4 * p.headerWords) % 0x10000 < min
  }

  // `c` is the class of the destination.
  predicate IncomingPacket(r: Rules, c: Byte, p: Packet, length: nat)
    requires RulesOk(r)
  {
    match p
    case Ip(offset, protocol, src, dst, _, _, srcPort, dstPort, syn, ack) =>
      if offset != 0 then !(r.config.discardSuspectOffset && offset == 1 && protocol == TCP_PROT)
      else if Rejected(r.reject, src, 0) then false
      else if protocol == TCP_PROT then !TooShort(p, length, 14) && (syn && !ack ==> TcpIn(r, c, dst, srcPort, dstPort))
      else if protocol == UDP_PROT then !TooShort(p, length, 4) && UdpIn(r, c, dst, dstPort)
      else protocol == ICMP_PROT || !r.config.discardOtherIp
    case Arp => true
    case Rarp => true
    case OtherProtocol => !r.config.discardOther
  }

  // `c` is the class of the source.
  predicate OutgoingPacket(r: Rules, c: Byte, p: Packet, length: nat)
    requires RulesOk(r)
  {
    match p
    case Ip(offset, protocol, src, dst, _, _, srcPort, dstPort, syn, ack) =>
      if offset != 0 then !(r.config.discardSuspectOffset && offset == 1 && protocol == TCP_PROT)
      else if protocol == TCP_PROT then !TooShort(p, length, 14) && (syn && !ack ==> TcpOut(r, c, dst, dstPort))
      else if protocol == UDP_PROT then !TooShort(p, length, 4) && UdpOut(r, dst)
      else protocol == ICMP_PROT || !r.config.discardOtherIp
    case Arp => true
    case Rarp => true
    case OtherProtocol => !r.config.discardOther
  }

  // ----- The code

  class Checks {
    const tables: Tables
    const inList: array<Range>
    const outList: array<Range>
    const sourceList: array<Range>
    const udpList: array<Range>
    const allowTable: array<AllowEntry>
    const rejectTable: array<RejectEntry>
    const config: Config
    var outsideFiltered: nat
    var insideFiltered: nat

    ghost function RulesValue(): Rules
      reads inList, outList, sourceList, udpList, allowTable, rejectTable
    {
      Rules(inList[..], outList[..], sourceList[..], udpList[..], allowTable[..], rejectTable[..], config)
    }

    ghost predicate Valid()
      reads this, inList, outList, sourceList, udpList, allowTable, rejectTable
      reads tables, tables.addrTable, tables.newAddrTable, tables.networkCache
    {
      RulesOk(RulesValue()) && tables.Valid() && Owned(tables.Value()) && CacheOk(tables.Value())
    }

    constructor (tables: Tables, inList: array<Range>, outList: array<Range>, sourceList: array<Range>,
                 udpList: array<Range>, allowTable: array<AllowEntry>, rejectTable: array<RejectEntry>, config: Config)
      ensures this.tables == tables
      ensures RulesValue() ==
        Rules(inList[..], outList[..], sourceList[..], udpList[..], allowTable[..], rejectTable[..], config)
    {
      this.tables := tables;
      this.inList, this.outList, this.sourceList, this.udpList := inList, outList, sourceList, udpList;
      this.allowTable, this.rejectTable, this.config := allowTable, rejectTable, config;
      outsideFiltered, insideFiltered := 0, 0;
    }

    // The range scan shared by every check.
    static method Search(list: seq<Range>, start: nat, port: Port) returns (ok: bool)
      requires Terminated(list, start)
      ensures ok == Scan(list, start, port)
    {
      var i := start;
      while port > list[i].end
        invariant Terminated(list, i) && Scan(list, start, port) == Scan(list, i, port)
        decreases |list| - i
      {
        if list[i].begin == 0 {
          return false;
        }
        i := i + 1;
      }
      return port >= list[i].begin;
    }

    // The cached lookup, seen as the class of a host.
    method Lookup(host: Address, now: nat) returns (c: Byte)
      requires Valid()
      modifies tables`cacheAccesses, tables`cacheMisses, tables.networkCache
      ensures Valid() && c == Classify(old(tables.Value()), host)
      ensures forall h :: Classify(tables.Value(), h) == Classify(old(tables.Value()), h)
    {
      LookupIsTransparent(tables.Value(), host, now);
      c := tables.NetworkCacheLookup(host, now);
    }

    method CheckIncomingTcp(src: Address, dst: Address, srcPort: Port, dstPort: Port, now: nat) returns (pass: bool)
      requires Valid()
      modifies tables`cacheAccesses, tables`cacheMisses, tables.networkCache
      ensures Valid() && pass == TcpIn(RulesValue(), Classify(old(tables.Value()), dst), dst, srcPort, dstPort)
      ensures forall h :: Classify(tables.Value(), h) == Classify(old(tables.Value()), h)
    {
      if IsClassD(dst) {
        return !config.denyMulticast;
      }
      var c := Lookup(dst, now);
      assert Terminated(RulesValue().inList, Base(c)) && Terminated(RulesValue().sourceList, Base(c));
      pass := Search(inList[..], Base(c), dstPort);
      if !pass && dstPort > 900 {
        pass := Search(sourceList[..], Base(c), srcPort);
      }
    }

    method CheckOutgoingTcp(src: Address, dst: Address, srcPort: Port, dstPort: Port, now: nat) returns (pass: bool)
      requires Valid()
      modifies tables`cacheAccesses, tables`cacheMisses, tables.networkCache
      ensures Valid() && pass == TcpOut(RulesValue(), Classify(old(tables.Value()), src), dst, dstPort)
      ensures forall h :: Classify(tables.Value(), h) == Classify(old(tables.Value()), h)
    {
      if IsClassD(dst) {
        return !config.denyMulticast;
      }
      var c := Lookup(src, now);
      assert Terminated(RulesValue().outList, Base(c));
      pass := Search(outList[..], Base(c), dstPort);
      if !pass {
        pass := CheckAllow(dst, dstPort);
      }
    }

    // The allow list, consulted when the class does not grant the port.
    method CheckAllow(dst: Address, dstPort: Port) returns (pass: bool)
      requires RulesOk(RulesValue())
      ensures pass == Allowed(RulesValue(), dst, dstPort)
    {
      ghost var allow := allowTable[..];
      var i := 0;
      while i < MAX_NUM_ALLOW_ENTRIES && allowTable[i].network != 0
        invariant i <= MAX_NUM_ALLOW_ENTRIES == allowTable.Length
        invariant AllowIndex(allow, dst, 0) == AllowIndex(allow, dst, i)
      {
        if Covers(allowTable[i].network, allowTable[i].mask, dst) {
          break;
        }
        i := i + 1;
      }
      if i < MAX_NUM_ALLOW_ENTRIES && allowTable[i].network != 0 {
        assert Terminated(RulesValue().allow[i].access, 0);
        pass := Search(allowTable[i].access, 0, dstPort);
      } else {
        pass := false;
      }
    }

    method CheckIncomingUdp(src: Address, dst: Address, srcPort: Port, dstPort: Port, now: nat) returns (pass: bool)
      requires Valid()
      modifies tables`cacheAccesses, tables`cacheMisses, tables.networkCache
      ensures Valid() && pass == UdpIn(RulesValue(), Classify(old(tables.Value()), dst), dst, dstPort)
      ensures forall h :: Classify(tables.Value(), h) == Classify(old(tables.Value()), h)
    {
      if IsClassD(dst) {
        return !config.denyMulticast;
      }
      var c := Lookup(dst, now);
      assert Terminated(RulesValue().udpList, Base(c));
      pass := Search(udpList[..], Base(c), dstPort);
    }

    method CheckReject(src: Address) returns (rejected: bool)
      requires RulesOk(RulesValue())
      ensures rejected == Rejected(RulesValue().reject, src, 0)
    {
      ghost var reject := rejectTable[..];
      var i := 0;
      while i < MAX_NUM_REJECT_ENTRIES && rejectTable[i].network != 0
        invariant i <= MAX_NUM_REJECT_ENTRIES == rejectTable.Length
        invariant Rejected(reject, src, 0) == Rejected(reject, src, i)
      {
        if Covers(rejectTable[i].network, rejectTable[i].mask, src) {
          break;
        }
        i := i + 1;
      }
      rejected := i < MAX_NUM_REJECT_ENTRIES && rejectTable[i].network != 0;
    }

    ghost function ClassOfDst(p: Packet): Byte
      requires Valid()
      reads this, inList, outList, sourceList, udpList, allowTable, rejectTable
      reads tables, tables.addrTable, tables.newAddrTable, tables.networkCache
    {
      if p.Ip? then Classify(tables.Value(), p.dst) else 0
    }

    ghost function ClassOfSrc(p: Packet): Byte
      requires Valid()
      reads this, inList, outList, sourceList, udpList, allowTable, rejectTable
      reads tables, tables.addrTable, tables.newAddrTable, tables.networkCache
    {
      if p.Ip? then Classify(tables.Value(), p.src) else 0
    }

    // A packet from the Internet.
    method CheckIncomingPacket(p: Packet, length: nat, now: nat) returns (pass: bool)
      requires Valid()
      modifies tables`cacheAccesses, tables`cacheMisses, tables.networkCache, this`outsideFiltered
      ensures Valid() && pass == IncomingPacket(RulesValue(), old(ClassOfDst(p)), p, length)
      ensures outsideFiltered == (if pass then old(outsideFiltered) else (old(outsideFiltered) + 1) % DWORD)
      ensures forall h :: Classify(tables.Value(), h) == Classify(old(tables.Value()), h)
    {
      pass := true;
      match p {
        case Ip(offset, protocol, src, dst, _, _, srcPort, dstPort, syn, ack) =>
          if offset != 0 {
            if config.discardSuspectOffset && offset == 1 && protocol == TCP_PROT {
              pass := false;
            } else {
              return true;
            }
          } else {
            var rejected := CheckReject(src);
            if rejected {
              pass := false;
            } else if protocol == TCP_PROT {
              if TooShort(p, length, 14) {
                pass := false;
              } else if syn && !ack {
                pass := CheckIncomingTcp(src, dst, srcPort, dstPort, now);
              }
            } else if protocol == UDP_PROT {
              if TooShort(p, length, 4) {
                pass := false;
              } else {
                pass := CheckIncomingUdp(src, dst, srcPort, dstPort, now);
              }
            } else if protocol != ICMP_PROT && config.discardOtherIp {
              pass := false;
            }
          }
        case Arp =>
        case Rarp =>
        case OtherProtocol => pass := !config.discardOther;
      }
      if !pass {
        outsideFiltered := (outsideFiltered + 1) % DWORD;
      }
    }

    // A packet from the campus.
    method CheckOutgoingPacket(p: Packet, length: nat, now: nat) returns (pass: bool)
      requires Valid()
      modifies tables`cacheAccesses, tables`cacheMisses, tables.networkCache, this`insideFiltered
      ensures Valid() && pass == OutgoingPacket(RulesValue(), old(ClassOfSrc(p)), p, length)
      ensures insideFiltered == (if pass then old(insideFiltered) else (old(insideFiltered) + 1) % DWORD)
      ensures forall h :: Classify(tables.Value(), h) == Classify(old(tables.Value()), h)
    {
      pass := true;
      match p {
        case Ip(offset, protocol, src, dst, _, _, srcPort, dstPort, syn, ack) =>
          if offset != 0 {
            if config.discardSuspectOffset && offset == 1 && protocol == TCP_PROT {
              pass := false;
            } else {
              return true;
            }
          } else if protocol == TCP_PROT {
            if TooShort(p, length, 14) {
              pass := false;
            } else if syn && !ack {
              pass := CheckOutgoingTcp(src, dst, srcPort, dstPort, now);
            }
          } else if protocol == UDP_PROT {
            pass := !TooShort(p, length, 4) && (IsClassD(dst) ==> !config.denyMulticast);
          } else if protocol != ICMP_PROT && config.discardOtherIp {
            pass := false;
          }
        case Arp =>
        case Rarp =>
        case OtherProtocol => pass := !config.discardOther;
      }
      if !pass {
        insideFiltered := (insideFiltered + 1) % DWORD;
      }
    }
  }
}
