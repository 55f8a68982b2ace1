// The policy that the packet checks carry out, in terms of port ranges, reject and
// allow entries, and the class of the campus host: for every packet, both ways.
module FilterPolicy {
  import opened AccessLists
  import opened Filter
  import opened NetworkModel
  import NetworkRuns
  import opened NetworkStore

  // Lists that are sorted, end in two zeros and grant something or nothing, never
  // port 0.
  ghost predicate ListOk(list: seq<Range>, i: nat) {
    Terminated(list, i) && Sorted(list, i) && list[ListEnd(list, i)] == NO_RANGE
  }

  ghost predicate Policy(r: Rules)
  {
    && RulesOk(r)
    && (forall c {:trigger Base(c)} :: 0 <= c < MAX_NUM_ACCESS_LISTS ==>
          && ListOk(r.inList, Base(c)) && ListOk(r.outList, Base(c))
          && ListOk(r.sourceList, Base(c)) && ListOk(r.udpList, Base(c)))
    && (forall i {:trigger r.allow[i]} :: 0 <= i < |r.allow| ==> ListOk(r.allow[i].access, 0))
  }

  // The list that starts at `i` grants the port: it is in one of the ranges, or it is
  // port 0 and there are none.
  ghost predicate Grants(list: seq<Range>, i: nat, port: Port)
    requires Terminated(list, i)
  {
    InRanges(list, i, port) || (port == 0 && list[i].begin == 0)
  }

  lemma ScanGrants(list: seq<Range>, i: nat, port: Port)
    requires ListOk(list, i)
    ensures Scan(list, i, port) <==> Grants(list, i, port)
  {
    ZeroPort(list, i, port);
    assert list[i].begin == 0 <==> ListEnd(list, i) == i;
  }

  // A class is granted no traffic at all by four empty lists, except to port 0,
  // which an empty list lets through.
  lemma EmptyListGrantsPortZero(list: seq<Range>, i: nat, port: nat)
    requires i < |list| && list[i] == NO_RANGE
    ensures Terminated(list, i) && (Scan(list, i, port) <==> port == 0)
  {
  }

  // ----- Connections and datagrams

  // The incoming TCP decision: a multicast destination unless multicast is denied;
  // otherwise the destination port is in the class's ranges, or it is above 900 and
  // the source port is in the class's source ranges.
  ghost predicate MayConnectIn(r: Rules, c: Byte, dst: Address, srcPort: Port, dstPort: Port)
    requires RulesOk(r)
  {
    (IsClassD(dst) ==> !r.config.denyMulticast) &&
    (!IsClassD(dst) ==>
       Grants(r.inList, Base(c), dstPort) || (dstPort > 900 && Grants(r.sourceList, Base(c), srcPort)))
  }

  lemma TcpInIsPolicy(r: Rules, c: Byte, dst: Address, srcPort: Port, dstPort: Port)
    requires Policy(r)
    ensures TcpIn(r, c, dst, srcPort, dstPort) <==> MayConnectIn(r, c, dst, srcPort, dstPort)
  {
    ScanGrants(r.inList, Base(c), dstPort);
    ScanGrants(r.sourceList, Base(c), srcPort);
  }

  // The incoming UDP decision.
  ghost predicate MaySendIn(r: Rules, c: Byte, dst: Address, dstPort: Port)
    requires RulesOk(r)
  {
    (IsClassD(dst) ==> !r.config.denyMulticast) && (!IsClassD(dst) ==> Grants(r.udpList, Base(c), dstPort))
  }

  lemma UdpInIsPolicy(r: Rules, c: Byte, dst: Address, dstPort: Port)
    requires Policy(r)
    ensures UdpIn(r, c, dst, dstPort) <==> MaySendIn(r, c, dst, dstPort)
  {
    ScanGrants(r.udpList, Base(c), dstPort);
  }

  // `k` is the first allow entry that covers `dst`, with none unused before it.
  ghost predicate FirstCovering(allow: seq<AllowEntry>, dst: Address, k: nat) {
    && k < |allow| && allow[k].network != 0 && Covers(allow[k].network, allow[k].mask, dst)
    && forall j :: 0 <= j < k ==> allow[j].network != 0 && !Covers(allow[j].network, allow[j].mask, dst)
  }

  // The outgoing TCP decision: as inwards for multicast; otherwise the destination
  // port is in the class's ranges, or in those of the first allow entry that covers
  // the destination.
  ghost predicate MayConnectOut(r: Rules, c: Byte, dst: Address, dstPort: Port)
    requires RulesOk(r)
  {
    (IsClassD(dst) ==> !r.config.denyMulticast) &&
    (!IsClassD(dst) ==>
       || Grants(r.outList, Base(c), dstPort)
       || exists k: nat {:trigger FirstCovering(r.allow, dst, k)} ::
            FirstCovering(r.allow, dst, k) && Grants(r.allow[k].access, 0, dstPort))
  }

  lemma TcpOutIsPolicy(r: Rules, c: Byte, dst: Address, dstPort: Port)
    requires Policy(r)
    ensures TcpOut(r, c, dst, dstPort) <==> MayConnectOut(r, c, dst, dstPort)
  {
    ScanGrants(r.outList, Base(c), dstPort);
    var k := AllowIndex(r.allow, dst, 0);
    if k < |r.allow| && r.allow[k].network != 0 {
      ScanGrants(r.allow[k].access, 0, dstPort);
      assert FirstCovering(r.allow, dst, k);
    }
    forall j: nat {:trigger r.allow[j]} | FirstCovering(r.allow, dst, j)
      ensures j == k
    {
      assert r.allow[j].network != 0;
    }
  }

  // Entry `k` covers `src` and no entry from `i` to `k` is unused.
  ghost predicate RejectedAt(reject: seq<RejectEntry>, src: Address, i: nat, k: nat) {
    && i <= k < |reject| && Covers(reject[k].network, reject[k].mask, src)
    && forall j :: i <= j <= k ==> reject[j].network != 0
  }

  // The reject scan: some entry covers the source, with no unused entry before it.
  lemma {:induction false} RejectedIsCovered(reject: seq<RejectEntry>, src: Address, i: nat)
    requires i <= |reject|
    ensures Rejected(reject, src, i) <==> exists k: nat :: RejectedAt(reject, src, i, k)
    decreases |reject| - i
  {
    if i < |reject| {
      RejectedIsCovered(reject, src, i + 1);
      if k: nat :| RejectedAt(reject, src, i, k) {
        assert k > i ==> RejectedAt(reject, src, i + 1, k);
      }
      if Rejected(reject, src, i) {
        if Covers(reject[i].network, reject[i].mask, src) {
          assert RejectedAt(reject, src, i, i);
        } else {
          var k: nat :| RejectedAt(reject, src, i + 1, k);
          assert RejectedAt(reject, src, i, k);
        }
      }
    }
  }

  // ----- Whole packets

  // The packet is shorter than it says, or its header leaves fewer than `min` bytes.
  predicate Truncated(p: Packet, length: nat, min: nat)
    requires p.Ip?
  {
    length < p.ipLen || 4 * p.headerWords <= p.ipLen < 4 * p.headerWords + min
  }

  // The test of the lengths finds exactly the truncated packets. One whose header
  // claims to be longer than the packet is not found: the difference wraps around.
  lemma TooShortIsTruncated(p: Packet, length: nat, min: nat)
    requires p.Ip? && min <= 0x1_0000 - 60
    ensures TooShort(p, length, min) <==> Truncated(p, length, min)
  {
  }

  // A second fragment that could overwrite TCP flags.
  predicate Suspect(p: Packet) { p.Ip? && p.offset == 1 && p.protocol == TCP_PROT }

  // An IP packet that begins with its transport header.
  predicate First(p: Packet) { p.Ip? && p.offset == 0 }

  predicate Opens(p: Packet)
    requires p.Ip?
  {
    p.syn && !p.ack
  }

  ghost predicate Banned(r: Rules, src: Address) {
    exists k: nat {:trigger RejectedAt(r.reject, src, 0, k)} :: RejectedAt(r.reject, src, 0, k)
  }

  // Why a packet from the Internet to a host of class `c` is dropped.
  ghost predicate DropsIn(r: Rules, c: Byte, p: Packet, length: nat)
    requires RulesOk(r)
  {
    || (Suspect(p) && r.config.discardSuspectOffset)
    || (First(p) && Banned(r, p.src))
    || (First(p) && p.protocol == TCP_PROT && Truncated(p, length, 14))
    || (First(p) && p.protocol == TCP_PROT && Opens(p) && !MayConnectIn(r, c, p.dst, p.srcPort, p.dstPort))
    || (First(p) && p.protocol == UDP_PROT && Truncated(p, length, 4))
    || (First(p) && p.protocol == UDP_PROT && !MaySendIn(r, c, p.dst, p.dstPort))
    || (First(p) && p.protocol !in {TCP_PROT, UDP_PROT, ICMP_PROT} && r.config.discardOtherIp)
    || (p.OtherProtocol? && r.config.discardOther)
  }

  // Why a packet to the Internet from a host of class `c` is dropped.
  ghost predicate DropsOut(r: Rules, c: Byte, p: Packet, length: nat)
    requires RulesOk(r)
  {
    || (Suspect(p) && r.config.discardSuspectOffset)
    || (First(p) && p.protocol == TCP_PROT && Truncated(p, length, 14))
    || (First(p) && p.protocol == TCP_PROT && Opens(p) && !MayConnectOut(r, c, p.dst, p.dstPort))
    || (First(p) && p.protocol == UDP_PROT && Truncated(p, length, 4))
    || (First(p) && p.protocol == UDP_PROT && IsClassD(p.dst) && r.config.denyMulticast)
    || (First(p) && p.protocol !in {TCP_PROT, UDP_PROT, ICMP_PROT} && r.config.discardOtherIp)
    || (p.OtherProtocol? && r.config.discardOther)
  }

  // Every packet is passed unless there is a reason to drop it.
  lemma IncomingIsPolicy(r: Rules, c: Byte, p: Packet, length: nat)
    requires Policy(r)
    ensures IncomingPacket(r, c, p, length) <==> !DropsIn(r, c, p, length)
  {
    if First(p) {
      RejectedIsCovered(r.reject, p.src, 0);
      TooShortIsTruncated(p, length, 14);
      TooShortIsTruncated(p, length, 4);
      TcpInIsPolicy(r, c, p.dst, p.srcPort, p.dstPort);
      UdpInIsPolicy(r, c, p.dst, p.dstPort);
    }
  }

  lemma OutgoingIsPolicy(r: Rules, c: Byte, p: Packet, length: nat)
    requires Policy(r)
    ensures OutgoingPacket(r, c, p, length) <==> !DropsOut(r, c, p, length)
  {
    if First(p) {
      TooShortIsTruncated(p, length, 14);
      TooShortIsTruncated(p, length, 4);
      TcpOutIsPolicy(r, c, p.dst, p.dstPort);
    }
  }

  // An open connection carries on, whatever the classes: a TCP packet that does not
  // open one comes in exactly when no reject entry covers its source and it is whole,
  // and goes out exactly when it is whole.
  lemma ConnectionsCarryOn(r: Rules, c: Byte, p: Packet, length: nat)
    requires RulesOk(r) && First(p) && p.protocol == TCP_PROT && !Opens(p)
    ensures IncomingPacket(r, c, p, length) <==>
      !(exists k: nat {:trigger RejectedAt(r.reject, p.src, 0, k)} :: RejectedAt(r.reject, p.src, 0, k)) &&
      !Truncated(p, length, 14)
    ensures OutgoingPacket(r, c, p, length) <==> !Truncated(p, length, 14)
  {
    RejectedIsCovered(r.reject, p.src, 0);
    TooShortIsTruncated(p, length, 14);
  }

  // ----- Through the cached lookup

  // The class the cached lookup gives for `host`, and the class the maps give.
  lemma LookedUp(s: Store, m: Model, host: Address, now: nat)
    requires Represents(s, m)
    ensures Lookup(s, host, now).1 == ClassOf(m, host)
  {
    LookupIsTransparent(s, host, now);
    LookupIsMap(s, m, host);
  }

  // Whatever the cache holds, a packet from the Internet is decided by the class
  // that the loaded networks give its destination, and one from the campus by that
  // of its source.
  lemma PacketsFollowPolicy(r: Rules, s: Store, m: Model, p: Packet, length: nat, now: nat)
    requires Policy(r) && Represents(s, m) && p.Ip?
    ensures IncomingPacket(r, Lookup(s, p.dst, now).1, p, length) <==> !DropsIn(r, ClassOf(m, p.dst), p, length)
    ensures OutgoingPacket(r, Lookup(s, p.src, now).1, p, length) <==> !DropsOut(r, ClassOf(m, p.src), p, length)
  {
    LookedUp(s, m, p.dst, now);
    LookedUp(s, m, p.src, now);
    IncomingIsPolicy(r, ClassOf(m, p.dst), p, length);
    OutgoingIsPolicy(r, ClassOf(m, p.src), p, length);
  }

  // After any run of lookups, loads and releases, every packet is decided as the
  // policy says of the class that the two maps give after the same run; packets that
  // are not IP are decided without a class.
  lemma RunsFollowPolicy(
      r: Rules, s: Store, m: Model, ops: seq<NetworkRuns.Op>, p: Packet, length: nat, now: nat, c: Byte)
    requires Policy(r) && Represents(s, m) && NetworkRuns.WholeBlocks(ops) && RunEnabled(s, m, ops)
    ensures NetworkRuns.RunAllowed(s, ops)
    ensures Owned(NetworkRuns.EndStore(s, ops)) && CacheOk(NetworkRuns.EndStore(s, ops))
    ensures var t, e := NetworkRuns.EndStore(s, ops), EndModel(m, ops);
      if p.Ip? then
        && (IncomingPacket(r, Lookup(t, p.dst, now).1, p, length) <==> !DropsIn(r, ClassOf(e, p.dst), p, length))
        && (OutgoingPacket(r, Lookup(t, p.src, now).1, p, length) <==> !DropsOut(r, ClassOf(e, p.src), p, length))
      else
        && (IncomingPacket(r, c, p, length) <==> !(p.OtherProtocol? && r.config.discardOther))
        && (OutgoingPacket(r, c, p, length) <==> !(p.OtherProtocol? && r.config.discardOther))
  {
    NetworkModel.RunIsMap(s, m, ops);
    if p.Ip? {
      PacketsFollowPolicy(r, NetworkRuns.EndStore(s, ops), EndModel(m, ops), p, length, now);
    }
  }
}
