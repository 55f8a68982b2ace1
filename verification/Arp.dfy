// The ARP table: who owns the packets that wait for an address.
module Arp {
  import opened Bridge
  import opened LinearProbing
  import P = Potp

  const ARP_TABLE_SIZE: nat := 16
  const ARP_ENTRY_TIMEOUT: int := 3600
  const ARP_ENTRY_RETRY_TIMEOUT: int := 2
  const ARP_RETRIES: nat := 3
  const ARP_TIMER_GRANULARITY: int := 1

  type Ip = bv32
  type Packet = seq<bv8>

  datatype EntryState = Unused | Valid | Pending

  // `pendingPacket` names an allocated block; 0 is the null pointer. It keeps its
  // old value after the block is freed.
  datatype ArpEntry = ArpEntry(
    state: EntryState, ipAddress: Ip, hardwareAddress: HwAddr,
    pendingPacket: nat, timeToLive: int, retries: nat)

  // The table and the allocated blocks. Blocks are named in order of allocation.
  datatype Arp = Arp(table: seq<ArpEntry>, heap: map<nat, Packet>, next: nat)

  // What the code does towards the outside, with the frees and the "pending packet
  // missing" and "ran out of arp entries" branches made visible.
  datatype Event =
    | Sent(to: HwAddr, packet: Packet)
    | Asked(dest: Ip)
    | Answered(to: HwAddr)
    | Freed(block: nat)
    | BadFree(block: nat)
    | Missing
    | OutOfEntries

  // ----- The operations

  predicate Matches(e: ArpEntry, ip: Ip) { e.state != Unused && e.ipAddress == ip }

  // arpLookupIp, from slot `i` on.
  function LookupIp(table: seq<ArpEntry>, ip: Ip, i: nat): (r: Option<nat>)
    requires i <= |table|
    ensures r.Some? ==> i <= r.value < |table| && Matches(table[r.value], ip)
    ensures forall j {:trigger table[j]} :: i <= j < (if r.Some? then r.value else |table|) ==> !Matches(table[j], ip)
    decreases |table| - i
  {
    if i == |table| then None
    else if Matches(table[i], ip) then Some(i)
    else LookupIp(table, ip, i + 1)
  }

  // arpAdd, from slot `i` on.
  function UnusedSlot(table: seq<ArpEntry>, i: nat): (r: Option<nat>)
    requires i <= |table|
    ensures r.Some? ==> i <= r.value < |table| && table[r.value].state == Unused
    ensures forall j {:trigger table[j]} ::
      i <= j < (if r.Some? then r.value else |table|) ==> table[j].state != Unused
    decreases |table| - i
  {
    if i == |table| then None
    else if table[i].state == Unused then Some(i)
    else UnusedSlot(table, i + 1)
  }

  function Put(s: Arp, i: nat, e: ArpEntry): Arp
    requires i < |s.table|
  {
    s.(table := s.table[i := e])
  }

  function Free(s: Arp, block: nat): (Arp, seq<Event>) {
    if block in s.heap then (s.(heap := s.heap - {block}), [Freed(block)])
    else (s, [BadFree(block)])
  }

  // Make entry `e` pending on a copy of `packet`.
  function Hold(s: Arp, i: nat, e: ArpEntry, packet: Packet): Arp
    requires i < |s.table|
  {
    Arp(s.table[i := e.(state := Pending, pendingPacket := s.next, timeToLive := ARP_ENTRY_RETRY_TIMEOUT)],
        s.heap[s.next := packet], s.next + 1)
  }

  // sendvIp, once the next hop is known.
  function SendIp(s: Arp, dest: Ip, packet: Packet): (Arp, seq<Event>)
    requires |s.table| == ARP_TABLE_SIZE
  {
    var slot := LookupIp(s.table, dest, 0);
    if slot.Some? then
      var e := s.table[slot.value];
      if e.state == Valid then
        (Put(s, slot.value, e.(timeToLive := ARP_ENTRY_TIMEOUT)), [Sent(e.hardwareAddress, packet)])
      else if e.pendingPacket == 0 then
        (Hold(s, slot.value, e, packet), [Missing, Asked(dest)])
      else
        var (t, freed) := Free(s, e.pendingPacket);
        (Hold(t, slot.value, e, packet), freed + [Asked(dest)])
    else
      var free := UnusedSlot(s.table, 0);
      if free == None then (s, [OutOfEntries])
      else (Hold(s, free.value, s.table[free.value].(ipAddress := dest), packet), [Asked(dest)])
  }

  // Send and free the packet of a pending entry whose address is now known.
  function Deliver(s: Arp, block: nat, to: HwAddr): (Arp, seq<Event>) {
    if block == 0 then (s, [Missing])
    else
      var (t, freed) := Free(s, block);
      (t, (if block in s.heap then [Sent(to, s.heap[block])] else []) + freed)
  }

  // handleArp on a request. `senderIp` is as it lies in the packet.
  function HandleRequest(s: Arp, senderIp: Ip, sender: HwAddr): (Arp, seq<Event>)
    requires |s.table| == ARP_TABLE_SIZE
  {
    var known := LookupIp(s.table, P.SwapLong(senderIp), 0);
    var slot := if known.Some? then known else UnusedSlot(s.table, 0);
    if slot == None then (s, [OutOfEntries])
    else
      var e := s.table[slot.value];
      var named := if known.Some? then e else e.(ipAddress := senderIp);
      var (t, sent) := if e.state == Pending then Deliver(s, e.pendingPacket, sender) else (s, []);
      (Put(t, slot.value, named.(state := Valid, hardwareAddress := sender, timeToLive := ARP_ENTRY_TIMEOUT)),
       sent + [Answered(sender)])
  }

  // handleArp on a reply.
  function HandleReply(s: Arp, senderIp: Ip, sender: HwAddr): (Arp, seq<Event>)
    requires |s.table| == ARP_TABLE_SIZE
  {
    var slot := LookupIp(s.table, P.SwapLong(senderIp), 0);
    if IsBroadcast(sender) || slot == None || s.table[slot.value].state != Pending then (s, [])
    else
      var e := s.table[slot.value];
      var (t, sent) := Deliver(s, e.pendingPacket, sender);
      (Put(t, slot.value, e.(state := Valid, hardwareAddress := sender)), sent)
  }

  // arpCallBack's work on one entry.
  function TickEntry(s: Arp, i: nat): (r: (Arp, seq<Event>))
    requires i < |s.table|
    ensures |r.0.table| == |s.table|
  {
    var e := s.table[i].(timeToLive := s.table[i].timeToLive - ARP_TIMER_GRANULARITY);
    if e.state == Unused then (s, [])
    else if e.timeToLive > 0 then (Put(s, i, e), [])
    else if e.state == Valid then (Put(s, i, e.(state := Unused)), [])
    else if e.retries > ARP_RETRIES then
      var (t, freed) := if e.pendingPacket != 0 then Free(s, e.pendingPacket) else (s, [Missing]);
      (Put(t, i, e.(state := Unused)), freed)
    else
      (Put(s, i, e.(retries := e.retries + 1, timeToLive := ARP_ENTRY_RETRY_TIMEOUT)), [Asked(e.ipAddress)])
  }

  // arpCallBack from slot `i` on.
  function TickFrom(s: Arp, i: nat): (r: (Arp, seq<Event>))
    requires i <= |s.table|
    ensures |r.0.table| == |s.table|
    decreases |s.table| - i
  {
    if i == |s.table| then (s, [])
    else
      var (t, first) := TickEntry(s, i);
      var (u, rest) := TickFrom(t, i + 1);
      (u, first + rest)
  }

  datatype Input =
    | Send(dest: Ip, packet: Packet)
    | Request(senderIp: Ip, sender: HwAddr)
    | Reply(senderIp: Ip, sender: HwAddr)
    | Tick

  function Step(s: Arp, input: Input): (r: (Arp, seq<Event>))
    requires |s.table| == ARP_TABLE_SIZE
    ensures |r.0.table| == ARP_TABLE_SIZE
  {
    match input
    case Send(dest, packet) => SendIp(s, dest, packet)
    case Request(ip, sender) => HandleRequest(s, ip, sender)
    case Reply(ip, sender) => HandleReply(s, ip, sender)
    case Tick => TickFrom(s, 0)
  }

  // The call ends the program instead: it would send to a hardware address the bridge
  // does not know, or an answered entry has no packet. `knows` is the bridge's answer.
  predicate Stops(s: Arp, input: Input, knows: HwAddr -> bool)
    requires |s.table| == ARP_TABLE_SIZE
  {
    match input
    case Send(dest, _) =>
      var slot := LookupIp(s.table, dest, 0);
      slot.Some? && s.table[slot.value].state == Valid && Unreachable(s.table[slot.value].hardwareAddress, knows)
    case Request(ip, sender) =>
      (LookupIp(s.table, P.SwapLong(ip), 0).Some? || UnusedSlot(s.table, 0).Some?) && !knows(sender)
    case Reply(ip, sender) =>
      var slot := LookupIp(s.table, P.SwapLong(ip), 0);
      !knows(sender) ||
      (!IsBroadcast(sender) && slot.Some? &&
       s.table[slot.value].state == Pending && s.table[slot.value].pendingPacket == 0)
    case Tick => false
  }

  predicate Unreachable(a: HwAddr, knows: HwAddr -> bool) {
    !IsBroadcast(a) && !knows(a)
  }

  function Run(s: Arp, inputs: seq<Input>): (r: (Arp, seq<Event>))
    requires |s.table| == ARP_TABLE_SIZE
    ensures |r.0.table| == ARP_TABLE_SIZE
    decreases |inputs|
  {
    if inputs == [] then (s, [])
    else
      var (t, first) := Step(s, inputs[0]);
      var (u, rest) := Run(t, inputs[1..]);
      (u, first + rest)
  }

  function InitialArp(): (s: Arp)
    ensures |s.table| == ARP_TABLE_SIZE
  {
    Arp(seq(ARP_TABLE_SIZE, _ => ArpEntry(Unused, 0, ZERO, 0, 0, 0)), map[], 1)
  }
}
