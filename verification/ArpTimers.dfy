// How long an unanswered ARP entry lasts, and what a request leaves behind.
module ArpTimers {
  import opened Arp
  import opened ArpOwnership
  import opened Bridge
  import opened LinearProbing
  import P = Potp

  // ----- The timer

  // What a tick makes of one entry.
  function Aged(e: ArpEntry): ArpEntry {
    if e.state == Unused then e
    else if e.timeToLive > ARP_TIMER_GRANULARITY then e.(timeToLive := e.timeToLive - ARP_TIMER_GRANULARITY)
    else if e.state == Valid || e.retries > ARP_RETRIES then
      e.(state := Unused, timeToLive := e.timeToLive - ARP_TIMER_GRANULARITY)
    else e.(retries := e.retries + 1, timeToLive := ARP_ENTRY_RETRY_TIMEOUT)
  }

  // A tick ages every entry by itself.
  lemma {:induction false} TickAges(s: Arp, i: nat, j: nat)
    requires i <= |s.table| && j < |s.table|
    ensures TickFrom(s, i).0.table[j] == if i <= j then Aged(s.table[j]) else s.table[j]
    decreases |s.table| - i
  {
    if i < |s.table| {
      TickAges(TickEntry(s, i).0, i + 1, j);
    }
  }

  // Ticks left to a pending entry that nobody refreshes or answers.
  function Life(e: ArpEntry): int {
    2 * (ARP_RETRIES + 1 - e.retries) + e.timeToLive
  }

  lemma Countdown(e: ArpEntry)
    requires EntryOk(e) && e.state == Pending
    ensures 1 <= Life(e) <= 10
    ensures Life(e) == 1 ==> Aged(e).state == Unused
    ensures Life(e) > 1 ==> Aged(e).state == Pending && Life(Aged(e)) == Life(e) - 1
    ensures Life(e) > 1 ==> Aged(e).pendingPacket == e.pendingPacket && Aged(e).ipAddress == e.ipAddress
  {
  }

  predicate StaysPending(s: Arp, inputs: seq<Input>, i: nat)
    requires |s.table| == ARP_TABLE_SIZE && i < ARP_TABLE_SIZE
    decreases |inputs|
  {
    s.table[i].state == Pending && (inputs != [] ==> StaysPending(Step(s, inputs[0]).0, inputs[1..], i))
  }

  // No input of the run is a packet that entry `i` is looked up for.
  predicate Unrefreshed(s: Arp, inputs: seq<Input>, i: nat)
    requires |s.table| == ARP_TABLE_SIZE
    decreases |inputs|
  {
    inputs != [] ==>
      && !(inputs[0].Send? && LookupIp(s.table, inputs[0].dest, 0) == Some(i))
      && Unrefreshed(Step(s, inputs[0]).0, inputs[1..], i)
  }

  function Ticks(inputs: seq<Input>): nat {
    if inputs == [] then 0 else (if inputs[0] == Tick then 1 else 0) + Ticks(inputs[1..])
  }

  // One step that leaves entry `i` pending and does not refresh it.
  lemma PendingStep(s: Arp, input: Input, i: nat)
    requires Owned(s) && i < ARP_TABLE_SIZE && s.table[i].state == Pending
    requires Step(s, input).0.table[i].state == Pending
    requires !(input.Send? && LookupIp(s.table, input.dest, 0) == Some(i))
    ensures var t := Step(s, input).0;
      t.table[i] == if input == Tick then Aged(s.table[i]) else s.table[i]
  {
    match input
    case Tick => TickAges(s, 0, i);
    case Send(_, _) =>
    case Request(_, _) =>
    case Reply(_, _) =>
  }

  // Every unrefreshed tick costs a pending entry one of its at most ten: it is
  // answered or dropped before they run out.
  lemma {:induction false} AnsweredOrDropped(s: Arp, inputs: seq<Input>, i: nat)
    requires Owned(s) && i < ARP_TABLE_SIZE
    requires StaysPending(s, inputs, i) && Unrefreshed(s, inputs, i)
    ensures Ticks(inputs) < Life(s.table[i]) <= 10
    ensures Life(Run(s, inputs).0.table[i]) == Life(s.table[i]) - Ticks(inputs)
    decreases |inputs|
  {
    Countdown(s.table[i]);
    if inputs != [] {
      StepKeeps(s, inputs[0]);
      PendingStep(s, inputs[0], i);
      AnsweredOrDropped(Step(s, inputs[0]).0, inputs[1..], i);
    }
  }

  // The last tick drops the entry and frees its packet.
  lemma LastTickDrops(s: Arp, i: nat)
    requires Owned(s) && i < ARP_TABLE_SIZE && s.table[i].state == Pending
    ensures var (t, events) := Step(s, Tick);
      && (t.table[i].state == Unused <==> Life(s.table[i]) == 1)
      && (Freed(s.table[i].pendingPacket) in events <==> Life(s.table[i]) == 1)
  {
    var block := s.table[i].pendingPacket;
    var (t, events) := Step(s, Tick);
    TickAges(s, 0, i);
    Countdown(s.table[i]);
    StepKeeps(s, Tick);
    assert Holds(s.table, i, block);
    assert Live(s, block) == 1 && Born(s, t, block) == 0;
    assert Frees(events, block) == 1 - Live(t, block);
    if Life(s.table[i]) == 1 {
      forall j: nat
        ensures !Holds(t.table, j, block)
      {
        if j < ARP_TABLE_SIZE && j != i {
          TickAges(s, 0, j);
          assert Holds(s.table, j, block) ==> j == i;
        }
      }
    } else {
      assert Holds(t.table, i, block);
      assert t.table[i].pendingPacket in t.heap;
    }
  }

  // The packet of an entry that stays pending stays as it is.
  lemma PacketStep(s: Arp, input: Input, i: nat)
    requires Owned(s) && i < ARP_TABLE_SIZE && s.table[i].state == Pending
    requires var t := Step(s, input).0;
      t.table[i].state == Pending && t.table[i].pendingPacket == s.table[i].pendingPacket
    ensures var t := Step(s, input).0; var block := s.table[i].pendingPacket;
      block in s.heap && block in t.heap && t.heap[block] == s.heap[block]
  {
    var t, block := Step(s, input).0, s.table[i].pendingPacket;
    StepKeeps(s, input);
    assert t.table[i].pendingPacket in t.heap;
    HeapOnlyGrowsFresh(s, input, block);
  }

  lemma {:induction false} TickHeap(s: Arp, i: nat)
    requires i <= |s.table|
    ensures TickFrom(s, i).0.heap.Items <= s.heap.Items
    decreases |s.table| - i
  {
    if i < |s.table| {
      TickHeap(TickEntry(s, i).0, i + 1);
    }
  }

  // No step writes to a block it did not allocate.
  lemma HeapOnlyGrowsFresh(s: Arp, input: Input, block: nat)
    requires |s.table| == ARP_TABLE_SIZE && block in Step(s, input).0.heap && block < s.next
    ensures block in s.heap && Step(s, input).0.heap[block] == s.heap[block]
  {
    match input
    case Tick =>
      TickHeap(s, 0);
      assert (block, Step(s, input).0.heap[block]) in s.heap.Items;
    case Send(_, _) =>
    case Request(_, _) =>
    case Reply(_, _) =>
  }

  lemma {:induction false} PacketWaits(s: Arp, inputs: seq<Input>, i: nat)
    requires Owned(s) && i < ARP_TABLE_SIZE
    requires StaysPending(s, inputs, i) && Unrefreshed(s, inputs, i)
    ensures var t := Run(s, inputs).0; var block := s.table[i].pendingPacket;
      && Owned(t) && t.table[i].state == Pending && t.table[i].pendingPacket == block
      && block in s.heap && block in t.heap && t.heap[block] == s.heap[block]
    decreases |inputs|
  {
    if inputs != [] {
      StepKeeps(s, inputs[0]);
      Countdown(s.table[i]);
      PendingStep(s, inputs[0], i);
      PacketStep(s, inputs[0], i);
      PacketWaits(Step(s, inputs[0]).0, inputs[1..], i);
    }
  }

  // A packet sent to an unresolved address waits, and the answer delivers it: the
  // last one sent, unchanged, and no other.
  lemma AnswerDeliversLastPacket(s: Arp, dest: Ip, packet: Packet, inputs: seq<Input>, i: nat, sender: HwAddr)
    requires Owned(s) && i < ARP_TABLE_SIZE && !IsBroadcast(sender)
    requires StaysPending(SendIp(s, dest, packet).0, inputs, i) && Unrefreshed(SendIp(s, dest, packet).0, inputs, i)
    requires LookupIp(SendIp(s, dest, packet).0.table, dest, 0) == Some(i)
    requires LookupIp(Run(SendIp(s, dest, packet).0, inputs).0.table, dest, 0) == Some(i)
    ensures var t := Run(SendIp(s, dest, packet).0, inputs).0;
      && HandleReply(t, P.SwapLong(dest), sender).1 == [Sent(sender, packet), Freed(t.table[i].pendingPacket)]
      && HandleRequest(t, P.SwapLong(dest), sender).1 ==
         [Sent(sender, packet), Freed(t.table[i].pendingPacket), Answered(sender)]
  {
    var t := SendIp(s, dest, packet).0;
    SendKeeps(s, dest, packet);
    P.SwapsUndo(dest, 0);
    PacketWaits(t, inputs, i);
    SentToPending(s, dest, packet, i);
  }

  lemma SentToPending(s: Arp, dest: Ip, packet: Packet, i: nat)
    requires Owned(s) && i < ARP_TABLE_SIZE
    requires var t := SendIp(s, dest, packet).0;
      LookupIp(t.table, dest, 0) == Some(i) && t.table[i].state == Pending
    ensures var t := SendIp(s, dest, packet).0;
      t.table[i].pendingPacket in t.heap && t.heap[t.table[i].pendingPacket] == packet
  {
    var t := SendIp(s, dest, packet).0;
    var known := LookupIp(s.table, dest, 0);
    var slot := if known.Some? then known else UnusedSlot(s.table, 0);
    assert Matches(t.table[i], dest);
    if slot.Some? {
      assert Matches(t.table[slot.value], dest);
      assert slot.value == i;
    }
  }

  // ----- The retry count

  // No step lowers a slot's retry count, not even for a new occupant.
  lemma RetriesNeverReset(s: Arp, input: Input, i: nat)
    requires |s.table| == ARP_TABLE_SIZE && i < ARP_TABLE_SIZE
    ensures Step(s, input).0.table[i].retries >= s.table[i].retries
  {
    match input
    case Tick => TickAges(s, 0, i);
    case Send(_, _) =>
    case Request(_, _) =>
    case Reply(_, _) =>
  }

  // So a slot that has used up its retries never has any again: whatever address
  // is pending in it later is dropped after two unrefreshed ticks.
  lemma {:induction false} SpentSlotStaysSpent(s: Arp, inputs: seq<Input>, i: nat)
    requires Owned(s) && i < ARP_TABLE_SIZE && s.table[i].retries == ARP_RETRIES + 1
    ensures var e := Run(s, inputs).0.table[i];
      && e.retries == ARP_RETRIES + 1
      && (e.state == Pending ==> Life(e) <= ARP_ENTRY_RETRY_TIMEOUT)
    decreases |inputs|
  {
    if inputs != [] {
      StepKeeps(s, inputs[0]);
      RetriesNeverReset(s, inputs[0], i);
      SpentSlotStaysSpent(Step(s, inputs[0]).0, inputs[1..], i);
    }
  }

  lemma FirstTick(s: Arp, i: nat, n: nat) returns (t: Arp)
    requires Owned(s) && i < ARP_TABLE_SIZE && s.table[i].state == Pending && 1 < Life(s.table[i])
    ensures Owned(t) && t.table[i].state == Pending && Life(t.table[i]) == Life(s.table[i]) - 1
    ensures Run(s, seq(n + 1, _ => Tick)).0 == Run(t, seq(n, _ => Tick)).0
  {
    TickAges(s, 0, i);
    assert EntryOk(s.table[i]);
    Countdown(s.table[i]);
    StepKeeps(s, Tick);
    assert seq(n + 1, _ => Tick)[1..] == seq(n, _ => Tick);
    t := Step(s, Tick).0;
  }

  lemma {:induction false} TicksAge(s: Arp, i: nat, n: nat)
    requires Owned(s) && i < ARP_TABLE_SIZE && s.table[i].state == Pending && n < Life(s.table[i])
    ensures var t := Run(s, seq(n, _ => Tick)).0;
      Owned(t) && t.table[i].state == Pending && Life(t.table[i]) == Life(s.table[i]) - n
    decreases n
  {
    if n > 0 {
      var t := FirstTick(s, i, n - 1);
      TicksAge(t, i, n - 1);
    }
  }

  // A packet sent to an address that stays silent for eight ticks spends the slot:
  // from the empty table one such send is enough.
  lemma SilentAddressSpendsSlot(dest: Ip, packet: Packet)
    ensures var t := Run(InitialArp(), [Send(dest, packet)] + seq(8, _ => Tick)).0;
      Owned(t) && t.table[0].retries == ARP_RETRIES + 1
  {
    var inputs := [Send(dest, packet)] + seq(8, _ => Tick);
    assert inputs[1..] == seq(8, _ => Tick);
    var s := SendIp(InitialArp(), dest, packet).0;
    FirstSend(dest, packet);
    TicksAge(s, 0, 8);
    var t := Run(s, seq(8, _ => Tick)).0;
    assert EntryOk(t.table[0]);
  }

  lemma FirstSend(dest: Ip, packet: Packet)
    ensures var s := SendIp(InitialArp(), dest, packet).0;
      Owned(s) && s.table[0].state == Pending && Life(s.table[0]) == 10
  {
    var s := InitialArp();
    assert LookupIp(s.table, dest, 0) == None && UnusedSlot(s.table, 0) == Some(0);
    SendKeeps(s, dest, packet);
  }

  // ----- Requests

  function CountUnused(table: seq<ArpEntry>): nat {
    if table == [] then 0 else (if table[0].state == Unused then 1 else 0) + CountUnused(table[1..])
  }

  lemma {:induction false} CountOneLess(table: seq<ArpEntry>, i: nat, e: ArpEntry)
    requires i < |table| && table[i].state == Unused && e.state != Unused
    ensures CountUnused(table[i := e]) == CountUnused(table) - 1
  {
    if i == 0 {
      assert table[0 := e][1..] == table[1..];
    } else {
      assert table[i := e][1..] == table[1..][i - 1 := e];
      CountOneLess(table[1..], i - 1, e);
    }
  }

  lemma {:induction false} NoneUnused(table: seq<ArpEntry>)
    requires CountUnused(table) == 0
    ensures UnusedSlot(table, 0) == None
  {
    if UnusedSlot(table, 0).Some? {
      var i := UnusedSlot(table, 0).value;
      CountOneLess(table, i, table[i].(state := Valid));
    }
  }

  lemma {:induction false} SomeUnused(table: seq<ArpEntry>)
    requires CountUnused(table) > 0
    ensures exists i :: 0 <= i < |table| && table[i].state == Unused
  {
    if table[0].state != Unused {
      SomeUnused(table[1..]);
      var i :| 0 <= i < |table[1..]| && table[1..][i].state == Unused;
      assert table[i + 1].state == Unused;
    }
  }

  // A request from a host without an entry is recorded under its address as it lies
  // in the packet, so the host is found again exactly when its address reads the
  // same in both byte orders.
  lemma RequestIsFoundIfPalindrome(s: Arp, senderIp: Ip, sender: HwAddr)
    requires |s.table| == ARP_TABLE_SIZE
    requires LookupIp(s.table, P.SwapLong(senderIp), 0) == None && CountUnused(s.table) > 0
    ensures var t := HandleRequest(s, senderIp, sender).0;
      && CountUnused(t.table) == CountUnused(s.table) - 1
      && (LookupIp(t.table, P.SwapLong(senderIp), 0) != None <==> P.SwapLong(senderIp) == senderIp)
  {
    SomeUnused(s.table);
    var slot := UnusedSlot(s.table, 0);
    var t := HandleRequest(s, senderIp, sender).0;
    CountOneLess(s.table, slot.value, t.table[slot.value]);
  }

  // A host whose address is no palindrome takes one more slot with every request,
  // until none is left.
  lemma {:induction false} RequestsFillTable(s: Arp, senderIp: Ip, sender: HwAddr, n: nat)
    requires |s.table| == ARP_TABLE_SIZE && P.SwapLong(senderIp) != senderIp
    requires LookupIp(s.table, P.SwapLong(senderIp), 0) == None && n <= CountUnused(s.table)
    ensures var t := Run(s, seq(n, _ => Request(senderIp, sender))).0;
      && CountUnused(t.table) == CountUnused(s.table) - n
      && LookupIp(t.table, P.SwapLong(senderIp), 0) == None
    decreases n
  {
    if n > 0 {
      var inputs := seq(n, _ => Request(senderIp, sender));
      RequestIsFoundIfPalindrome(s, senderIp, sender);
      assert inputs[1..] == seq(n - 1, _ => Request(senderIp, sender));
      RequestsFillTable(HandleRequest(s, senderIp, sender).0, senderIp, sender, n - 1);
    }
  }

  lemma FullTableRefuses(s: Arp, dest: Ip, packet: Packet)
    requires |s.table| == ARP_TABLE_SIZE && CountUnused(s.table) == 0 && LookupIp(s.table, dest, 0) == None
    ensures SendIp(s, dest, packet) == (s, [OutOfEntries])
  {
    NoneUnused(s.table);
  }

  // After sixteen such requests nothing more is sent to a new address.
  lemma SixteenRequestsBlock(senderIp: Ip, sender: HwAddr, dest: Ip, packet: Packet)
    requires P.SwapLong(senderIp) != senderIp
    ensures var t := Run(InitialArp(), seq(ARP_TABLE_SIZE, _ => Request(senderIp, sender))).0;
      LookupIp(t.table, dest, 0) == None ==> SendIp(t, dest, packet) == (t, [OutOfEntries])
  {
    var t := Run(InitialArp(), seq(ARP_TABLE_SIZE, _ => Request(senderIp, sender))).0;
    AllUnused(InitialArp().table);
    RequestsFillTable(InitialArp(), senderIp, sender, ARP_TABLE_SIZE);
    if LookupIp(t.table, dest, 0) == None {
      FullTableRefuses(t, dest, packet);
    }
  }

  lemma {:induction false} AllUnused(table: seq<ArpEntry>)
    requires forall i :: 0 <= i < |table| ==> table[i].state == Unused
    ensures CountUnused(table) == |table|
  {
    if table != [] {
      AllUnused(table[1..]);
    }
  }

  // ----- When the program goes on

  // Every neighbour a packet would be sent to at once is known to the bridge.
  ghost predicate NeighboursKnown(s: Arp, knows: HwAddr -> bool) {
    forall i {:trigger s.table[i]} ::
      0 <= i < |s.table| && s.table[i].state == Valid ==> !Unreachable(s.table[i].hardwareAddress, knows)
  }

  // The sender of a reply, or of a request that finds a slot, is known to the bridge.
  predicate SenderKnown(s: Arp, input: Input, knows: HwAddr -> bool)
    requires |s.table| == ARP_TABLE_SIZE
  {
    match input
    case Request(ip, sender) =>
      (LookupIp(s.table, P.SwapLong(ip), 0) == None && UnusedSlot(s.table, 0) == None) || knows(sender)
    case Reply(_, sender) => knows(sender)
    case Send(_, _) => true
    case Tick => true
  }

  lemma StopsIffUnknown(s: Arp, input: Input, knows: HwAddr -> bool)
    requires Owned(s) && NeighboursKnown(s, knows)
    ensures Stops(s, input, knows) <==> !SenderKnown(s, input, knows)
  {
  }

  // An entry that is valid after the step was so before, or took the sender's address.
  lemma ValidAfter(s: Arp, input: Input, i: nat)
    requires |s.table| == ARP_TABLE_SIZE && i < ARP_TABLE_SIZE && Step(s, input).0.table[i].state == Valid
    ensures var e := Step(s, input).0.table[i];
      || (s.table[i].state == Valid && e.hardwareAddress == s.table[i].hardwareAddress)
      || (input.Request? && e.hardwareAddress == input.sender)
      || (input.Reply? && e.hardwareAddress == input.sender)
  {
    if input == Tick {
      TickAges(s, 0, i);
    }
  }

  lemma NeighboursStayKnown(s: Arp, input: Input, knows: HwAddr -> bool)
    requires |s.table| == ARP_TABLE_SIZE && NeighboursKnown(s, knows) && SenderKnown(s, input, knows)
    ensures NeighboursKnown(Step(s, input).0, knows)
  {
    var t := Step(s, input).0;
    forall i | 0 <= i < ARP_TABLE_SIZE && t.table[i].state == Valid
      ensures !Unreachable(t.table[i].hardwareAddress, knows)
    {
      ValidAfter(s, input, i);
    }
  }

  ghost predicate GoesOn(s: Arp, inputs: seq<Input>, knows: HwAddr -> bool)
    requires |s.table| == ARP_TABLE_SIZE
    decreases |inputs|
  {
    inputs != [] ==> !Stops(s, inputs[0], knows) && GoesOn(Step(s, inputs[0]).0, inputs[1..], knows)
  }

  ghost predicate SendersKnown(s: Arp, inputs: seq<Input>, knows: HwAddr -> bool)
    requires |s.table| == ARP_TABLE_SIZE
    decreases |inputs|
  {
    inputs != [] ==> SenderKnown(s, inputs[0], knows) && SendersKnown(Step(s, inputs[0]).0, inputs[1..], knows)
  }

  lemma {:induction false} GoesOnIffKnown(s: Arp, inputs: seq<Input>, knows: HwAddr -> bool)
    requires Owned(s) && NeighboursKnown(s, knows)
    ensures GoesOn(s, inputs, knows) <==> SendersKnown(s, inputs, knows)
    decreases |inputs|
  {
    if inputs != [] {
      StopsIffUnknown(s, inputs[0], knows);
      if SenderKnown(s, inputs[0], knows) {
        NeighboursStayKnown(s, inputs[0], knows);
        StepKeeps(s, inputs[0]);
        GoesOnIffKnown(Step(s, inputs[0]).0, inputs[1..], knows);
      }
    }
  }

  // While the bridge knows the same addresses, a run from the empty table stops the
  // program exactly when it takes a reply, or a request that finds a slot, from a
  // sender the bridge does not know.
  lemma OnlyUnknownSendersStop(inputs: seq<Input>, knows: HwAddr -> bool)
    ensures GoesOn(InitialArp(), inputs, knows) <==> SendersKnown(InitialArp(), inputs, knows)
  {
    GoesOnIffKnown(InitialArp(), inputs, knows);
  }
}
