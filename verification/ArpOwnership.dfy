// Ownership of the ARP table's waiting packets, over whole runs.
module ArpOwnership {
  import opened Arp
  import opened Bridge
  import opened LinearProbing
  import P = Potp

  // ----- The invariant

  predicate EntryOk(e: ArpEntry) {
    && e.retries <= ARP_RETRIES + 1
    && (e.state == Pending ==> 1 <= e.timeToLive <= ARP_ENTRY_RETRY_TIMEOUT)
    && (e.state == Valid ==> 1 <= e.timeToLive <= ARP_ENTRY_TIMEOUT)
  }

  predicate Holds(table: seq<ArpEntry>, i: nat, block: nat) {
    i < |table| && table[i].state == Pending && table[i].pendingPacket == block
  }

  // The pending entries own the allocated blocks, one each.
  ghost predicate Owned(s: Arp) {
    && |s.table| == ARP_TABLE_SIZE && s.next >= 1
    && (forall i {:trigger s.table[i]} :: 0 <= i < |s.table| ==> EntryOk(s.table[i]))
    && (forall i {:trigger s.table[i]} ::
          0 <= i < |s.table| && s.table[i].state == Pending ==> s.table[i].pendingPacket in s.heap)
    && (forall i: nat, j: nat, block {:trigger Holds(s.table, i, block), Holds(s.table, j, block)} ::
          Holds(s.table, i, block) && Holds(s.table, j, block) ==> i == j)
    && (forall block {:trigger block in s.heap} :: block in s.heap ==> 1 <= block < s.next)
    && (forall block {:trigger block in s.heap} :: block in s.heap ==> exists i: nat :: Holds(s.table, i, block))
  }

  // ----- Bookkeeping of one or more steps

  function Live(s: Arp, block: nat): nat { if block in s.heap then 1 else 0 }

  function Born(s: Arp, t: Arp, block: nat): nat { if s.next <= block < t.next then 1 else 0 }

  function Frees(events: seq<Event>, block: nat): nat { multiset(events)[Freed(block)] }

  predicate Clean(events: seq<Event>) {
    Missing !in events && forall e :: e in events ==> !e.BadFree?
  }

  // From `s` to `t` with these events: no bad branch was taken, and every block
  // that was there or was allocated is either still there or was freed, once.
  ghost predicate Accounts(s: Arp, events: seq<Event>, t: Arp) {
    && s.next <= t.next && Clean(events)
    && forall block: nat {:trigger Live(t, block)} {:trigger Live(s, block)} ::
         Live(s, block) + Born(s, t, block) == Live(t, block) + Frees(events, block)
  }

  lemma Chain(s: Arp, first: seq<Event>, t: Arp, rest: seq<Event>, u: Arp)
    requires Accounts(s, first, t) && Accounts(t, rest, u)
    ensures Accounts(s, first + rest, u)
  {
  }

  lemma Quiet(s: Arp, events: seq<Event>, t: Arp)
    requires s.heap == t.heap && s.next == t.next && Clean(events)
    requires forall e :: e in events ==> !e.Freed?
    ensures Accounts(s, events, t)
  {
    forall block: nat
      ensures Frees(events, block) == 0
    {
      assert Freed(block) !in events;
    }
  }

  // ----- Three ways to write an entry

  // An entry that keeps its packet, if it has one.
  lemma TouchKeeps(s: Arp, i: nat, e: ArpEntry)
    requires Owned(s) && i < |s.table| && EntryOk(e)
    requires e.state == Pending <==> s.table[i].state == Pending
    requires e.state == Pending ==> e.pendingPacket == s.table[i].pendingPacket
    ensures Owned(Put(s, i, e))
  {
    var t := Put(s, i, e);
    forall j: nat, block
      ensures Holds(t.table, j, block) == Holds(s.table, j, block)
    {
    }
  }

  // An entry that is no longer pending: its block is freed.
  lemma FreeKeeps(s: Arp, i: nat, e: ArpEntry)
    requires Owned(s) && i < |s.table| && s.table[i].state == Pending
    requires EntryOk(e) && e.state != Pending
    ensures var block := s.table[i].pendingPacket;
      var (t, events) := Free(s, block);
      && block in s.heap && block != 0 && events == [Freed(block)]
      && Owned(Put(t, i, e)) && Accounts(s, events, Put(t, i, e))
  {
    var block := s.table[i].pendingPacket;
    var t := Put(Free(s, block).0, i, e);
    assert Holds(s.table, i, block) && s.table[i].pendingPacket in s.heap;
    forall j: nat, b
      ensures Holds(t.table, j, b) == (Holds(s.table, j, b) && b != block)
    {
      if j != i {
        assert Holds(t.table, j, b) == Holds(s.table, j, b);
        assert b == block ==> !Holds(s.table, j, block);
      }
    }
    forall j | 0 <= j < |t.table| && t.table[j].state == Pending
      ensures t.table[j].pendingPacket in t.heap
    {
      assert Holds(t.table, j, t.table[j].pendingPacket);
      assert s.table[j].pendingPacket in s.heap;
    }
    forall b | b in t.heap
      ensures exists j: nat :: Holds(t.table, j, b)
    {
      var j: nat :| Holds(s.table, j, b);
      assert Holds(t.table, j, b);
    }
  }

  // An entry that becomes pending on a fresh block.
  lemma HoldKeeps(s: Arp, i: nat, e: ArpEntry, packet: Packet)
    requires Owned(s) && i < |s.table| && s.table[i].state != Pending && EntryOk(e)
    ensures Owned(Hold(s, i, e, packet)) && Accounts(s, [], Hold(s, i, e, packet))
  {
    var t := Hold(s, i, e, packet);
    forall j: nat, b
      ensures Holds(t.table, j, b) == (if b == s.next then j == i else Holds(s.table, j, b))
    {
      assert b == s.next ==> b !in s.heap;
    }
    assert Holds(t.table, i, s.next);
    forall b | b in s.heap
      ensures exists j: nat :: Holds(t.table, j, b)
    {
      var j: nat :| Holds(s.table, j, b);
      assert Holds(t.table, j, b);
    }
  }

  // ----- The operations

  lemma SendKeeps(s: Arp, dest: Ip, packet: Packet)
    requires Owned(s)
    ensures Owned(SendIp(s, dest, packet).0)
    ensures Accounts(s, SendIp(s, dest, packet).1, SendIp(s, dest, packet).0)
  {
    var (t, events) := SendIp(s, dest, packet);
    var slot, free := LookupIp(s.table, dest, 0), UnusedSlot(s.table, 0);
    if slot.Some? {
      var i, e := slot.value, s.table[slot.value];
      if e.state == Valid {
        TouchKeeps(s, i, e.(timeToLive := ARP_ENTRY_TIMEOUT));
        Quiet(s, events, t);
      } else {
        ResendKeeps(s, i, e, packet);
        Quiet(t, [Asked(dest)], t);
        Chain(s, [Freed(e.pendingPacket)], t, [Asked(dest)], t);
      }
    } else if free.Some? {
      HoldKeeps(s, free.value, s.table[free.value].(ipAddress := dest), packet);
      Quiet(t, events, t);
      Chain(s, [], t, events, t);
      assert [] + events == events;
    } else {
      Quiet(s, events, t);
    }
  }

  // A newer packet takes the place of the waiting one.
  lemma ResendKeeps(s: Arp, i: nat, e: ArpEntry, packet: Packet)
    requires Owned(s) && i < |s.table| && e == s.table[i] && e.state == Pending
    ensures var (t, events) := Free(s, e.pendingPacket);
      && e.pendingPacket != 0 && events == [Freed(e.pendingPacket)]
      && Owned(Hold(t, i, e, packet)) && Accounts(s, events, Hold(t, i, e, packet))
  {
    var empty := e.(state := Unused);
    var (t, events) := Free(s, e.pendingPacket);
    FreeKeeps(s, i, empty);
    var u := Put(t, i, empty);
    HoldKeeps(u, i, empty, packet);
    assert Hold(u, i, empty, packet) == Hold(t, i, e, packet);
    Chain(s, events, u, [], Hold(u, i, empty, packet));
    assert events + [] == events;
  }

  // Resolving a pending entry sends its packet and frees the block.
  lemma DeliverKeeps(s: Arp, i: nat, to: HwAddr, e: ArpEntry)
    requires Owned(s) && i < |s.table| && s.table[i].state == Pending
    requires EntryOk(e) && e.state == Valid
    ensures var block := s.table[i].pendingPacket;
      var (t, events) := Deliver(s, block, to);
      && block in s.heap && events == [Sent(to, s.heap[block]), Freed(block)]
      && Owned(Put(t, i, e)) && Accounts(s, events, Put(t, i, e))
  {
    FreeKeeps(s, i, e);
    var block := s.table[i].pendingPacket;
    var t := Put(Free(s, block).0, i, e);
    Quiet(s, [Sent(to, s.heap[block])], s);
    Chain(s, [Sent(to, s.heap[block])], s, [Freed(block)], t);
  }

  lemma RequestKeeps(s: Arp, senderIp: Ip, sender: HwAddr)
    requires Owned(s)
    ensures Owned(HandleRequest(s, senderIp, sender).0)
    ensures Accounts(s, HandleRequest(s, senderIp, sender).1, HandleRequest(s, senderIp, sender).0)
  {
    var (t, events) := HandleRequest(s, senderIp, sender);
    var known := LookupIp(s.table, P.SwapLong(senderIp), 0);
    var slot := if known.Some? then known else UnusedSlot(s.table, 0);
    if slot.Some? {
      var i := slot.value;
      if s.table[i].state == Pending {
        DeliverKeeps(s, i, sender, t.table[i]);
        Quiet(t, [Answered(sender)], t);
        Chain(s, Deliver(s, s.table[i].pendingPacket, sender).1, t, [Answered(sender)], t);
      } else {
        TouchKeeps(s, i, t.table[i]);
        Quiet(s, events, t);
      }
    } else {
      Quiet(s, events, t);
    }
  }

  lemma ReplyKeeps(s: Arp, senderIp: Ip, sender: HwAddr)
    requires Owned(s)
    ensures Owned(HandleReply(s, senderIp, sender).0)
    ensures Accounts(s, HandleReply(s, senderIp, sender).1, HandleReply(s, senderIp, sender).0)
  {
    var (t, events) := HandleReply(s, senderIp, sender);
    var slot := LookupIp(s.table, P.SwapLong(senderIp), 0);
    if IsBroadcast(sender) || slot == None || s.table[slot.value].state != Pending {
      Quiet(s, events, t);
    } else {
      DeliverKeeps(s, slot.value, sender, t.table[slot.value]);
    }
  }

  lemma TickEntryKeeps(s: Arp, i: nat)
    requires Owned(s) && i < |s.table|
    ensures Owned(TickEntry(s, i).0)
    ensures Accounts(s, TickEntry(s, i).1, TickEntry(s, i).0)
  {
    var (t, events) := TickEntry(s, i);
    if s.table[i].state == Pending && t.table[i].state == Unused {
      FreeKeeps(s, i, t.table[i]);
    } else {
      if t != s {
        TouchKeeps(s, i, t.table[i]);
      }
      Quiet(s, events, t);
    }
  }

  lemma {:induction false} TickKeeps(s: Arp, i: nat)
    requires Owned(s) && i <= |s.table|
    ensures Owned(TickFrom(s, i).0)
    ensures Accounts(s, TickFrom(s, i).1, TickFrom(s, i).0)
    decreases |s.table| - i
  {
    if i == |s.table| {
      Quiet(s, [], s);
    } else {
      var (t, first) := TickEntry(s, i);
      TickEntryKeeps(s, i);
      TickKeeps(t, i + 1);
      Chain(s, first, t, TickFrom(t, i + 1).1, TickFrom(t, i + 1).0);
    }
  }

  lemma StepKeeps(s: Arp, input: Input)
    requires Owned(s)
    ensures Owned(Step(s, input).0)
    ensures Accounts(s, Step(s, input).1, Step(s, input).0)
  {
    match input
    case Send(dest, packet) => SendKeeps(s, dest, packet);
    case Request(ip, sender) => RequestKeeps(s, ip, sender);
    case Reply(ip, sender) => ReplyKeeps(s, ip, sender);
    case Tick => TickKeeps(s, 0);
  }

  // ----- Whole runs

  lemma {:induction false} RunKeeps(s: Arp, inputs: seq<Input>)
    requires Owned(s)
    ensures Owned(Run(s, inputs).0)
    ensures Accounts(s, Run(s, inputs).1, Run(s, inputs).0)
    decreases |inputs|
  {
    if inputs == [] {
      Quiet(s, [], s);
    } else {
      var (t, first) := Step(s, inputs[0]);
      StepKeeps(s, inputs[0]);
      RunKeeps(t, inputs[1..]);
      Chain(s, first, t, Run(t, inputs[1..]).1, Run(t, inputs[1..]).0);
    }
  }

  // Over every run from start-up: no packet is freed twice, the "pending packet
  // missing" branches never run, and each packet ever allocated has been freed
  // exactly once or is owned by exactly one pending entry.
  lemma EveryPacketHasOneOwner(inputs: seq<Input>, block: nat)
    ensures var (t, events) := Run(InitialArp(), inputs);
      && Clean(events)
      && (1 <= block < t.next ==>
            (Frees(events, block) == 1 <==> !exists i: nat :: Holds(t.table, i, block)) && Frees(events, block) <= 1)
      && (forall i: nat, j: nat :: Holds(t.table, i, block) && Holds(t.table, j, block) ==> i == j)
  {
    var (t, events) := Run(InitialArp(), inputs);
    RunKeeps(InitialArp(), inputs);
    assert Live(InitialArp(), block) == 0;
    forall i: nat
      ensures Holds(t.table, i, block) ==> block in t.heap
    {
      if Holds(t.table, i, block) {
        assert t.table[i].pendingPacket in t.heap;
      }
    }
  }
}
