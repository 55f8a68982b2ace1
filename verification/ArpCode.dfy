// The ARP code on its table.
module ArpCode {
  import opened Arp
  import opened Bridge
  import opened LinearProbing
  import P = Potp

  const ARP_REQUEST: nat := 1
  const ARP_REPLY: nat := 2

  class ArpTable {
    const arpTable: array<ArpEntry>
    var heap: map<nat, Packet>
    var next: nat

    ghost predicate Valid()
      reads this
    {
      arpTable.Length == ARP_TABLE_SIZE
    }

    ghost function Value(): Arp
      reads this, arpTable
    {
      Arp(arpTable[..], heap, next)
    }

    constructor ()
      ensures Valid() && fresh(arpTable) && Value() == InitialArp()
    {
      arpTable := new ArpEntry[ARP_TABLE_SIZE](_ => ArpEntry(Unused, 0, ZERO, 0, 0, 0));
      heap := map[];
      next := 1;
      new;
      assert arpTable[..] == InitialArp().table;
    }

    method ArpLookupIp(addr: Ip) returns (i: nat)
      requires Valid()
      ensures i <= ARP_TABLE_SIZE
      ensures LookupIp(arpTable[..], addr, 0) == if i == ARP_TABLE_SIZE then None else Some(i)
    {
      i := 0;
      while i < ARP_TABLE_SIZE
        invariant i <= ARP_TABLE_SIZE
        invariant LookupIp(arpTable[..], addr, 0) == LookupIp(arpTable[..], addr, i)
      {
        if arpTable[i].state != Unused {
          if arpTable[i].ipAddress == addr {
            break;
          }
        }
        i := i + 1;
      }
    }

    method ArpAdd() returns (i: nat)
      requires Valid()
      ensures i <= ARP_TABLE_SIZE
      ensures UnusedSlot(arpTable[..], 0) == if i == ARP_TABLE_SIZE then None else Some(i)
    {
      i := 0;
      while i < ARP_TABLE_SIZE
        invariant i <= ARP_TABLE_SIZE
        invariant UnusedSlot(arpTable[..], 0) == UnusedSlot(arpTable[..], i)
      {
        if arpTable[i].state == Unused {
          break;
        }
        i := i + 1;
      }
    }

    method Malloc(packet: Packet) returns (block: nat)
      modifies this`heap, this`next
      ensures block == old(next) && next == block + 1 && heap == old(heap)[block := packet]
    {
      block := next;
      heap := heap[block := packet];
      next := next + 1;
    }

    method FreeBlock(block: nat) returns (events: seq<Event>)
      modifies this`heap
      ensures (Value(), events) == Free(old(Value()), block)
    {
      if block in heap {
        heap := heap - {block};
        return [Freed(block)];
      }
      return [BadFree(block)];
    }

    // `stopped` when the program ends, here and below.
    method SendvIp(dest: Ip, packet: Packet, knows: HwAddr -> bool) returns (events: seq<Event>, stopped: bool)
      requires Valid()
      modifies this, arpTable
      ensures Valid() && stopped == Stops(old(Value()), Send(dest, packet), knows)
      ensures !stopped ==> (Value(), events) == SendIp(old(Value()), dest, packet)
    {
      ghost var goal := SendIp(Value(), dest, packet);
      events, stopped := [], false;
      var arp := ArpLookupIp(dest);
      if arp < ARP_TABLE_SIZE && arpTable[arp].state == EntryState.Valid {
        if Unreachable(arpTable[arp].hardwareAddress, knows) {
          return [], true;
        }
        events := [Sent(arpTable[arp].hardwareAddress, packet)];
        arpTable[arp] := arpTable[arp].(timeToLive := ARP_ENTRY_TIMEOUT);
      } else {
        if arp == ARP_TABLE_SIZE {
          arp := ArpAdd();
          if arp == ARP_TABLE_SIZE {
            return [OutOfEntries], false;
          }
          arpTable[arp] := arpTable[arp].(state := Pending, ipAddress := dest);
        } else if arpTable[arp].pendingPacket != 0 {
          events := FreeBlock(arpTable[arp].pendingPacket);
        } else {
          events := [Missing];
        }
        arpTable[arp] := arpTable[arp].(timeToLive := ARP_ENTRY_RETRY_TIMEOUT);
        var block := Malloc(packet);
        arpTable[arp] := arpTable[arp].(pendingPacket := block);
        events := events + [Asked(dest)];
        assert events == goal.1;
      }
      assert arpTable[..] == goal.0.table;
    }

    // Send and free the packet of a pending entry.
    method SendPending(block: nat, to: HwAddr) returns (events: seq<Event>)
      modifies this`heap
      ensures (Value(), events) == Deliver(old(Value()), block, to)
    {
      if block == 0 {
        return [Missing];
      }
      var sent := if block in heap then [Sent(to, heap[block])] else [];
      var freed := FreeBlock(block);
      return sent + freed;
    }

    method AnswerRequest(senderIp: Ip, sender: HwAddr, knows: HwAddr -> bool)
      returns (events: seq<Event>, stopped: bool)
      requires Valid()
      modifies this, arpTable
      ensures Valid() && stopped == Stops(old(Value()), Request(senderIp, sender), knows)
      ensures !stopped ==> (Value(), events) == HandleRequest(old(Value()), senderIp, sender)
    {
      ghost var goal := HandleRequest(Value(), senderIp, sender).0;
      events, stopped := [], false;
      var arp := ArpLookupIp(P.SwapLong(senderIp));
      if arp == ARP_TABLE_SIZE {
        arp := ArpAdd();
        if arp == ARP_TABLE_SIZE {
          return [OutOfEntries], false;
        }
        arpTable[arp] := arpTable[arp].(ipAddress := senderIp);
      }
      arpTable[arp] := arpTable[arp].(hardwareAddress := sender);
      if arpTable[arp].state == Pending {
        if arpTable[arp].pendingPacket != 0 && Unreachable(sender, knows) {
          return [], true;
        }
        events := SendPending(arpTable[arp].pendingPacket, arpTable[arp].hardwareAddress);
      }
      arpTable[arp] := arpTable[arp].(timeToLive := ARP_ENTRY_TIMEOUT);
      arpTable[arp] := arpTable[arp].(state := EntryState.Valid);
      if !knows(sender) {
        return events, true;
      }
      events := events + [Answered(sender)];
      assert arpTable[..] == goal.table;
    }

    method TakeReply(senderIp: Ip, sender: HwAddr, knows: HwAddr -> bool)
      returns (events: seq<Event>, stopped: bool)
      requires Valid()
      modifies this, arpTable
      ensures Valid() && stopped == Stops(old(Value()), Reply(senderIp, sender), knows)
      ensures !stopped ==> (Value(), events) == HandleReply(old(Value()), senderIp, sender)
    {
      ghost var goal := HandleReply(Value(), senderIp, sender).0;
      events, stopped := [], false;
      if !knows(sender) {
        return [], true;
      }
      if IsBroadcast(sender) {
        return [], false;
      }
      var arp := ArpLookupIp(P.SwapLong(senderIp));
      if arp == ARP_TABLE_SIZE || arpTable[arp].state != Pending {
        return [], false;
      }
      arpTable[arp] := arpTable[arp].(state := EntryState.Valid);
      arpTable[arp] := arpTable[arp].(hardwareAddress := sender);
      if arpTable[arp].pendingPacket == 0 {
        return [Missing], true;
      }
      events := SendPending(arpTable[arp].pendingPacket, arpTable[arp].hardwareAddress);
      assert arpTable[..] == goal.table;
    }

    // `op` and `senderIp` are the packet's; `op` in host byte order.
    method HandleArp(op: nat, senderIp: Ip, sender: HwAddr, knows: HwAddr -> bool)
      returns (events: seq<Event>, stopped: bool)
      requires Valid()
      modifies this, arpTable
      ensures Valid()
      ensures op == ARP_REQUEST || op == ARP_REPLY ==>
        var input := if op == ARP_REQUEST then Request(senderIp, sender) else Reply(senderIp, sender);
        && stopped == Stops(old(Value()), input, knows)
        && (!stopped ==> (Value(), events) == Step(old(Value()), input))
      ensures op != ARP_REQUEST && op != ARP_REPLY ==> (Value(), events) == (old(Value()), []) && !stopped
    {
      events, stopped := [], false;
      if op == ARP_REQUEST {
        events, stopped := AnswerRequest(senderIp, sender, knows);
      } else if op == ARP_REPLY {
        events, stopped := TakeReply(senderIp, sender, knows);
      }
    }

    method AgeEntry(i: nat) returns (events: seq<Event>)
      requires Valid() && i < ARP_TABLE_SIZE
      modifies this`heap, arpTable
      ensures (Value(), events) == TickEntry(old(Value()), i)
    {
      ghost var goal := TickEntry(Value(), i).0;
      events := [];
      if arpTable[i].state != Unused {
        arpTable[i] := arpTable[i].(timeToLive := arpTable[i].timeToLive - ARP_TIMER_GRANULARITY);
        if arpTable[i].timeToLive <= 0 {
          if arpTable[i].state == EntryState.Valid {
            arpTable[i] := arpTable[i].(state := Unused);
          } else if arpTable[i].retries > ARP_RETRIES {
            arpTable[i] := arpTable[i].(state := Unused);
            if arpTable[i].pendingPacket != 0 {
              events := FreeBlock(arpTable[i].pendingPacket);
            } else {
              events := [Missing];
            }
          } else {
            arpTable[i] := arpTable[i].(retries := arpTable[i].retries + 1);
            arpTable[i] := arpTable[i].(timeToLive := ARP_ENTRY_RETRY_TIMEOUT);
            events := [Asked(arpTable[i].ipAddress)];
          }
        }
      }
      assert arpTable[..] == goal.table;
    }

    method ArpCallBack() returns (events: seq<Event>)
      requires Valid()
      modifies this`heap, arpTable
      ensures (Value(), events) == Step(old(Value()), Tick)
    {
      ghost var all := TickFrom(Value(), 0);
      events := [];
      var i := 0;
      while i < ARP_TABLE_SIZE
        invariant i <= ARP_TABLE_SIZE
        invariant all.0 == TickFrom(Value(), i).0
        invariant all.1 == events + TickFrom(Value(), i).1
      {
        ghost var rest := TickFrom(TickEntry(Value(), i).0, i + 1).1;
        ghost var before := events;
        var some := AgeEntry(i);
        events := events + some;
        assert before + (some + rest) == events + rest;
        i := i + 1;
      }
      assert events + [] == events;
    }
  }
}
