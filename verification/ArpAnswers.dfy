// Where packets go once an address is resolved, and when it is asked for.
module ArpAnswers {
  import opened Arp
  import opened ArpTimers
  import opened Bridge
  import opened LinearProbing
  import P = Potp

  // ----- Sending

  // A packet to a resolved neighbour goes out at once, unchanged, to the hardware
  // address the table gives, and the entry is good for another hour.
  lemma SendToResolved(s: Arp, dest: Ip, packet: Packet, i: nat)
    requires |s.table| == ARP_TABLE_SIZE && LookupIp(s.table, dest, 0) == Some(i) && s.table[i].state == Valid
    ensures var (t, events) := SendIp(s, dest, packet);
      && events == [Sent(s.table[i].hardwareAddress, packet)] && t.heap == s.heap
      && t.table == s.table[i := s.table[i].(timeToLive := ARP_ENTRY_TIMEOUT)]
  {
  }

  // A packet to any other address is not sent but held, if there is a slot, and the
  // address is asked for, last.
  lemma SendToOther(s: Arp, dest: Ip, packet: Packet)
    requires |s.table| == ARP_TABLE_SIZE
    requires LookupIp(s.table, dest, 0).Some? ==> s.table[LookupIp(s.table, dest, 0).value].state != Valid
    ensures var (t, events) := SendIp(s, dest, packet);
      && (forall e :: e in events ==> !e.Sent?)
      && (LookupIp(s.table, dest, 0).Some? || UnusedSlot(s.table, 0).Some? ==>
            && events != [] && events[|events| - 1] == Asked(dest)
            && s.next in t.heap && t.heap[s.next] == packet
            && exists i :: 0 <= i < |t.table| && t.table[i].state == Pending && t.table[i].ipAddress == dest &&
                           t.table[i].pendingPacket == s.next)
  {
    var t := SendIp(s, dest, packet).0;
    var slot := if LookupIp(s.table, dest, 0).Some? then LookupIp(s.table, dest, 0) else UnusedSlot(s.table, 0);
    if slot.Some? {
      assert t.table[slot.value].pendingPacket == s.next;
    }
  }

  // ----- Answers

  // A unicast reply to a pending request resolves it to the sender's address.
  lemma ReplyResolves(s: Arp, senderIp: Ip, sender: HwAddr, i: nat)
    requires |s.table| == ARP_TABLE_SIZE && !IsBroadcast(sender)
    requires LookupIp(s.table, P.SwapLong(senderIp), 0) == Some(i) && s.table[i].state == Pending
    ensures var t := HandleReply(s, senderIp, sender).0;
      t.table == s.table[i := s.table[i].(state := Valid, hardwareAddress := sender)]
  {
  }

  // Any other reply changes nothing and is not answered.
  lemma ReplyIgnored(s: Arp, senderIp: Ip, sender: HwAddr)
    requires |s.table| == ARP_TABLE_SIZE
    requires var slot := LookupIp(s.table, P.SwapLong(senderIp), 0);
      IsBroadcast(sender) || slot == None || s.table[slot.value].state == Valid
    ensures HandleReply(s, senderIp, sender) == (s, [])
  {
  }

  // A request is answered if its sender has or gets a slot, and that slot then gives
  // the sender's address for an hour.
  lemma RequestResolves(s: Arp, senderIp: Ip, sender: HwAddr)
    requires |s.table| == ARP_TABLE_SIZE
    ensures var (t, events) := HandleRequest(s, senderIp, sender);
      if LookupIp(s.table, P.SwapLong(senderIp), 0) == None && UnusedSlot(s.table, 0) == None then
        t == s && events == [OutOfEntries]
      else
        && events != [] && events[|events| - 1] == Answered(sender)
        && exists i :: 0 <= i < |t.table| && t.table[i].state == Valid && t.table[i].hardwareAddress == sender &&
                       t.table[i].timeToLive == ARP_ENTRY_TIMEOUT
  {
    var known := LookupIp(s.table, P.SwapLong(senderIp), 0);
    var slot := if known.Some? then known else UnusedSlot(s.table, 0);
    if slot.Some? {
      assert HandleRequest(s, senderIp, sender).0.table[slot.value].hardwareAddress == sender;
    }
  }

  // ----- From an answer to the packets after it

  // Slot `i` is the one for `ip`, and gives `hw`.
  predicate Resolved(s: Arp, ip: Ip, i: nat, hw: HwAddr) {
    && |s.table| == ARP_TABLE_SIZE && LookupIp(s.table, ip, 0) == Some(i)
    && s.table[i].state == Valid && s.table[i].hardwareAddress == hw
  }

  // The hardware address that slot `i` gives after an input, having given `hw`.
  function Told(s: Arp, input: Input, i: nat, hw: HwAddr): HwAddr
    requires |s.table| == ARP_TABLE_SIZE
  {
    if input.Request? && LookupIp(s.table, P.SwapLong(input.senderIp), 0) == Some(i) then input.sender else hw
  }

  // The input is a request that is recorded for `ip` in a slot before `i`: it comes
  // from the address that reads as `ip` with its bytes reversed, which has no slot.
  predicate Shadows(s: Arp, input: Input, ip: Ip, i: nat)
    requires |s.table| == ARP_TABLE_SIZE
  {
    && input.Request? && input.senderIp == ip && LookupIp(s.table, P.SwapLong(ip), 0) == None
    && UnusedSlot(s.table, 0).Some? && UnusedSlot(s.table, 0).value < i
  }

  lemma FirstMatch(table: seq<ArpEntry>, ip: Ip, i: nat)
    requires i < |table| && Matches(table[i], ip) && forall j :: 0 <= j < i ==> !Matches(table[j], ip)
    ensures LookupIp(table, ip, 0) == Some(i)
  {
  }

  // A step that leaves the entry valid leaves the neighbour resolved, to what it has
  // been told last, exactly when the step does not shadow it.
  lemma StaysResolved(s: Arp, input: Input, ip: Ip, i: nat, hw: HwAddr)
    requires Resolved(s, ip, i, hw) && Step(s, input).0.table[i].state == Valid
    ensures Resolved(Step(s, input).0, ip, i, Told(s, input, i, hw)) <==> !Shadows(s, input, ip, i)
  {
    match input
    case Tick => TickKeepsResolved(s, ip, i, hw);
    case Send(_, _) => SendKeepsResolved(s, input, ip, i, hw);
    case Reply(_, _) =>
      assert forall j {:trigger s.table[j]} ::
        0 <= j < ARP_TABLE_SIZE ==> Matches(Step(s, input).0.table[j], ip) == Matches(s.table[j], ip);
      FirstMatch(Step(s, input).0.table, ip, i);
    case Request(_, _) => RequestKeepsResolved(s, input, ip, i, hw);
  }

  lemma TickKeepsResolved(s: Arp, ip: Ip, i: nat, hw: HwAddr)
    requires Resolved(s, ip, i, hw) && Step(s, Tick).0.table[i].state == Valid
    ensures Resolved(Step(s, Tick).0, ip, i, hw)
  {
    forall j | 0 <= j < ARP_TABLE_SIZE
      ensures Step(s, Tick).0.table[j] == Aged(s.table[j])
    {
      TickAges(s, 0, j);
    }
    FirstMatch(Step(s, Tick).0.table, ip, i);
  }

  lemma SendKeepsResolved(s: Arp, input: Input, ip: Ip, i: nat, hw: HwAddr)
    requires Resolved(s, ip, i, hw) && input.Send?
    ensures Resolved(Step(s, input).0, ip, i, hw)
  {
    var t := Step(s, input).0;
    if input.dest == ip {
      SendToResolved(s, ip, input.packet, i);
    } else {
      var slot := LookupIp(s.table, input.dest, 0);
      assert forall j {:trigger s.table[j]} ::
        0 <= j < ARP_TABLE_SIZE ==> Matches(t.table[j], ip) == Matches(s.table[j], ip);
    }
    FirstMatch(t.table, ip, i);
  }

  // A request from a host with a slot.
  lemma KnownKeepsResolved(s: Arp, senderIp: Ip, sender: HwAddr, k: nat, ip: Ip, i: nat, hw: HwAddr)
    requires Resolved(s, ip, i, hw) && LookupIp(s.table, P.SwapLong(senderIp), 0) == Some(k)
    ensures Resolved(HandleRequest(s, senderIp, sender).0, ip, i, if k == i then sender else hw)
  {
    var t := HandleRequest(s, senderIp, sender).0;
    assert forall j {:trigger s.table[j]} ::
      0 <= j < ARP_TABLE_SIZE ==> Matches(t.table[j], ip) == Matches(s.table[j], ip);
    FirstMatch(t.table, ip, i);
  }

  // A request from one without, which takes slot `u`.
  lemma NewKeepsResolved(s: Arp, senderIp: Ip, sender: HwAddr, u: nat, ip: Ip, i: nat, hw: HwAddr)
    requires Resolved(s, ip, i, hw) && LookupIp(s.table, P.SwapLong(senderIp), 0) == None
    requires UnusedSlot(s.table, 0) == Some(u)
    ensures Resolved(HandleRequest(s, senderIp, sender).0, ip, i, hw) <==> !(senderIp == ip && u < i)
  {
    var t := HandleRequest(s, senderIp, sender).0;
    assert forall j {:trigger s.table[j]} :: 0 <= j < ARP_TABLE_SIZE && j != u ==> t.table[j] == s.table[j];
    assert Matches(t.table[u], ip) <==> senderIp == ip;
    if !(senderIp == ip && u < i) {
      FirstMatch(t.table, ip, i);
    }
  }

  lemma RequestKeepsResolved(s: Arp, input: Input, ip: Ip, i: nat, hw: HwAddr)
    requires Resolved(s, ip, i, hw) && input.Request? && Step(s, input).0.table[i].state == Valid
    ensures Resolved(Step(s, input).0, ip, i, Told(s, input, i, hw)) <==> !Shadows(s, input, ip, i)
  {
    var known, free := LookupIp(s.table, P.SwapLong(input.senderIp), 0), UnusedSlot(s.table, 0);
    if known.Some? {
      KnownKeepsResolved(s, input.senderIp, input.sender, known.value, ip, i, hw);
    } else if free.Some? {
      NewKeepsResolved(s, input.senderIp, input.sender, free.value, ip, i, hw);
    }
  }

  // The address that slot `i` gives after a run that leaves it valid throughout.
  function LastTold(s: Arp, inputs: seq<Input>, i: nat, hw: HwAddr): HwAddr
    requires |s.table| == ARP_TABLE_SIZE
    decreases |inputs|
  {
    if inputs == [] then hw else LastTold(Step(s, inputs[0]).0, inputs[1..], i, Told(s, inputs[0], i, hw))
  }

  predicate StaysValid(s: Arp, inputs: seq<Input>, i: nat)
    requires |s.table| == ARP_TABLE_SIZE && i < ARP_TABLE_SIZE
    decreases |inputs|
  {
    s.table[i].state == Valid && (inputs != [] ==> StaysValid(Step(s, inputs[0]).0, inputs[1..], i))
  }

  predicate NeverShadowed(s: Arp, inputs: seq<Input>, ip: Ip, i: nat)
    requires |s.table| == ARP_TABLE_SIZE
    decreases |inputs|
  {
    inputs != [] ==> !Shadows(s, inputs[0], ip, i) && NeverShadowed(Step(s, inputs[0]).0, inputs[1..], ip, i)
  }

  lemma {:induction false} RunStaysResolved(s: Arp, inputs: seq<Input>, ip: Ip, i: nat, hw: HwAddr)
    requires Resolved(s, ip, i, hw) && StaysValid(s, inputs, i) && NeverShadowed(s, inputs, ip, i)
    ensures Resolved(Run(s, inputs).0, ip, i, LastTold(s, inputs, i, hw))
    decreases |inputs|
  {
    if inputs != [] {
      StaysResolved(s, inputs[0], ip, i, hw);
      RunStaysResolved(Step(s, inputs[0]).0, inputs[1..], ip, i, Told(s, inputs[0], i, hw));
    }
  }

  // After a reply, while its entry stays valid and is not shadowed, every packet to
  // the address goes out unchanged to the hardware address the reply gave, or a later
  // request from the same host.
  lemma PacketsFollowAnswers(
      s: Arp, senderIp: Ip, sender: HwAddr, i: nat, inputs: seq<Input>, packet: Packet)
    requires |s.table| == ARP_TABLE_SIZE && !IsBroadcast(sender)
    requires LookupIp(s.table, P.SwapLong(senderIp), 0) == Some(i) && s.table[i].state == Pending
    requires var t := Step(s, Reply(senderIp, sender)).0;
      StaysValid(t, inputs, i) && NeverShadowed(t, inputs, P.SwapLong(senderIp), i)
    ensures var t := Step(s, Reply(senderIp, sender)).0;
      SendIp(Run(t, inputs).0, P.SwapLong(senderIp), packet).1 == [Sent(LastTold(t, inputs, i, sender), packet)]
  {
    var t, ip := Step(s, Reply(senderIp, sender)).0, P.SwapLong(senderIp);
    ReplyResolves(s, senderIp, sender, i);
    FirstMatch(t.table, ip, i);
    RunStaysResolved(t, inputs, ip, i, sender);
    SendToResolved(Run(t, inputs).0, ip, packet, i);
  }

  // ----- How long an answer is good

  // The input is a packet to the neighbour of slot `i`, or a request from it.
  predicate Refreshes(s: Arp, input: Input, i: nat)
    requires |s.table| == ARP_TABLE_SIZE
  {
    || (input.Send? && LookupIp(s.table, input.dest, 0) == Some(i))
    || (input.Request? && LookupIp(s.table, P.SwapLong(input.senderIp), 0) == Some(i))
  }

  predicate NotRefreshed(s: Arp, inputs: seq<Input>, i: nat)
    requires |s.table| == ARP_TABLE_SIZE && i < ARP_TABLE_SIZE
    decreases |inputs|
  {
    inputs != [] && s.table[i].state == Valid ==>
      !Refreshes(s, inputs[0], i) && NotRefreshed(Step(s, inputs[0]).0, inputs[1..], i)
  }

  lemma ValidStep(s: Arp, input: Input, i: nat)
    requires |s.table| == ARP_TABLE_SIZE && i < ARP_TABLE_SIZE
    requires s.table[i].state == Valid && !Refreshes(s, input, i)
    ensures Step(s, input).0.table[i] == if input == Tick then Aged(s.table[i]) else s.table[i]
  {
    if input == Tick {
      TickAges(s, 0, i);
    }
  }

  // An entry that neither packets nor requests refresh stays valid exactly until as many
  // ticks have gone by as it had left.
  lemma {:induction false} AnswersRunOut(s: Arp, inputs: seq<Input>, i: nat)
    requires |s.table| == ARP_TABLE_SIZE && i < ARP_TABLE_SIZE && NotRefreshed(s, inputs, i)
    requires s.table[i].state == Valid && s.table[i].timeToLive >= 1
    ensures StaysValid(s, inputs, i) <==> Ticks(inputs) < s.table[i].timeToLive
    decreases |inputs|
  {
    if inputs != [] {
      ValidStep(s, inputs[0], i);
      var t := Step(s, inputs[0]).0;
      if t.table[i].state == Valid {
        AnswersRunOut(t, inputs[1..], i);
      }
    }
  }

  // ----- Asking again

  // The entry's time is up and it has retries left.
  predicate AsksAgain(e: ArpEntry, ip: Ip) {
    e.state == Pending && e.timeToLive <= ARP_TIMER_GRANULARITY && e.retries <= ARP_RETRIES && e.ipAddress == ip
  }

  lemma {:induction false} TickFromAsks(s: Arp, i: nat, ip: Ip)
    requires i <= |s.table|
    ensures Asked(ip) in TickFrom(s, i).1 <==> exists j :: i <= j < |s.table| && AsksAgain(s.table[j], ip)
    decreases |s.table| - i
  {
    if i < |s.table| {
      var (t, first) := TickEntry(s, i);
      TickFromAsks(t, i + 1, ip);
      assert forall j {:trigger s.table[j]} :: i < j < |s.table| ==> t.table[j] == s.table[j];
      assert Asked(ip) in first <==> AsksAgain(s.table[i], ip);
    }
  }

  // A tick asks again for exactly the addresses whose entries are due and have
  // retries left.
  lemma TickAsks(s: Arp, ip: Ip)
    requires |s.table| == ARP_TABLE_SIZE
    ensures Asked(ip) in Step(s, Tick).1 <==> exists j :: 0 <= j < |s.table| && AsksAgain(s.table[j], ip)
  {
    TickFromAsks(s, 0, ip);
  }
}
