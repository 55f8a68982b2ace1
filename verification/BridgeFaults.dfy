// What the bridge loses under nested interrupts: exactly which step makes a known
// address unknown, and exactly which one gives an address a board it was never
// heard on.
module BridgeFaults {
  import opened Bridge
  import opened BridgeInterrupts
  import L = LinearProbing

  // ----- Lost addresses

  // The step is an insertion, for another address, into the only slot that holds `a`.
  ghost predicate Evicts(s: State, e: Event, a: HwAddr) {
    && e.Step? && s.calls != [] && |s.table| == MAX_NUM_ADDRESSES
    && var c := s.calls[|s.calls| - 1];
       && c.frame.src != a && Fills(c).Some? && Holds(s.table, Fills(c).value, a)
       && forall i {:trigger s.table[i]} :: 0 <= i < |s.table| && Holds(s.table, i, a) ==> i == Fills(c).value
  }

  // A known address is one that some valid slot holds.
  lemma KnownIsHeld(s: State, a: HwAddr)
    requires Safe(s) && a != ZERO
    ensures LookUp(s.table, a) != -1 <==> exists i {:trigger s.table[i]} :: 0 <= i < |s.table| && Holds(s.table, i, a)
  {
    SafeLookUp(s, a);
    HashInRange(a);
    var slot := Locate(s.table, a);
    if slot.Some? {
      assert Addresses(s.table)[slot.value] == s.table[slot.value].address;
      assert Holds(s.table, slot.value, a);
      assert s.table[slot.value].boardNumber >= 0;
    }
    if i :| 0 <= i < |s.table| && Holds(s.table, i, a) {
      assert s.table[i].valid && s.table[i].address == a;
    }
  }

  // Exactly such a step makes a known address unknown.
  lemma LostIffEvicted(s: State, e: Event, a: HwAddr)
    requires Safe(s) && Enabled(s, e) && NonZero(e) && a != ZERO && LookUp(s.table, a) != -1
    ensures LookUp(Next(s, e).table, a) == -1 <==> Evicts(s, e, a)
  {
    var t := Next(s, e);
    NextIsSafe(s, e);
    KnownIsHeld(s, a);
    KnownIsHeld(t, a);
    if e.Step? {
      forall i: nat | i < |s.table|
        ensures Holds(t.table, i, a) <==>
          if Fills(s.calls[|s.calls| - 1]) == L.Some(i) then s.calls[|s.calls| - 1].frame.src == a
          else Holds(s.table, i, a)
      {
        StepHolds(s, i, a);
      }
    }
  }

  // Only the slot being filled changes its address.
  lemma StepHolds(s: State, i: nat, a: HwAddr)
    requires Safe(s) && Enabled(s, Step) && i < |s.table|
    ensures var c := s.calls[|s.calls| - 1];
      Holds(Next(s, Step).table, i, a) <==> if Fills(c) == L.Some(i) then c.frame.src == a else Holds(s.table, i, a)
  {
    assert CallOk(s, s.calls[|s.calls| - 1]);
  }

  // A call that reaches its last write leaves its source known, in a slot with the
  // board the frame came from: a station that has moved is at its new place.
  lemma UpdateMakesKnown(s: State)
    requires Safe(s) && Enabled(s, Step) && s.calls[|s.calls| - 1].pc.Update?
    ensures var t, f := Next(s, Step), s.calls[|s.calls| - 1].frame;
      && LookUp(t.table, f.src) != -1
      && HashEntry(f.src, f.macId % 256, true) in t.table
  {
    var c := s.calls[|s.calls| - 1];
    NextIsSafe(s, Step);
    assert CallOk(s, c);
    KnownIsHeld(Next(s, Step), c.frame.src);
    assert Holds(Next(s, Step).table, c.pc.slot, c.frame.src);
    assert Next(s, Step).table[c.pc.slot] == HashEntry(c.frame.src, c.frame.macId % 256, true);
  }

  ghost predicate NeverEvicts(s: State, events: seq<Event>, a: HwAddr)
    requires RunEnabled(s, events)
    decreases |events|
  {
    events != [] ==> !Evicts(s, events[0], a) && NeverEvicts(Next(s, events[0]), events[1..], a)
  }

  // `a` is known at every point of the run.
  ghost predicate StaysKnown(s: State, events: seq<Event>, a: HwAddr)
    requires RunEnabled(s, events) && |s.table| == MAX_NUM_ADDRESSES
    decreases |events|
  {
    LookUp(s.table, a) != -1 && (events != [] ==> StaysKnown(Next(s, events[0]), events[1..], a))
  }

  lemma {:induction false} KnownWhileNotEvicted(s: State, events: seq<Event>, a: HwAddr)
    requires Safe(s) && RunEnabled(s, events) && a != ZERO && LookUp(s.table, a) != -1
    requires forall e :: e in events ==> NonZero(e)
    ensures StaysKnown(s, events, a) <==> NeverEvicts(s, events, a)
    decreases |events|
  {
    if events != [] {
      NextIsSafe(s, events[0]);
      LostIffEvicted(s, events[0], a);
      if !Evicts(s, events[0], a) {
        KnownWhileNotEvicted(Next(s, events[0]), events[1..], a);
      }
    }
  }

  // The step is an insertion into a slot that holds another address by now.
  predicate TakesOver(s: State, e: Event) {
    && e.Step? && s.calls != [] && |s.table| == MAX_NUM_ADDRESSES
    && var c := s.calls[|s.calls| - 1];
       Fills(c).Some? && s.table[Fills(c).value].valid && s.table[Fills(c).value].address != c.frame.src
  }

  ghost predicate NoTakeover(s: State, events: seq<Event>)
    requires RunEnabled(s, events)
    decreases |events|
  {
    events != [] ==> !TakesOver(s, events[0]) && NoTakeover(Next(s, events[0]), events[1..])
  }

  // Without an insertion into a slot that has been taken in the meantime, nothing
  // known is ever lost.
  lemma {:induction false} NothingIsLost(s: State, events: seq<Event>, a: HwAddr)
    requires Safe(s) && RunEnabled(s, events) && a != ZERO && LookUp(s.table, a) != -1
    requires forall e :: e in events ==> NonZero(e)
    requires NoTakeover(s, events)
    ensures |Run(s, events).table| == MAX_NUM_ADDRESSES && LookUp(Run(s, events).table, a) != -1
    decreases |events|
  {
    if events != [] {
      NextIsSafe(s, events[0]);
      LostIffEvicted(s, events[0], a);
      NothingIsLost(Next(s, events[0]), events[1..], a);
    }
  }

  // ----- Wrong boards

  // Every address in the table is on a board that it was heard on. The zero address,
  // which empty slots carry, says nothing.
  ghost predicate Truthful(s: State) {
    && |s.table| == MAX_NUM_ADDRESSES
    && forall i {:trigger s.table[i]} :: 0 <= i < |s.table| && s.table[i].address != ZERO ==>
         (s.table[i].address, s.table[i].boardNumber) in s.heard
  }

  // Every call that is learning was heard.
  ghost predicate SourcesHeard(s: State) {
    forall i {:trigger s.calls[i]} :: 0 <= i < |s.calls| ==>
      var f, pc := s.calls[i].frame, s.calls[i].pc;
      && (pc.SrcCompare? || pc.SrcCheck? || pc.Insert? || pc.Update? ==> !IsBroadcast(f.src))
      && (!IsBroadcast(f.src) ==> (f.src, f.macId % 256) in s.heard)
  }

  // The step writes its board into a slot that holds an address other than its
  // source, never heard on that board.
  predicate Misplaces(s: State, e: Event) {
    && e.Step? && s.calls != []
    && var c := s.calls[|s.calls| - 1];
       && c.pc.Update? && c.pc.slot < |s.table|
       && var a := s.table[c.pc.slot].address;
          a != ZERO && a != c.frame.src && (a, c.frame.macId % 256) !in s.heard
  }

  // Whatever frames arrive, exactly such a step makes the table untrue.
  lemma UntrueIffMisplaced(s: State, e: Event)
    requires Truthful(s) && SourcesHeard(s) && Enabled(s, e)
    ensures SourcesHeard(Next(s, e))
    ensures Truthful(Next(s, e)) <==> !Misplaces(s, e)
  {
    var t := Next(s, e);
    if e.Step? {
      var c := s.calls[|s.calls| - 1];
      if c.pc.Update? {
        assert t.table[c.pc.slot] == s.table[c.pc.slot].(boardNumber := c.frame.macId % 256);
      }
    }
  }

  ghost predicate NeverMisplaces(s: State, events: seq<Event>)
    requires RunEnabled(s, events)
    decreases |events|
  {
    events != [] ==> !Misplaces(s, events[0]) && NeverMisplaces(Next(s, events[0]), events[1..])
  }

  ghost predicate StaysTruthful(s: State, events: seq<Event>)
    requires RunEnabled(s, events)
    decreases |events|
  {
    Truthful(s) && (events != [] ==> StaysTruthful(Next(s, events[0]), events[1..]))
  }

  // Over any run, frames from the zero address included.
  lemma {:induction false} TruthfulWhileNotMisplaced(s: State, events: seq<Event>)
    requires Truthful(s) && SourcesHeard(s) && RunEnabled(s, events)
    ensures StaysTruthful(s, events) <==> NeverMisplaces(s, events)
    decreases |events|
  {
    if events != [] {
      UntrueIffMisplaced(s, events[0]);
      if !Misplaces(s, events[0]) {
        TruthfulWhileNotMisplaced(Next(s, events[0]), events[1..]);
      }
    }
  }

  // In a true table a lookup names a board that the address was heard on.
  lemma TruthfulLookUp(s: State, a: HwAddr)
    requires Truthful(s) && a != ZERO && LookUp(s.table, a) != -1
    ensures (a, LookUp(s.table, a)) in s.heard
  {
    HashInRange(a);
    var slot := Locate(s.table, a);
    assert Addresses(s.table)[slot.value] == s.table[slot.value].address;
  }

  lemma InitialIsTruthful()
    ensures Truthful(Initial()) && SourcesHeard(Initial())
  {
  }

  lemma {:induction false} TruthfulAtTheEnd(s: State, events: seq<Event>)
    requires RunEnabled(s, events) && StaysTruthful(s, events)
    ensures Truthful(Run(s, events))
    decreases |events|
  {
    if events != [] {
      TruthfulAtTheEnd(Next(s, events[0]), events[1..]);
    }
  }

  // From power-up, over any run: the table is true to what was heard throughout
  // exactly when no step misplaces a board, and then every lookup at its end names a
  // board that the address was heard on.
  lemma TruthfulFromPowerUp(events: seq<Event>, a: HwAddr)
    requires RunEnabled(Initial(), events)
    ensures StaysTruthful(Initial(), events) <==> NeverMisplaces(Initial(), events)
    ensures var s := Run(Initial(), events);
      NeverMisplaces(Initial(), events) ==>
        |s.table| == MAX_NUM_ADDRESSES && (a != ZERO && LookUp(s.table, a) != -1 ==> (a, LookUp(s.table, a)) in s.heard)
  {
    InitialIsTruthful();
    TruthfulWhileNotMisplaced(Initial(), events);
    if NeverMisplaces(Initial(), events) {
      TruthfulAtTheEnd(Initial(), events);
      if a != ZERO && LookUp(Run(Initial(), events).table, a) != -1 {
        TruthfulLookUp(Run(Initial(), events), a);
      }
    }
  }

  // ----- Runs from power-up that meet such steps

  // Two addresses with the same hash slot 0.
  const FIRST := HwAddr(2, 2, 0)
  const SECOND := HwAddr(4, 4, 0)
  const EVERYONE := HwAddr(0xFFFF, 0xFFFF, 0xFFFF)

  lemma SlotZero()
    ensures Hash(FIRST) == 0 && Hash(SECOND) == 0 && Hash(ZERO) == 0
    ensures !IsBroadcast(FIRST) && !IsBroadcast(SECOND) && !IsBroadcast(ZERO) && IsBroadcast(EVERYONE)
    ensures Slot(FIRST, 0) == 0 && Slot(SECOND, 0) == 0 && Slot(ZERO, 0) == 0
  {
  }

  ghost predicate Reaches(s: State, t: State, nonZero: bool) {
    exists events ::
      RunEnabled(s, events) && Run(s, events) == t && (nonZero ==> forall e :: e in events ==> NonZero(e))
  }

  lemma Here(s: State, nonZero: bool)
    ensures Reaches(s, s, nonZero)
  {
    assert RunEnabled(s, []) && Run(s, []) == s;
  }

  lemma Via(s: State, e: Event, t: State, goal: State, nonZero: bool)
    requires Enabled(s, e) && Next(s, e) == t && (nonZero ==> NonZero(e)) && Reaches(t, goal, nonZero)
    ensures Reaches(s, goal, nonZero)
  {
    var rest :| RunEnabled(t, rest) && Run(t, rest) == goal && (nonZero ==> forall x :: x in rest ==> NonZero(x));
    var events := [e] + rest;
    assert events[1..] == rest;
    assert RunEnabled(s, events) && Run(s, events) == goal;
  }

  // With slot 0 still empty, an inner call for `g` runs to its end and fills it.
  lemma InnerCallFills(outer: Call, g: Frame, heard: set<(HwAddr, nat)>, goal: State, nonZero: bool)
    requires g.dest == EVERYONE && g.src != ZERO && !IsBroadcast(g.src) && Slot(g.src, 0) == 0
    requires var t := InitialTable()[0 := HashEntry(g.src, g.macId % 256, true)];
      Reaches(State(t, [outer], Idle, heard + {(g.src, g.macId % 256)}, {}, {}), goal, nonZero)
    ensures Reaches(State(InitialTable(), [outer], Idle, heard, {}, {}), goal, nonZero)
  {
    SlotZero();
    var t0 := InitialTable();
    var h := heard + {(g.src, g.macId % 256)};
    InnerCallEnds(outer, g, h, goal, nonZero);
    var s3 := State(t0, [outer, Call(g, Insert(0))], Idle, h, {}, {});
    var s2 := State(t0, [outer, Call(g, SrcCheck(0))], Idle, h, {}, {});
    Via(s2, Step, s3, goal, nonZero);
    var s1 := State(t0, [outer, Call(g, SrcCompare(0))], Idle, h, {}, {});
    Via(s1, Step, s2, goal, nonZero);
    Via(State(t0, [outer], Idle, heard, {}, {}), Arrive(g), s1, goal, nonZero);
  }

  lemma InnerCallEnds(outer: Call, g: Frame, h: set<(HwAddr, nat)>, goal: State, nonZero: bool)
    requires g.src != ZERO && Slot(g.src, 0) == 0
    requires var t := InitialTable()[0 := HashEntry(g.src, g.macId % 256, true)];
      Reaches(State(t, [outer], Idle, h, {}, {}), goal, nonZero)
    ensures Reaches(State(InitialTable(), [outer, Call(g, Insert(0))], Idle, h, {}, {}), goal, nonZero)
  {
    var t0 := InitialTable();
    var t1 := t0[0 := HashEntry(g.src, g.macId % 256, true)];
    var s6 := State(t1, [outer], Idle, h, {}, {});
    var s5 := State(t1, [outer, Call(g, Return)], Idle, h, {}, {});
    Via(s5, Step, s6, goal, nonZero);
    var s4 := State(t1, [outer, Call(g, Update(0))], Idle, h, {}, {});
    assert t1[0 := HashEntry(g.src, g.macId % 256, true)] == t1;
    Via(s4, Step, s5, goal, nonZero);
    var s3 := State(t0, [outer, Call(g, Insert(0))], Idle, h, {}, {});
    Via(s3, Step, s4, goal, nonZero);
  }

  // An address can be lost: FIRST's call reads slot 0 as empty, SECOND's call
  // then fills it and returns, and FIRST's write replaces SECOND.
  lemma AnAddressCanBeLost() returns (s: State)
    ensures Reaches(Initial(), s, true) && |s.table| == MAX_NUM_ADDRESSES && s.calls == []
    ensures (SECOND, 1) in s.heard && LookUp(s.table, SECOND) == -1
  {
    SlotZero();
    var f, g := Frame(0, EVERYONE, FIRST), Frame(1, EVERYONE, SECOND);
    var h1, h2 := {(FIRST, 0)}, {(FIRST, 0)} + {(SECOND, 1)};
    var t0 := InitialTable();
    var t1 := t0[0 := HashEntry(SECOND, 1, true)];
    var t2 := t1[0 := HashEntry(FIRST, 0, true)];
    s := State(t2, [], Idle, h2, {}, {});
    NotInTable(t2);
    Here(s, true);
    var s6 := State(t2, [Call(f, Return)], Idle, h2, {}, {});
    Via(s6, Step, s, s, true);
    var s5 := State(t2, [Call(f, Update(0))], Idle, h2, {}, {});
    assert t2[0 := HashEntry(FIRST, 0, true)] == t2;
    Via(s5, Step, s6, s, true);
    Via(State(t1, [Call(f, Insert(0))], Idle, h2, {}, {}), Step, s5, s, true);
    InnerCallFills(Call(f, Insert(0)), g, h1, s, true);
    var s2 := State(t0, [Call(f, SrcCheck(0))], Idle, h1, {}, {});
    Via(s2, Step, State(t0, [Call(f, Insert(0))], Idle, h1, {}, {}), s, true);
    var s1 := State(t0, [Call(f, SrcCompare(0))], Idle, h1, {}, {});
    Via(s1, Step, s2, s, true);
    Via(Initial(), Arrive(f), s1, s, true);
  }

  lemma NotInTable(t: seq<HashEntry>)
    requires |t| == MAX_NUM_ADDRESSES && t[0].address == FIRST && t[1].address == ZERO
    ensures LookUp(t, SECOND) == -1
  {
    SlotZero();
    var keys := Addresses(t);
    assert keys[L.At(|keys|, 0, 0)] == FIRST && keys[L.At(|keys|, 0, 1)] == ZERO;
    L.SlotIsFirst(keys, ZERO, SECOND, 0, 1);
  }

  lemma FirstInTable(t: seq<HashEntry>)
    requires |t| == MAX_NUM_ADDRESSES && t[0].address == FIRST
    ensures LookUp(t, FIRST) == t[0].boardNumber
  {
    SlotZero();
    var keys := Addresses(t);
    assert keys[L.At(|keys|, 0, 0)] == FIRST;
    L.SlotIsFirst(keys, ZERO, FIRST, 0, 0);
  }

  // Without NonZero the bridge can name a board on which the address was never a
  // source: a frame from the zero address matches empty slot 0, FIRST's call then
  // fills that slot, and the outer call writes its own board there.
  lemma ZeroSourceIsUnsafe() returns (s: State)
    ensures Reaches(Initial(), s, false) && |s.table| == MAX_NUM_ADDRESSES && s.calls == []
    ensures LookUp(s.table, FIRST) == 0 && (FIRST, 0) !in s.heard
  {
    SlotZero();
    var f, g := Frame(0, EVERYONE, ZERO), Frame(1, EVERYONE, FIRST);
    var h1, h2 := {(ZERO, 0)}, {(ZERO, 0)} + {(FIRST, 1)};
    var t0 := InitialTable();
    var t1 := t0[0 := HashEntry(FIRST, 1, true)];
    var t2 := t1[0 := HashEntry(FIRST, 0, true)];
    s := State(t2, [], Idle, h2, {}, {});
    FirstInTable(t2);
    Here(s, false);
    var s4 := State(t2, [Call(f, Return)], Idle, h2, {}, {});
    Via(s4, Step, s, s, false);
    Via(State(t1, [Call(f, Update(0))], Idle, h2, {}, {}), Step, s4, s, false);
    InnerCallFills(Call(f, Update(0)), g, h1, s, false);
    var s1 := State(t0, [Call(f, SrcCompare(0))], Idle, h1, {}, {});
    Via(s1, Step, State(t0, [Call(f, Update(0))], Idle, h1, {}, {}), s, false);
    Via(Initial(), Arrive(f), s1, s, false);
  }
}
