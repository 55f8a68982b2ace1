// The bridge under nested interrupts. Every arriving frame starts a call of
// `bridge` that may itself be interrupted, between any two of its steps, by
// another complete call; the main thread's `bridgeLookUp` is interrupted the
// same way after its guarded search. A call reads a slot's address, then its
// valid mark, then writes under guard, so it can write to a slot that an inner
// call has filled in the meantime.
module BridgeInterrupts {
  import opened Bridge
  import opened LinearProbing

  // Where a call of `bridge` is. `k` counts probes from the hash slot.
  datatype Pc =
    | DestCompare(k: nat)   // compare the slot's address with the destination
    | DestCheck(k: nat)     // it differed: read the slot's valid mark
    | DestBoard(slot: nat)  // it matched: read the board number
    | SrcCompare(k: nat)
    | SrcCheck(k: nat)
    | Insert(k: nat)        // the mark read NO: write the slot under guard
    | Update(slot: nat)     // matched or inserted: write the board under guard
    | Return

  datatype Call = Call(frame: Frame, pc: Pc)

  // The main thread between the search of `bridgeLookUp` and its board read.
  datatype Main = Idle | Reading(addr: HwAddr, slot: nat)

  datatype State = State(
    table: seq<HashEntry>,
    calls: seq<Call>,            // innermost last
    main: Main,
    heard: set<(HwAddr, nat)>,   // (source, board) of every frame so far
    told: set<(HwAddr, nat)>,    // (address, board) that bridgeLookUp returned
    held: set<(HwAddr, nat)>)    // (destination, board) of frames held back

  datatype Event =
    | Arrive(frame: Frame)
    | Step
    | StartLookUp(addr: HwAddr)
    | FinishLookUp

  function Initial(): State {
    State(InitialTable(), [], Idle, {}, {}, {})
  }

  function SrcStart(f: Frame): Pc {
    if IsBroadcast(f.src) then Return else SrcCompare(0)
  }

  function CallStart(f: Frame): Pc {
    if IsBroadcast(f.dest) then SrcStart(f) else DestCompare(0)
  }

  function Slot(a: HwAddr, k: nat): (p: nat)
    requires k < MAX_NUM_ADDRESSES
    ensures p < MAX_NUM_ADDRESSES
  {
    HashInRange(a);
    At(MAX_NUM_ADDRESSES, Hash(a), k)
  }

  predicate PcInRange(pc: Pc) {
    match pc
    case DestBoard(slot) => slot < MAX_NUM_ADDRESSES
    case Update(slot) => slot < MAX_NUM_ADDRESSES
    case Return => true
    case _ => pc.k < MAX_NUM_ADDRESSES
  }

  // One step of the innermost call `c`.
  function StepCall(s: State, c: Call): (r: (State, Pc))
    requires |s.table| == MAX_NUM_ADDRESSES && PcInRange(c.pc)
    ensures |r.0.table| == MAX_NUM_ADDRESSES
  {
    var f := c.frame;
    match c.pc
    case DestCompare(k) =>
      var p := Slot(f.dest, k);
      (s, if s.table[p].address == f.dest then DestBoard(p) else DestCheck(k))
    case DestCheck(k) =>
      (s, if !s.table[Slot(f.dest, k)].valid || k + 1 == MAX_NUM_ADDRESSES then SrcStart(f) else DestCompare(k + 1))
    case DestBoard(p) =>
      (if s.table[p].boardNumber == f.macId then s.(held := s.held + {(f.dest, f.macId)}) else s, SrcStart(f))
    case SrcCompare(k) =>
      var p := Slot(f.src, k);
      (s, if s.table[p].address == f.src then Update(p) else SrcCheck(k))
    case SrcCheck(k) =>
      (s, if !s.table[Slot(f.src, k)].valid then Insert(k)
          else if k + 1 == MAX_NUM_ADDRESSES then Return
          else SrcCompare(k + 1))
    case Insert(k) =>
      var p := Slot(f.src, k);
      (s.(table := s.table[p := HashEntry(f.src, f.macId % 256, true)]), Update(p))
    case Update(p) =>
      (s.(table := s.table[p := s.table[p].(boardNumber := f.macId % 256)]), Return)
    case Return => (s, Return)
  }

  predicate Enabled(s: State, e: Event) {
    |s.table| == MAX_NUM_ADDRESSES &&
    match e
    case Arrive(f) => true
    case Step => s.calls != [] && PcInRange(s.calls[|s.calls| - 1].pc)
    case StartLookUp(a) => s.calls == [] && s.main == Idle
    case FinishLookUp => s.calls == [] && s.main.Reading? && s.main.slot < MAX_NUM_ADDRESSES
  }

  // An empty slot matches the zero address, so no frame may carry it.
  predicate NonZero(e: Event) {
    match e
    case Arrive(f) => f.src != ZERO && f.dest != ZERO
    case StartLookUp(a) => a != ZERO
    case _ => true
  }

  function Next(s: State, e: Event): (t: State)
    requires Enabled(s, e)
    ensures |t.table| == MAX_NUM_ADDRESSES
  {
    match e
    case Arrive(f) =>
      s.(calls := s.calls + [Call(f, CallStart(f))],
         heard := if IsBroadcast(f.src) then s.heard else s.heard + {(f.src, f.macId % 256)})
    case Step =>
      var last := |s.calls| - 1;
      var c := s.calls[last];
      if c.pc == Return then s.(calls := s.calls[..last])
      else
        var (t, pc) := StepCall(s, c);
        t.(calls := s.calls[last := c.(pc := pc)])
    case StartLookUp(a) =>
      var slot := Locate(s.table, a);
      s.(main := if slot.Some? then Reading(a, slot.value) else Idle)
    case FinishLookUp =>
      s.(main := Idle, told := s.told + {(s.main.addr, s.table[s.main.slot].boardNumber)})
  }

  // ----- The invariant

  // The first `k` slots on the probe path of `a` are taken.
  ghost predicate PathTaken(table: seq<HashEntry>, a: HwAddr, k: nat)
    requires |table| == MAX_NUM_ADDRESSES && k <= MAX_NUM_ADDRESSES
  {
    forall j {:trigger Slot(a, j)} :: 0 <= j < k ==> table[Slot(a, j)].valid
  }

  ghost predicate Holds(table: seq<HashEntry>, slot: nat, a: HwAddr) {
    slot < |table| && table[slot].valid && table[slot].address == a
  }

  ghost predicate EntryOk(s: State, i: nat)
    requires |s.table| == MAX_NUM_ADDRESSES && i < |s.table|
  {
    s.table[i].valid ==>
      && (s.table[i].address, s.table[i].boardNumber) in s.heard
      && (exists k {:trigger Slot(s.table[i].address, k)} :: 0 <= k < MAX_NUM_ADDRESSES &&
           Slot(s.table[i].address, k) == i && PathTaken(s.table, s.table[i].address, k))
  }

  ghost predicate CallOk(s: State, c: Call)
    requires |s.table| == MAX_NUM_ADDRESSES
  {
    && PcInRange(c.pc)
    && c.frame.src != ZERO && c.frame.dest != ZERO
    && (!IsBroadcast(c.frame.src) ==> (c.frame.src, c.frame.macId % 256) in s.heard)
    && match c.pc
       case DestBoard(slot) => Holds(s.table, slot, c.frame.dest)
       case Update(slot) => !IsBroadcast(c.frame.src) && Holds(s.table, slot, c.frame.src)
       case SrcCompare(k) => !IsBroadcast(c.frame.src) && PathTaken(s.table, c.frame.src, k)
       case SrcCheck(k) => !IsBroadcast(c.frame.src) && PathTaken(s.table, c.frame.src, k)
       case Insert(k) => !IsBroadcast(c.frame.src) && PathTaken(s.table, c.frame.src, k)
       case _ => true
  }

  // The slot whose contents a call relies on, and the slot it is about to fill.
  function Claims(c: Call): Option<nat> {
    if c.pc.DestBoard? || c.pc.Update? then Some(c.pc.slot) else None
  }

  function Fills(c: Call): Option<nat> {
    if c.pc.Insert? && c.pc.k < MAX_NUM_ADDRESSES then Some(Slot(c.frame.src, c.pc.k)) else None
  }

  // An inner call never fills a slot that an outer call relies on. (The converse
  // is not so: an outer call may overwrite what an inner one has written.)
  ghost predicate NoInnerFill(calls: seq<Call>) {
    forall i, j {:trigger calls[i], calls[j]} ::
      0 <= i < j < |calls| && Claims(calls[i]).Some? ==> Claims(calls[i]) != Fills(calls[j])
  }

  ghost predicate MainOk(s: State) {
    s.main.Reading? ==>
      && Holds(s.table, s.main.slot, s.main.addr)
      && forall j {:trigger s.calls[j]} :: 0 <= j < |s.calls| ==> Fills(s.calls[j]) != Some(s.main.slot)
  }

  ghost predicate Safe(s: State) {
    && |s.table| == MAX_NUM_ADDRESSES
    && MarksMatch(s.table)
    && (forall i {:trigger EntryOk(s, i)} :: 0 <= i < |s.table| ==> EntryOk(s, i))
    && (forall i {:trigger s.calls[i]} :: 0 <= i < |s.calls| ==> CallOk(s, s.calls[i]))
    && NoInnerFill(s.calls)
    && MainOk(s)
    && s.told <= s.heard && s.held <= s.heard
  }

  // ----- Every step keeps it

  // Filling or rewriting slot `p` with an entry whose path is taken keeps every
  // entry sound.
  lemma WriteKeepsEntries(s: State, t: State, p: nat)
    requires |s.table| == |t.table| == MAX_NUM_ADDRESSES && p < MAX_NUM_ADDRESSES && s.heard <= t.heard
    requires forall i {:trigger EntryOk(s, i)} :: 0 <= i < |s.table| ==> EntryOk(s, i)
    requires SameExcept(s.table, t.table, p) && t.table[p].valid && EntryOk(t, p)
    ensures forall i {:trigger EntryOk(t, i)} :: 0 <= i < |t.table| ==> EntryOk(t, i)
  {
    forall i | 0 <= i < |t.table| && i != p
      ensures EntryOk(t, i)
    {
      assert EntryOk(s, i);
      if s.table[i].valid {
        var a := s.table[i].address;
        var k :| 0 <= k < MAX_NUM_ADDRESSES && Slot(a, k) == i && PathTaken(s.table, a, k);
        assert PathTaken(t.table, a, k);
      }
    }
  }

  lemma SameTable(s: State, t: State)
    requires |s.table| == MAX_NUM_ADDRESSES && t.table == s.table && s.heard <= t.heard
    requires forall i {:trigger EntryOk(s, i)} :: 0 <= i < |s.table| ==> EntryOk(s, i)
    ensures forall i {:trigger EntryOk(t, i)} :: 0 <= i < |t.table| ==> EntryOk(t, i)
  {
    forall i | 0 <= i < |t.table|
      ensures EntryOk(t, i)
    {
      assert EntryOk(s, i);
    }
  }

  // A call that does not rely on slot `p`, or finds its address still there,
  // survives a write to it.
  lemma WriteKeepsCall(s: State, t: State, p: nat, c: Call)
    requires |s.table| == |t.table| == MAX_NUM_ADDRESSES && s.heard <= t.heard && CallOk(s, c)
    requires SameExcept(s.table, t.table, p) && t.table[p].valid
    requires Claims(c) == Some(p) ==> t.table[p].address == s.table[p].address
    ensures CallOk(t, c)
  {
  }

  lemma ArriveIsSafe(s: State, f: Frame)
    requires Safe(s) && Enabled(s, Arrive(f)) && f.src != ZERO && f.dest != ZERO
    ensures Safe(Next(s, Arrive(f)))
  {
    var t := Next(s, Arrive(f));
    SameTable(s, t);
    forall i | 0 <= i < |t.calls|
      ensures CallOk(t, t.calls[i])
    {
      assert i < |s.calls| ==> t.calls[i] == s.calls[i] && CallOk(s, s.calls[i]);
    }
  }

  // A step that leaves the table alone.
  lemma ReadIsSafe(s: State)
    requires Safe(s) && Enabled(s, Step)
    requires var pc := s.calls[|s.calls| - 1].pc; !pc.Insert? && !pc.Update?
    ensures Safe(Next(s, Step))
  {
    var t := Next(s, Step);
    var last := |s.calls| - 1;
    SameTable(s, t);
    if s.calls[last].pc == Return {
      assert forall i :: 0 <= i < |t.calls| ==>
        t.calls[i] == s.calls[i] && (CallOk(s, s.calls[i]) ==> CallOk(t, t.calls[i]));
    } else {
      ReadKeepsCall(s);
      ReadKeepsClaims(s);
      assert forall i :: 0 <= i < last ==>
        t.calls[i] == s.calls[i] && (CallOk(s, s.calls[i]) ==> CallOk(t, t.calls[i]));
    }
  }

  // The slot the innermost call is about to fill reads as empty, so it is not one
  // that the others rely on.
  lemma ReadKeepsClaims(s: State)
    requires Safe(s) && Enabled(s, Step)
    requires var pc := s.calls[|s.calls| - 1].pc; !pc.Insert? && !pc.Update? && !pc.Return?
    ensures var t := Next(s, Step); NoInnerFill(t.calls) && MainOk(t) && t.held <= t.heard
  {
    var t := Next(s, Step);
    var last := |s.calls| - 1;
    var c := s.calls[last];
    assert CallOk(s, c);
    ClaimedIsTaken(s);
    if c.pc.DestBoard? {
      assert EntryOk(s, c.pc.slot);
    }
    assert Fills(t.calls[last]).Some? ==> !s.table[Fills(t.calls[last]).value].valid;
  }

  lemma ReadKeepsCall(s: State)
    requires Safe(s) && Enabled(s, Step)
    requires var pc := s.calls[|s.calls| - 1].pc; !pc.Insert? && !pc.Update? && !pc.Return?
    ensures var last := |s.calls| - 1; CallOk(Next(s, Step), Next(s, Step).calls[last])
  {
    var c := s.calls[|s.calls| - 1];
    assert CallOk(s, c);
  }

  // What outer calls and the main thread rely on is taken, so it cannot read as
  // an empty slot.
  lemma ClaimedIsTaken(s: State)
    requires Safe(s)
    ensures forall i {:trigger s.calls[i]} :: 0 <= i < |s.calls| && Claims(s.calls[i]).Some? ==>
      Claims(s.calls[i]).value < |s.table| && s.table[Claims(s.calls[i]).value].valid
  {
    forall i | 0 <= i < |s.calls| && Claims(s.calls[i]).Some?
      ensures Claims(s.calls[i]).value < |s.table| && s.table[Claims(s.calls[i]).value].valid
    {
      assert CallOk(s, s.calls[i]);
    }
  }

  // The slot that the innermost call is about to write.
  function Written(c: Call): nat
    requires PcInRange(c.pc) && (c.pc.Insert? || c.pc.Update?)
  {
    if c.pc.Insert? then Slot(c.frame.src, c.pc.k) else c.pc.slot
  }

  lemma WrittenIsOk(s: State)
    requires Safe(s) && Enabled(s, Step)
    requires var pc := s.calls[|s.calls| - 1].pc; pc.Insert? || pc.Update?
    ensures var t, p := Next(s, Step), Written(s.calls[|s.calls| - 1]);
      t.table == s.table[p := t.table[p]] && t.table[p].valid && EntryOk(t, p)
  {
    var t := Next(s, Step);
    var c := s.calls[|s.calls| - 1];
    assert CallOk(s, c);
    if c.pc.Insert? {
      assert PathTaken(t.table, c.frame.src, c.pc.k);
    } else {
      assert EntryOk(s, c.pc.slot);
      var k :| 0 <= k < MAX_NUM_ADDRESSES && Slot(c.frame.src, k) == c.pc.slot && PathTaken(s.table, c.frame.src, k);
      assert PathTaken(t.table, c.frame.src, k);
    }
  }

  lemma WriteKeepsCalls(s: State, i: nat)
    requires Safe(s) && Enabled(s, Step)
    requires var pc := s.calls[|s.calls| - 1].pc; pc.Insert? || pc.Update?
    requires i < |s.calls|
    ensures CallOk(Next(s, Step), Next(s, Step).calls[i])
  {
    var t, last := Next(s, Step), |s.calls| - 1;
    assert CallOk(s, s.calls[last]) && CallOk(s, s.calls[i]);
    WrittenIsOk(s);
    if i < last {
      WriteKeepsCall(s, t, Written(s.calls[last]), s.calls[i]);
    }
  }

  // A guarded write, whatever inner calls did to the slot before it.
  lemma WriteIsSafe(s: State)
    requires Safe(s) && Enabled(s, Step)
    requires var pc := s.calls[|s.calls| - 1].pc; pc.Insert? || pc.Update?
    ensures Safe(Next(s, Step))
  {
    var t := Next(s, Step);
    assert CallOk(s, s.calls[|s.calls| - 1]);
    WrittenIsOk(s);
    WriteKeepsEntries(s, t, Written(s.calls[|s.calls| - 1]));
    forall i | 0 <= i < |t.calls|
      ensures CallOk(t, t.calls[i])
    {
      WriteKeepsCalls(s, i);
    }
  }

  lemma NextIsSafe(s: State, e: Event)
    requires Safe(s) && Enabled(s, e) && NonZero(e)
    ensures Safe(Next(s, e))
  {
    match e
    case Arrive(f) => ArriveIsSafe(s, f);
    case Step =>
      var pc := s.calls[|s.calls| - 1].pc;
      if pc.Insert? || pc.Update? { WriteIsSafe(s); } else { ReadIsSafe(s); }
    case StartLookUp(a) => LookUpKeepsSafe(s, e);
    case FinishLookUp => LookUpKeepsSafe(s, e);
  }

  lemma LookUpKeepsSafe(s: State, e: Event)
    requires Safe(s) && Enabled(s, e) && NonZero(e) && (e.StartLookUp? || e.FinishLookUp?)
    ensures Safe(Next(s, e))
  {
    var t := Next(s, e);
    SameTable(s, t);
    if e.FinishLookUp? {
      assert EntryOk(s, s.main.slot);
    } else {
      HashInRange(e.addr);
      assert Addresses(s.table)[0] == s.table[0].address;
    }
  }

  // ----- Whole runs

  ghost predicate RunEnabled(s: State, events: seq<Event>)
    decreases |events|
  {
    events != [] ==> Enabled(s, events[0]) && RunEnabled(Next(s, events[0]), events[1..])
  }

  ghost function Run(s: State, events: seq<Event>): State
    requires RunEnabled(s, events)
    decreases |events|
  {
    if events == [] then s else Run(Next(s, events[0]), events[1..])
  }

  lemma {:induction false} RunIsSafe(s: State, events: seq<Event>)
    requires Safe(s) && RunEnabled(s, events) && forall e :: e in events ==> NonZero(e)
    ensures Safe(Run(s, events))
    decreases |events|
  {
    if events != [] {
      NextIsSafe(s, events[0]);
      RunIsSafe(Next(s, events[0]), events[1..]);
    }
  }

  // In a safe state every valid slot's address is found by probing, and a lookup
  // names only a board on which the address was a source.
  lemma SafeLookUp(s: State, a: HwAddr)
    requires Safe(s) && a != ZERO
    ensures LookUp(s.table, a) != -1 ==> (a, LookUp(s.table, a)) in s.heard
    ensures (exists i :: 0 <= i < |s.table| && s.table[i].valid && s.table[i].address == a) ==> LookUp(s.table, a) != -1
  {
    HashInRange(a);
    var slot := Locate(s.table, a);
    if slot.Some? {
      assert EntryOk(s, slot.value);
    }
    if i :| 0 <= i < |s.table| && s.table[i].valid && s.table[i].address == a {
      assert EntryOk(s, i);
      var k :| 0 <= k < MAX_NUM_ADDRESSES && Slot(a, k) == i && PathTaken(s.table, a, k);
      PathTakenFinds(s.table, a, k);
    }
    assert slot.Some? ==> s.table[slot.value].boardNumber >= 0;
  }

  lemma PathTakenFinds(table: seq<HashEntry>, a: HwAddr, k: nat)
    requires |table| == MAX_NUM_ADDRESSES && MarksMatch(table) && a != ZERO && k < MAX_NUM_ADDRESSES
    requires PathTaken(table, a, k) && table[Slot(a, k)].address == a
    ensures Locate(table, a).Some?
  {
    HashInRange(a);
    var keys := Addresses(table);
    var r := FindSlot(keys, ZERO, a, Hash(a), 0);
    assert keys[At(|keys|, Hash(a), k)] == a;
    DistAt(|keys|, Hash(a), k);
    assert r.Some? ==> Slot(a, Dist(|keys|, Hash(a), r.value)) == r.value;
  }

  // From power-up, under any nesting of interrupts: valid slots stay reachable,
  // and neither a lookup nor a held-back frame ever relies on a board on which
  // that address was not a source.
  lemma InterruptsAreSafe(events: seq<Event>, a: HwAddr)
    requires RunEnabled(Initial(), events) && a != ZERO
    requires forall e :: e in events ==> NonZero(e)
    ensures var s := Run(Initial(), events);
      && |s.table| == MAX_NUM_ADDRESSES
      && s.told <= s.heard && s.held <= s.heard
      && (LookUp(s.table, a) != -1 ==> (a, LookUp(s.table, a)) in s.heard)
      && ((exists i :: 0 <= i < |s.table| && s.table[i].valid && s.table[i].address == a) ==> LookUp(s.table, a) != -1)
  {
    forall i | 0 <= i < MAX_NUM_ADDRESSES
      ensures EntryOk(Initial(), i)
    {
      assert InitialTable()[i] == EMPTY;
    }
    RunIsSafe(Initial(), events);
    SafeLookUp(Run(Initial(), events), a);
  }
}
