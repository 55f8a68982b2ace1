// What a call of the bridge does when nothing interrupts it: step by step it comes
// to the table and the decision of the bridge without interrupts.
module BridgeCalls {
  import opened Bridge
  import opened BridgeInterrupts
  import L = LinearProbing

  function Stepped(n: nat): seq<Event> { seq(n, _ => Step) }

  // After `n` steps of the innermost call `s` has become `t`.
  ghost predicate Leads(s: State, n: nat, t: State) {
    RunEnabled(s, Stepped(n)) && Run(s, Stepped(n)) == t
  }

  lemma NoStep(s: State)
    ensures Leads(s, 0, s)
  {
  }

  lemma OneStep(s: State, t: State, n: nat, goal: State)
    requires Enabled(s, Step) && Next(s, Step) == t && Leads(t, n, goal)
    ensures Leads(s, n + 1, goal)
  {
    assert Stepped(n + 1)[1..] == Stepped(n);
  }

  // `s` with a call for `f` at `pc` on top of the calls it has.
  function Top(s: State, f: Frame, pc: Pc): State {
    s.(calls := s.calls + [Call(f, pc)])
  }

  // The step of such a call from `s` to `t`, neither of which counts the call itself.
  lemma TopStep(s: State, t: State, f: Frame, pc: Pc, pc': Pc, n: nat, goal: State)
    requires |s.table| == MAX_NUM_ADDRESSES && PcInRange(pc) && pc != Return
    requires t == s.(table := t.table, held := t.held)
    requires var (u, after) := StepCall(Top(s, f, pc), Call(f, pc));
      u.table == t.table && u.held == t.held && u == Top(s, f, pc).(table := u.table, held := u.held) && after == pc'
    requires Leads(Top(t, f, pc'), n, goal)
    ensures Leads(Top(s, f, pc), n + 1, goal)
  {
    var u := Next(Top(s, f, pc), Step);
    assert (s.calls + [Call(f, pc)])[|s.calls| := Call(f, pc')] == s.calls + [Call(f, pc')];
    OneStep(Top(s, f, pc), Top(t, f, pc'), n, goal);
  }

  lemma TopReturns(s: State, f: Frame)
    requires |s.table| == MAX_NUM_ADDRESSES
    ensures Leads(Top(s, f, Return), 1, s)
  {
    assert (s.calls + [Call(f, Return)])[..|s.calls|] == s.calls;
    NoStep(s);
    OneStep(Top(s, f, Return), s, 0, s);
  }

  // ----- The source half

  // The source half, when the search stops at `slot`.
  function LearnAt(s: seq<HashEntry>, f: Frame, slot: L.Option<nat>): (r: seq<HashEntry>)
    requires slot.Some? ==> slot.value < |s|
    ensures |r| == |s|
  {
    if slot.None? then s
    else if s[slot.value].address == f.src then s[slot.value := s[slot.value].(boardNumber := f.macId % 256)]
    else s[slot.value := HashEntry(f.src, f.macId % 256, true)]
  }

  function SlotFrom(s: seq<HashEntry>, a: HwAddr, k: nat): (r: L.Option<nat>)
    requires |s| == MAX_NUM_ADDRESSES && k <= MAX_NUM_ADDRESSES
    ensures r.Some? ==> r.value < |s|
  {
    HashInRange(a);
    L.FindSlot(Addresses(s), ZERO, a, Hash(a), k)
  }

  // A probe stops at the address or at an empty slot, and goes on otherwise.
  lemma Probes(s: seq<HashEntry>, a: HwAddr, k: nat)
    requires |s| == MAX_NUM_ADDRESSES && MarksMatch(s) && k < MAX_NUM_ADDRESSES
    ensures SlotFrom(s, a, k) ==
      if s[Slot(a, k)].address == a || !s[Slot(a, k)].valid then L.Some(Slot(a, k)) else SlotFrom(s, a, k + 1)
    ensures SlotFrom(s, a, MAX_NUM_ADDRESSES) == L.None
  {
    assert Addresses(s)[Slot(a, k)] == s[Slot(a, k)].address;
  }

  // The last write of a call, at slot `p`.
  lemma Updates(s: State, f: Frame, p: nat)
    requires |s.table| == MAX_NUM_ADDRESSES && p < MAX_NUM_ADDRESSES
    ensures Leads(Top(s, f, Update(p)), 2, s.(table := s.table[p := s.table[p].(boardNumber := f.macId % 256)]))
  {
    var t := s.(table := s.table[p := s.table[p].(boardNumber := f.macId % 256)]);
    TopReturns(t, f);
    TopStep(s, t, f, Update(p), Return, 1, t);
  }

  // What a step that only reads comes to: at `pc`, next is `pc'`.
  predicate Reads(s: State, f: Frame, pc: Pc, pc': Pc)
    requires |s.table| == MAX_NUM_ADDRESSES
  {
    && PcInRange(pc)
    && match pc
       case DestCompare(k) =>
         var p := Slot(f.dest, k);
         pc' == if s.table[p].address == f.dest then DestBoard(p) else DestCheck(k)
       case DestCheck(k) =>
         var last := !s.table[Slot(f.dest, k)].valid || k + 1 == MAX_NUM_ADDRESSES;
         pc' == if last then SrcStart(f) else DestCompare(k + 1)
       case SrcCompare(k) =>
         var p := Slot(f.src, k);
         pc' == if s.table[p].address == f.src then Update(p) else SrcCheck(k)
       case SrcCheck(k) =>
         s.table[Slot(f.src, k)].valid && pc' == if k + 1 == MAX_NUM_ADDRESSES then Return else SrcCompare(k + 1)
       case _ => false
  }

  lemma ReadStep(s: State, f: Frame, pc: Pc, pc': Pc, n: nat, goal: State)
    requires |s.table| == MAX_NUM_ADDRESSES && Reads(s, f, pc, pc') && Leads(Top(s, f, pc'), n, goal)
    ensures Leads(Top(s, f, pc), n + 1, goal)
  {
    TopStep(s, s, f, pc, pc', n, goal);
  }

  lemma {:induction false} SourceHalf(s: State, f: Frame, k: nat) returns (n: nat)
    requires |s.table| == MAX_NUM_ADDRESSES && MarksMatch(s.table) && k < MAX_NUM_ADDRESSES && f.src != ZERO
    ensures Leads(Top(s, f, SrcCompare(k)), n, s.(table := LearnAt(s.table, f, SlotFrom(s.table, f.src, k))))
    decreases MAX_NUM_ADDRESSES - k
  {
    var p := Slot(f.src, k);
    var goal := s.(table := LearnAt(s.table, f, SlotFrom(s.table, f.src, k)));
    Probes(s.table, f.src, k);
    var m;
    if s.table[p].address == f.src {
      m := 2;
      Updates(s, f, p);
      ReadStep(s, f, SrcCompare(k), Update(p), m, goal);
    } else {
      if !s.table[p].valid {
        m := Inserts(s, f, k);
      } else {
        var l := SourceRest(s, f, k);
        m := l + 1;
        ReadStep(s, f, SrcCheck(k), if k + 1 == MAX_NUM_ADDRESSES then Return else SrcCompare(k + 1), l, goal);
      }
      ReadStep(s, f, SrcCompare(k), SrcCheck(k), m, goal);
    }
    n := m + 1;
  }

  // The slots after `k`, if any.
  lemma {:induction false} SourceRest(s: State, f: Frame, k: nat) returns (n: nat)
    requires |s.table| == MAX_NUM_ADDRESSES && MarksMatch(s.table) && k < MAX_NUM_ADDRESSES && f.src != ZERO
    ensures Leads(Top(s, f, if k + 1 == MAX_NUM_ADDRESSES then Return else SrcCompare(k + 1)), n,
              s.(table := LearnAt(s.table, f, SlotFrom(s.table, f.src, k + 1))))
    decreases MAX_NUM_ADDRESSES - k, 0
  {
    if k + 1 == MAX_NUM_ADDRESSES {
      n := 1;
      Probes(s.table, f.src, k);
      TopReturns(s, f);
    } else {
      n := SourceHalf(s, f, k + 1);
    }
  }

  lemma Inserts(s: State, f: Frame, k: nat) returns (n: nat)
    requires |s.table| == MAX_NUM_ADDRESSES && k < MAX_NUM_ADDRESSES
    requires !s.table[Slot(f.src, k)].valid && s.table[Slot(f.src, k)].address != f.src
    ensures Leads(Top(s, f, SrcCheck(k)), n, s.(table := LearnAt(s.table, f, L.Some(Slot(f.src, k)))))
  {
    var p := Slot(f.src, k);
    var t := s.(table := s.table[p := HashEntry(f.src, f.macId % 256, true)]);
    Updates(t, f, p);
    assert t.table[p := t.table[p].(boardNumber := f.macId % 256)] == t.table;
    TopStep(s, t, f, Insert(k), Update(p), 2, t);
    TopStep(s, s, f, SrcCheck(k), Insert(k), 3, t);
    n := 4;
  }

  lemma SourceDone(s: State, f: Frame) returns (n: nat)
    requires |s.table| == MAX_NUM_ADDRESSES && MarksMatch(s.table) && f.src != ZERO
    ensures Leads(Top(s, f, SrcStart(f)), n, s.(table := Learn(s.table, f)))
  {
    if IsBroadcast(f.src) {
      TopReturns(s, f);
      n := 1;
    } else {
      n := SourceHalf(s, f, 0);
    }
  }

  // ----- The destination half

  // Held back if the search has stopped at the destination, on the frame's own board.
  function HeldAt(s: State, f: Frame, slot: L.Option<nat>): set<(HwAddr, nat)>
    requires slot.Some? ==> slot.value < |s.table|
  {
    if slot.Some? && s.table[slot.value].address == f.dest && s.table[slot.value].boardNumber == f.macId
    then s.held + {(f.dest, f.macId)} else s.held
  }

  // The board is read, and the call goes on to its source half.
  lemma BoardRead(s: State, f: Frame, p: nat) returns (n: nat)
    requires |s.table| == MAX_NUM_ADDRESSES && MarksMatch(s.table) && f.src != ZERO && p < MAX_NUM_ADDRESSES
    requires s.table[p].address == f.dest
    ensures Leads(Top(s, f, DestBoard(p)), n, s.(table := Learn(s.table, f), held := HeldAt(s, f, L.Some(p))))
  {
    var t := s.(held := HeldAt(s, f, L.Some(p)));
    var m := SourceDone(t, f);
    n := m + 1;
    TopStep(s, t, f, DestBoard(p), SrcStart(f), m, t.(table := Learn(t.table, f)));
  }

  // What a call leaves whose search for the destination stops at `slot`.
  function Done(s: State, f: Frame, slot: L.Option<nat>): State
    requires |s.table| == MAX_NUM_ADDRESSES && (slot.Some? ==> slot.value < |s.table|)
  {
    s.(table := Learn(s.table, f), held := HeldAt(s, f, slot))
  }

  lemma {:induction false} DestinationHalf(s: State, f: Frame, k: nat) returns (n: nat)
    requires |s.table| == MAX_NUM_ADDRESSES && MarksMatch(s.table) && k < MAX_NUM_ADDRESSES
    requires f.src != ZERO && f.dest != ZERO
    ensures Leads(Top(s, f, DestCompare(k)), n, Done(s, f, SlotFrom(s.table, f.dest, k)))
    decreases MAX_NUM_ADDRESSES - k
  {
    var p := Slot(f.dest, k);
    Probes(s.table, f.dest, k);
    var m;
    if s.table[p].address == f.dest {
      m := BoardRead(s, f, p);
      ReadStep(s, f, DestCompare(k), DestBoard(p), m, Done(s, f, L.Some(p)));
    } else {
      m := DestinationMissed(s, f, k);
      ReadStep(s, f, DestCompare(k), DestCheck(k), m, Done(s, f, SlotFrom(s.table, f.dest, k)));
    }
    n := m + 1;
  }

  // Slot `k` does not hold the destination.
  lemma {:induction false} DestinationMissed(s: State, f: Frame, k: nat) returns (n: nat)
    requires |s.table| == MAX_NUM_ADDRESSES && MarksMatch(s.table) && k < MAX_NUM_ADDRESSES
    requires f.src != ZERO && f.dest != ZERO && s.table[Slot(f.dest, k)].address != f.dest
    ensures Leads(Top(s, f, DestCheck(k)), n, Done(s, f, SlotFrom(s.table, f.dest, k)))
    decreases MAX_NUM_ADDRESSES - k, 0
  {
    if !s.table[Slot(f.dest, k)].valid || k + 1 == MAX_NUM_ADDRESSES {
      n := DestinationUnknown(s, f, k);
    } else {
      Probes(s.table, f.dest, k);
      var l := DestinationHalf(s, f, k + 1);
      ReadStep(s, f, DestCheck(k), DestCompare(k + 1), l, Done(s, f, SlotFrom(s.table, f.dest, k + 1)));
      n := l + 1;
    }
  }

  lemma DestinationUnknown(s: State, f: Frame, k: nat) returns (n: nat)
    requires |s.table| == MAX_NUM_ADDRESSES && MarksMatch(s.table) && k < MAX_NUM_ADDRESSES && f.src != ZERO
    requires s.table[Slot(f.dest, k)].address != f.dest
    requires !s.table[Slot(f.dest, k)].valid || k + 1 == MAX_NUM_ADDRESSES
    ensures Leads(Top(s, f, DestCheck(k)), n, Done(s, f, SlotFrom(s.table, f.dest, k)))
  {
    Probes(s.table, f.dest, k);
    var l := SourceDone(s, f);
    ReadStep(s, f, DestCheck(k), SrcStart(f), l, Done(s, f, SlotFrom(s.table, f.dest, k)));
    n := l + 1;
  }

  // ----- Whole calls

  function Heard(s: State, f: Frame): set<(HwAddr, nat)> {
    if IsBroadcast(f.src) then s.heard else s.heard + {(f.src, f.macId % 256)}
  }

  // Whatever calls it interrupts, a call that is not interrupted itself ends, leaves
  // those calls as they were, has learned its source as the bridge does, and has held
  // its frame back exactly when the bridge does not pass it.
  lemma UndisturbedCall(s: State, f: Frame) returns (n: nat)
    requires |s.table| == MAX_NUM_ADDRESSES && MarksMatch(s.table) && f.src != ZERO && f.dest != ZERO
    ensures Leads(Next(s, Arrive(f)), n,
              s.(table := Learn(s.table, f), heard := Heard(s, f),
                 held := s.held + if Passes(s.table, f) then {} else {(f.dest, f.macId)}))
  {
    var t := s.(heard := Heard(s, f));
    assert Next(s, Arrive(f)) == Top(t, f, CallStart(f));
    if IsBroadcast(f.dest) {
      n := SourceDone(t, f);
      assert s.held + {} == s.held;
    } else {
      n := DestinationHalf(t, f, 0);
      assert s.held + {} == s.held;
      Decides(t, f);
    }
  }

  lemma Decides(s: State, f: Frame)
    requires |s.table| == MAX_NUM_ADDRESSES && !IsBroadcast(f.dest)
    ensures HeldAt(s, f, SlotFrom(s.table, f.dest, 0)) ==
      if Passes(s.table, f) then s.held else s.held + {(f.dest, f.macId)}
  {
    HashInRange(f.dest);
    var slot := SlotFrom(s.table, f.dest, 0);
    assert slot.Some? ==> Addresses(s.table)[slot.value] == s.table[slot.value].address;
  }

  // A lookup that is not interrupted tells the board the bridge knows, if any.
  lemma UndisturbedLookUp(s: State, a: HwAddr)
    requires Enabled(s, StartLookUp(a))
    ensures var t, board := Next(s, StartLookUp(a)), LookUp(s.table, a);
      if Locate(s.table, a).None? then board == -1 && t == s
      else board >= 0 && Enabled(t, FinishLookUp) && Next(t, FinishLookUp) == s.(told := s.told + {(a, board)})
  {
    HashInRange(a);
  }

  // ----- Runs of such calls

  function CallsInTurn(frames: seq<Frame>, ns: seq<nat>): seq<Event>
    requires |frames| == |ns|
  {
    if frames == [] then [] else [Arrive(frames[0])] + (Stepped(ns[0]) + CallsInTurn(frames[1..], ns[1..]))
  }

  lemma {:induction false} RunOn(s: State, first: seq<Event>, rest: seq<Event>)
    requires RunEnabled(s, first) && RunEnabled(Run(s, first), rest)
    ensures RunEnabled(s, first + rest) && Run(s, first + rest) == Run(Run(s, first), rest)
    decreases |first|
  {
    if first == [] {
      assert first + rest == rest;
    } else {
      assert (first + rest)[1..] == first[1..] + rest;
      RunOn(Next(s, first[0]), first[1..], rest);
    }
  }

  lemma MarksStay(s: seq<HashEntry>, f: Frame)
    requires |s| == MAX_NUM_ADDRESSES && MarksMatch(s) && f.src != ZERO
    ensures MarksMatch(Learn(s, f))
  {
  }

  // The frames that a run of the bridge holds back.
  ghost predicate HeldBack(table: seq<HashEntry>, frames: seq<Frame>, x: (HwAddr, nat))
    requires |table| == MAX_NUM_ADDRESSES
    decreases |frames|
  {
    frames != [] &&
    ((!Passes(table, frames[0]) && x == (frames[0].dest, frames[0].macId)) ||
     HeldBack(Learn(table, frames[0]), frames[1..], x))
  }

  // Calls that do not interrupt each other do together what the bridge does with
  // their frames: its final table, and back the frames it does not pass.
  lemma {:induction false} UndisturbedRun(s: State, frames: seq<Frame>) returns (ns: seq<nat>)
    requires |s.table| == MAX_NUM_ADDRESSES && MarksMatch(s.table)
    requires forall f :: f in frames ==> f.src != ZERO && f.dest != ZERO
    ensures |ns| == |frames| && RunEnabled(s, CallsInTurn(frames, ns))
    ensures var t := Run(s, CallsInTurn(frames, ns));
      && t.table == RunTable(s.table, frames).0 && t.calls == s.calls && t.main == s.main
      && forall x :: x in t.held <==> x in s.held || HeldBack(s.table, frames, x)
    decreases |frames|
  {
    ns := [];
    if frames != [] {
      var f := frames[0];
      assert f in frames;
      var n := UndisturbedCall(s, f);
      MarksStay(s.table, f);
      var t := Run(Next(s, Arrive(f)), Stepped(n));
      var rest := UndisturbedRun(t, frames[1..]);
      ns := [n] + rest;
      assert ns[1..] == rest;
      RunOn(Next(s, Arrive(f)), Stepped(n), CallsInTurn(frames[1..], rest));
      assert CallsInTurn(frames, ns)[1..] == Stepped(n) + CallsInTurn(frames[1..], rest);
    }
  }
}
