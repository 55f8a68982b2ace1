// When scheduled events fire, over whole runs.
module SchedulerRuns {
  import opened Scheduler

  // ----- What nextEvent means

  predicate Proper(time: nat) { 0 < time < NEVER }

  predicate AllProper(events: seq<Event>) {
    forall e :: e in events && e.valid ==> Proper(e.time)
  }

  predicate ZeroPending(events: seq<Event>) {
    exists e :: e in events && e.valid && e.time == 0
  }

  predicate BelowNever(events: seq<Event>) {
    forall e :: e in events && e.valid ==> e.time < NEVER
  }

  // nextEvent is the least pending time, or 0 for none.
  predicate Good(s: Timer) { AllProper(s.events) && s.nextEvent == NextEvent(s.events) }

  // After midnight: an overdue event waits under time 0, and nextEvent says 1.
  predicate Alarmed(s: Timer) { BelowNever(s.events) && ZeroPending(s.events) && s.nextEvent == 1 }

  // An event waits under time 0 while nextEvent says that there is none.
  predicate Dead(s: Timer) { ZeroPending(s.events) && s.nextEvent == 0 }

  lemma NextEventIsLeast(events: seq<Event>)
    requires AllProper(events)
    ensures NextEvent(events) == 0 <==> forall e :: e in events ==> !e.valid
    ensures forall e :: e in events && e.valid ==> 0 < NextEvent(events) <= e.time
    ensures NextEvent(events) != 0 ==> exists e :: e in events && e.valid && e.time == NextEvent(events)
  {
  }

  lemma ZeroMeansNone(events: seq<Event>)
    requires ZeroPending(events)
    ensures NextEvent(events) == 0
  {
  }

  // ----- Which events a poll fires

  function DueAt(events: seq<Event>, now: nat): seq<Event> {
    Due(ClearNew(events), now, 0)
  }

  lemma {:induction false} NoneDue(events: seq<Event>, now: nat, i: nat)
    requires i <= |events| && forall e :: e in events && e.valid ==> now <= e.time
    ensures Due(events, now, i) == []
    decreases |events| - i
  {
    if i < |events| {
      assert events[i] in events;
      NoneDue(events, now, i + 1);
    }
  }

  lemma {:induction false} SomeDue(events: seq<Event>, now: nat, i: nat, j: nat)
    requires i <= j < |events| && IsDue(events[j], now)
    ensures events[j] in Due(events, now, i)
    decreases j - i
  {
    if i < j {
      SomeDue(events, now, i + 1, j);
    }
  }

  lemma NothingDue(events: seq<Event>, now: nat)
    requires forall e :: e in events && e.valid ==> now <= e.time
    ensures DueAt(events, now) == []
  {
    var cleared := ClearNew(events);
    forall e | e in cleared && e.valid
      ensures now <= e.time
    {
      var i :| 0 <= i < |cleared| && cleared[i] == e;
      assert events[i] in events;
    }
    NoneDue(cleared, now, 0);
  }

  lemma RetimedFrom(events: seq<Event>)
    ensures forall e :: e in events ==> RetimeEvent(e) in RetimeAll(events)
    ensures forall f :: f in RetimeAll(events) ==> exists e :: e in events && f == RetimeEvent(e)
  {
    var after := RetimeAll(events);
    forall e | e in events
      ensures RetimeEvent(e) in after
    {
      var i :| 0 <= i < |events| && events[i] == e;
      assert after[i] == RetimeEvent(e);
    }
    forall f | f in after
      ensures exists e :: e in events && f == RetimeEvent(e)
    {
      var i :| 0 <= i < |after| && after[i] == f;
      assert events[i] in events;
    }
  }

  lemma RetimeZero(events: seq<Event>)
    ensures ZeroPending(RetimeAll(events)) <==> exists e :: e in events && e.valid && e.time <= DAY
    ensures BelowNever(events) ==> BelowNever(RetimeAll(events))
  {
    RetimedFrom(events);
  }

  // When no event is overdue, retiming takes a day off the least time.
  lemma RetimeLeast(events: seq<Event>)
    requires AllProper(events) && forall e :: e in events && e.valid ==> e.time > DAY
    ensures AllProper(RetimeAll(events))
    ensures NextEvent(RetimeAll(events)) == if NextEvent(events) == 0 then 0 else NextEvent(events) - DAY
  {
    RetimedFrom(events);
    NextEventIsLeast(events);
    NextEventIsLeast(RetimeAll(events));
  }

  // Retiming either subtracts a day from the least time or raises the alarm.
  lemma RetimeSound(s: Timer)
    requires Good(s) || Alarmed(s)
    ensures Good(Retime(s)) || Alarmed(Retime(s))
    ensures ZeroPending(Retime(s).events) <==> exists e :: e in s.events && e.valid && e.time <= DAY
    ensures Good(s) ==> (Alarmed(Retime(s)) <==> ZeroPending(Retime(s).events))
  {
    RetimeZero(s.events);
    if Good(s) {
      NextEventIsLeast(s.events);
      if forall e :: e in s.events && e.valid ==> e.time > DAY {
        RetimeLeast(s.events);
      }
    }
  }

  // The absolute time of an event, in ticks since start-up's midnight.
  function Absolute(s: Timer, i: nat): nat
    requires i < |s.events|
  {
    s.days * DAY + s.events[i].time
  }

  // Retiming keeps the absolute time of exactly the events due after midnight; the
  // others become due at midnight.
  lemma RetimeKeepsAbsoluteTime(s: Timer, i: nat)
    requires i < |s.events| && s.events[i].valid
    ensures Absolute(Retime(s), i) == Absolute(s, i) <==> s.events[i].time >= DAY
    ensures s.events[i].time < DAY ==> Absolute(Retime(s), i) == Retime(s).days * DAY
  {
  }

  // From a second tick on, a poll fires exactly the pending events whose time has
  // passed, once each; before that only an alarm left by midnight can be late.
  lemma PollIsTimely(s: Timer, now: nat, callBack: CallBacks)
    requires Good(s) || Alarmed(s)
    ensures CheckMisc(s, now, callBack).fired == DueAt(Awake(s, now).events, now) <==>
      !(now == 1 && Alarmed(Awake(s, now)))
  {
    RetimeSound(s);
    var t := Awake(s, now);
    assert Good(t) || Alarmed(t);
    if t.nextEvent != 0 && t.nextEvent < now {
      SweepFiresDue(ClearNew(t.events), now, callBack, 0);
    } else if Good(t) {
      NextEventIsLeast(t.events);
      NothingDue(t.events, now);
    } else if now == 0 {
      NothingDue(t.events, now);
    } else {
      var e :| e in t.events && e.valid && e.time == 0;
      var i :| 0 <= i < |t.events| && t.events[i] == e;
      SomeDue(ClearNew(t.events), now, 0, i);
    }
  }

  // ----- What a sweep leaves

  ghost predicate ProperRequests(callBack: CallBacks) {
    forall i: nat, r :: r in callBack(i) ==> Proper(ExpiryTime(r))
  }

  // Slots before `i` have been swept; later ones may still be overdue.
  predicate SweptTo(events: seq<Event>, i: nat) {
    && (forall j {:trigger events[j]} :: 0 <= j < |events| && events[j].valid ==> events[j].time < NEVER)
    && (forall j {:trigger events[j]} ::
          0 <= j < |events| && events[j].valid && (j < i || events[j].isNew) ==> events[j].time > 0)
  }

  lemma {:induction false} InsertAllSwept(events: seq<Event>, rs: seq<Request>, i: nat)
    requires SweptTo(events, i) && forall r :: r in rs ==> Proper(ExpiryTime(r))
    ensures SweptTo(InsertAll(events, rs).0, i)
    decreases |rs|
  {
    if rs != [] {
      assert rs[0] in rs;
      InsertAllSwept(Insert(events, rs[0]).0, rs[1..], i);
    }
  }

  lemma {:induction false} FireSwept(events: seq<Event>, now: nat, callBack: CallBacks, i: nat)
    requires i <= |events| && SweptTo(events, i) && now > 0 && ProperRequests(callBack)
    ensures SweptTo(Fire(events, now, callBack, i).0, |events|)
    decreases |events| - i
  {
    if i < |events| {
      if IsDue(events[i], now) {
        var during := InsertAll(events, callBack(i)).0;
        InsertAllSwept(events, callBack(i), i);
        FireSwept(during[i := during[i].(valid := false)], now, callBack, i + 1);
      } else {
        FireSwept(events, now, callBack, i + 1);
      }
    }
  }

  lemma PollSound(s: Timer, now: nat, callBack: CallBacks)
    requires (Good(s) || Alarmed(s)) && ProperRequests(callBack)
    ensures var t := CheckMisc(s, now, callBack).after; Good(t) || Alarmed(t)
    ensures now >= 2 || (Good(s) && s.lastMyTime <= now) ==> Good(CheckMisc(s, now, callBack).after)
  {
    RetimeSound(s);
    var t := Awake(s, now);
    var u := CheckMisc(s, now, callBack).after;
    if t.nextEvent != 0 && t.nextEvent < now {
      var cleared := ClearNew(t.events);
      forall j | 0 <= j < |cleared| && cleared[j].valid
        ensures cleared[j].time < NEVER
      {
        assert t.events[j] in t.events;
      }
      FireSwept(cleared, now, callBack, 0);
      assert AllProper(u.events);
    }
  }

  // ----- Runs

  datatype Op =
    | Check(now: nat, callBack: CallBacks)
    | Add(request: Request)
    | Delete(slot: nat)

  datatype Outcome = Outcome(after: Timer, fired: seq<Event>, added: seq<Request>, deleted: seq<Event>)

  function Step(s: Timer, op: Op): (r: Outcome)
    requires |s.events| == MAX_NUM_EVENTS && (op.Delete? ==> op.slot < MAX_NUM_EVENTS)
    ensures |r.after.events| == MAX_NUM_EVENTS
  {
    match op
    case Check(now, callBack) => var p := CheckMisc(s, now, callBack); Outcome(p.after, p.fired, p.added, [])
    case Add(r) => var (t, added) := AddScheduledEvent(s, r); Outcome(t, [], added, [])
    case Delete(i) => Outcome(DeleteScheduledEvent(s, i), [], [], if s.events[i].valid then [s.events[i]] else [])
  }

  ghost predicate SlotsExist(ops: seq<Op>) {
    forall op :: op in ops && op.Delete? ==> op.slot < MAX_NUM_EVENTS
  }

  function Run(s: Timer, ops: seq<Op>): (r: Outcome)
    requires |s.events| == MAX_NUM_EVENTS && SlotsExist(ops)
    ensures |r.after.events| == MAX_NUM_EVENTS
    decreases |ops|
  {
    if ops == [] then Outcome(s, [], [], [])
    else
      var first := Step(s, ops[0]);
      var rest := Run(first.after, ops[1..]);
      Outcome(rest.after, first.fired + rest.fired, first.added + rest.added, first.deleted + rest.deleted)
  }

  lemma StepCounts(s: Timer, op: Op, tag: nat)
    requires |s.events| == MAX_NUM_EVENTS && (op.Delete? ==> op.slot < MAX_NUM_EVENTS)
    ensures var r := Step(s, op);
      Pending(r.after.events, tag) + Fired(r.fired, tag) + Fired(r.deleted, tag) ==
      Pending(s.events, tag) + Requested(r.added, tag)
  {
    match op
    case Check(now, callBack) => PollCounts(s, now, callBack, tag);
    case Add(r) => InsertCounts(s.events, r, tag);
    case Delete(i) =>
      PendingUpdate(s.events, i, s.events[i].(valid := false), tag);
      assert [s.events[i]][1..] == [];
  }

  // Over any run, whatever the clock does: each event that was accepted has fired
  // once, been deleted once, or is still pending.
  lemma {:induction false} NothingIsLost(s: Timer, ops: seq<Op>, tag: nat)
    requires |s.events| == MAX_NUM_EVENTS && SlotsExist(ops)
    ensures var r := Run(s, ops);
      Pending(r.after.events, tag) + Fired(r.fired, tag) + Fired(r.deleted, tag) ==
      Pending(s.events, tag) + Requested(r.added, tag)
    decreases |ops|
  {
    if ops != [] {
      var first := Step(s, ops[0]);
      var rest := Run(first.after, ops[1..]);
      StepCounts(s, ops[0], tag);
      NothingIsLost(first.after, ops[1..], tag);
      RequestedAppend(first.added, rest.added, tag);
      FiredAppend(first.fired, rest.fired, tag);
      FiredAppend(first.deleted, rest.deleted, tag);
    }
  }

  // An add while the alarm stands makes nextEvent say that nothing is pending.
  lemma AddInAlarmKills(s: Timer, r: Request)
    requires Alarmed(s)
    ensures Dead(AddScheduledEvent(s, r).0) <==> exists i :: 0 <= i < |s.events| && !s.events[i].valid
  {
    var i := FreeSlot(s.events, 0);
    var e :| e in s.events && e.valid && e.time == 0;
    var j :| 0 <= j < |s.events| && s.events[j] == e;
    if i < |s.events| {
      assert s.events[i := EventOf(r)][j] == e;
      ZeroMeansNone(s.events[i := EventOf(r)]);
    }
  }

  // Another event than that of slot `i` waits under time 0.
  predicate OtherZero(events: seq<Event>, i: nat) {
    exists j :: 0 <= j < |events| && j != i && events[j].valid && events[j].time == 0
  }

  // While the alarm of a midnight has not been swept: an addition that finds a slot,
  // or a deletion that leaves an overdue event behind.
  predicate Kills(s: Timer, op: Op) {
    match op
    case Check(_, _) => false
    case Add(_) => ZeroPending(s.events) && FreeSlot(s.events, 0) < |s.events|
    case Delete(i) => OtherZero(s.events, i)
  }

  ghost predicate ProperOp(op: Op) {
    && (op.Check? ==> ProperRequests(op.callBack))
    && (op.Add? ==> Proper(ExpiryTime(op.request)))
  }

  // Times are proper, and no operation kills the scheduler.
  ghost predicate Steady(s: Timer, ops: seq<Op>)
    requires |s.events| == MAX_NUM_EVENTS && SlotsExist(ops)
    decreases |ops|
  {
    ops != [] ==> ProperOp(ops[0]) && !Kills(s, ops[0]) && Steady(Step(s, ops[0]).after, ops[1..])
  }

  lemma SlotsOf(events: seq<Event>, i: nat)
    requires i < |events|
    ensures ZeroPending(events[i := events[i].(valid := false)]) <==> OtherZero(events, i)
  {
    var after := events[i := events[i].(valid := false)];
    if j :| 0 <= j < |events| && j != i && events[j].valid && events[j].time == 0 {
      assert after[j] in after;
    }
    if e :| e in after && e.valid && e.time == 0 {
      var j :| 0 <= j < |after| && after[j] == e;
      assert j != i && events[j] == e;
    }
  }

  lemma FewerEvents(events: seq<Event>, i: nat)
    requires i < |events|
    ensures forall e :: e in events[i := events[i].(valid := false)] && e.valid ==> e in events
  {
    var after := events[i := events[i].(valid := false)];
    forall e | e in after && e.valid
      ensures e in events
    {
      var j :| 0 <= j < |after| && after[j] == e;
      assert events[j] == e;
    }
  }

  // A deletion in the alarm leaves an overdue event that nothing will fire exactly
  // when another one waits; otherwise `nextEvent` is right again.
  lemma DeleteInAlarmKills(s: Timer, i: nat)
    requires Alarmed(s) && i < |s.events|
    ensures Dead(DeleteScheduledEvent(s, i)) <==> OtherZero(s.events, i)
    ensures !OtherZero(s.events, i) ==> Good(DeleteScheduledEvent(s, i))
  {
    SlotsOf(s.events, i);
    FewerEvents(s.events, i);
    if OtherZero(s.events, i) {
      ZeroMeansNone(DeleteScheduledEvent(s, i).events);
    }
  }

  // A sound state stays sound exactly under the operations that do not kill; after
  // the others the scheduler is dead.
  lemma StepSound(s: Timer, op: Op)
    requires |s.events| == MAX_NUM_EVENTS && (Good(s) || Alarmed(s)) && ProperOp(op)
    requires op.Delete? ==> op.slot < MAX_NUM_EVENTS
    ensures !Kills(s, op) ==> Good(Step(s, op).after) || Alarmed(Step(s, op).after)
    ensures Kills(s, op) ==> Dead(Step(s, op).after)
  {
    match op
    case Check(now, callBack) => PollSound(s, now, callBack);
    case Add(r) => AddSound(s, r);
    case Delete(i) => DeleteSound(s, i);
  }

  lemma AddSound(s: Timer, r: Request)
    requires (Good(s) || Alarmed(s)) && Proper(ExpiryTime(r))
    ensures var t := AddScheduledEvent(s, r).0;
      if ZeroPending(s.events) && FreeSlot(s.events, 0) < |s.events| then Dead(t) else Good(t) || Alarmed(t)
  {
    var i := FreeSlot(s.events, 0);
    if Alarmed(s) {
      AddInAlarmKills(s, r);
    } else if i < |s.events| {
      var after := s.events[i := EventOf(r)];
      forall e | e in after && e.valid
        ensures Proper(e.time)
      {
        var j :| 0 <= j < |after| && after[j] == e;
        assert j != i ==> e in s.events;
      }
    }
  }

  lemma DeleteSound(s: Timer, i: nat)
    requires (Good(s) || Alarmed(s)) && i < |s.events|
    ensures var t := DeleteScheduledEvent(s, i); if OtherZero(s.events, i) then Dead(t) else Good(t)
  {
    if Alarmed(s) {
      DeleteInAlarmKills(s, i);
    } else {
      FewerEvents(s.events, i);
      assert forall j :: 0 <= j < |s.events| && s.events[j].valid ==> s.events[j] in s.events;
    }
  }

  function StateAt(s: Timer, ops: seq<Op>, k: nat): (r: Timer)
    requires |s.events| == MAX_NUM_EVENTS && SlotsExist(ops) && k <= |ops|
    ensures |r.events| == MAX_NUM_EVENTS
    decreases k
  {
    if k == 0 then s else StateAt(Step(s, ops[0]).after, ops[1..], k - 1)
  }

  // The state stays sound at every point of the run.
  ghost predicate StaysSound(s: Timer, ops: seq<Op>)
    requires |s.events| == MAX_NUM_EVENTS && SlotsExist(ops)
    decreases |ops|
  {
    (Good(s) || Alarmed(s)) && (ops != [] ==> StaysSound(Step(s, ops[0]).after, ops[1..]))
  }

  // With proper times that is so exactly in steady runs.
  lemma {:induction false} SoundWhileSteady(s: Timer, ops: seq<Op>)
    requires |s.events| == MAX_NUM_EVENTS && SlotsExist(ops) && (Good(s) || Alarmed(s))
    requires forall op :: op in ops ==> ProperOp(op)
    ensures StaysSound(s, ops) <==> Steady(s, ops)
    decreases |ops|
  {
    if ops != [] {
      assert ops[0] in ops;
      StepSound(s, ops[0]);
      if !Kills(s, ops[0]) {
        SoundWhileSteady(Step(s, ops[0]).after, ops[1..]);
      }
    }
  }

  lemma {:induction false} SoundAt(s: Timer, ops: seq<Op>, k: nat)
    requires |s.events| == MAX_NUM_EVENTS && SlotsExist(ops) && Steady(s, ops) && (Good(s) || Alarmed(s)) && k <= |ops|
    ensures Good(StateAt(s, ops, k)) || Alarmed(StateAt(s, ops, k))
    decreases k
  {
    if k > 0 {
      assert ops[0] in ops;
      StepSound(s, ops[0]);
      SoundAt(Step(s, ops[0]).after, ops[1..], k - 1);
    }
  }

  // Along every steady run, every poll from the second tick of a day on fires
  // exactly the pending events whose time has passed.
  lemma EveryPollIsTimely(s: Timer, ops: seq<Op>, k: nat)
    requires |s.events| == MAX_NUM_EVENTS && SlotsExist(ops) && Steady(s, ops)
    requires (Good(s) || Alarmed(s)) && k < |ops| && ops[k].Check? && ops[k].now >= 2
    ensures var t := StateAt(s, ops, k); var (now, callBack) := (ops[k].now, ops[k].callBack);
      CheckMisc(t, now, callBack).fired == DueAt(Awake(t, now).events, now)
  {
    SoundAt(s, ops, k);
    PollIsTimely(StateAt(s, ops, k), ops[k].now, ops[k].callBack);
  }

  // ----- The lost scheduler

  // After that nothing fires again, however long polls and adds go on.
  lemma {:induction false} DeadStaysDead(s: Timer, ops: seq<Op>)
    requires |s.events| == MAX_NUM_EVENTS && SlotsExist(ops) && Dead(s)
    requires forall op :: op in ops ==> !op.Delete?
    ensures Dead(Run(s, ops).after) && Run(s, ops).fired == []
    decreases |ops|
  {
    if ops != [] {
      var t := Step(s, ops[0]).after;
      var e :| e in s.events && e.valid && e.time == 0;
      var j :| 0 <= j < |s.events| && s.events[j] == e;
      assert ops[0] in ops;
      assert t.events[j].valid && t.events[j].time == 0;
      ZeroMeansNone(t.events);
      DeadStaysDead(t, ops[1..]);
    }
  }

  // It can happen: one event overdue at midnight, a poll on the first tick of the
  // day, and an add before the next poll.
  lemma MidnightCanKill(callBack: CallBacks)
    ensures var idle := Event(0, 0, false, false);
      var s := Timer([Event(DAY, 1, true, false)] + seq(MAX_NUM_EVENTS - 1, _ => idle), DAY, 0, DAY - 1);
      Good(s) && Dead(AddScheduledEvent(CheckMisc(s, 1, callBack).after, Request(1, 2, 7)).0)
  {
    var idle := Event(0, 0, false, false);
    var s := Timer([Event(DAY, 1, true, false)] + seq(MAX_NUM_EVENTS - 1, _ => idle), DAY, 0, DAY - 1);
    assert s.events[0] in s.events;
    NextEventIsLeast(s.events);
    RetimeSound(s);
    var t := CheckMisc(s, 1, callBack).after;
    assert t.events[0] in t.events && !t.events[1].valid;
    AddInAlarmKills(t, Request(1, 2, 7));
  }
}
