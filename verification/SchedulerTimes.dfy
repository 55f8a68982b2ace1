// One scheduled event followed in absolute time, across any number of midnights.
module SchedulerTimes {
  import opened Scheduler
  import opened SchedulerRuns

  // Slot `i` holds an event that is due when the absolute clock passes `time`; one
  // that was overdue at a midnight waits under time 0.
  predicate Held(s: Timer, i: nat, time: nat) {
    && i < |s.events| && s.events[i].valid
    && (Absolute(s, i) == time || (s.events[i].time == 0 && time <= s.days * DAY))
  }

  // The absolute clock at a poll that reads `now`.
  function ClockAt(s: Timer, now: nat): nat { Awake(s, now).days * DAY + now }

  // The poll calls slot `i`'s callback.
  predicate FiresSlot(s: Timer, now: nat, i: nat) {
    var t := Awake(s, now);
    t.nextEvent != 0 && t.nextEvent < now && i < |t.events| && t.events[i].valid && t.events[i].time < now
  }

  lemma AwakeHolds(s: Timer, now: nat, i: nat, time: nat)
    requires Held(s, i, time)
    ensures Held(Awake(s, now), i, time) && Awake(s, now).events[i].tag == s.events[i].tag
  {
  }

  // A sweep leaves an event alone that is not due.
  lemma {:induction false} FireLeaves(events: seq<Event>, now: nat, callBack: CallBacks, j: nat, i: nat)
    requires j <= |events| && i < |events| && events[i].valid && !IsDue(events[i], now)
    ensures Fire(events, now, callBack, j).0[i] == events[i]
    decreases |events| - j
  {
    if j < |events| {
      if IsDue(events[j], now) {
        var during := InsertAll(events, callBack(j)).0;
        InsertAllGrows(events, callBack(j));
        FireLeaves(during[j := during[j].(valid := false)], now, callBack, j + 1, i);
      } else {
        FireLeaves(events, now, callBack, j + 1, i);
      }
    }
  }

  // From a second tick on the poll fires the event exactly when the clock has passed
  // its time, and on the first two ticks of a day it fires nothing.
  lemma FiresIffPast(s: Timer, now: nat, i: nat, time: nat)
    requires (Good(s) || Alarmed(s)) && Held(s, i, time)
    ensures FiresSlot(s, now, i) <==> now >= 2 && time < ClockAt(s, now)
  {
    RetimeSound(s);
    AwakeHolds(s, now, i, time);
    var t := Awake(s, now);
    assert Good(t) || Alarmed(t);
    assert t.events[i] in t.events;
    if Good(t) {
      NextEventIsLeast(t.events);
    }
  }

  // What it fires is reported, and what it does not stays.
  lemma PollOnSlot(s: Timer, now: nat, callBack: CallBacks, i: nat, time: nat)
    requires Held(s, i, time)
    ensures var p := CheckMisc(s, now, callBack);
      if FiresSlot(s, now, i) then Awake(s, now).events[i].(isNew := false) in p.fired
      else Held(p.after, i, time) && p.after.events[i].tag == s.events[i].tag
  {
    AwakeHolds(s, now, i, time);
    var t := Awake(s, now);
    if t.nextEvent != 0 && t.nextEvent < now {
      var cleared := ClearNew(t.events);
      if FiresSlot(s, now, i) {
        SweepFiresDue(cleared, now, callBack, 0);
        SomeDue(cleared, now, 0, i);
      } else {
        FireLeaves(cleared, now, callBack, 0, i);
      }
    }
  }

  // The number of operations before the poll that fires slot `i`.
  function FiresAt(s: Timer, ops: seq<Op>, i: nat): (k: nat)
    requires |s.events| == MAX_NUM_EVENTS && SlotsExist(ops)
    ensures k <= |ops|
    decreases |ops|
  {
    if ops == [] || (ops[0].Check? && FiresSlot(s, ops[0].now, i)) then 0
    else 1 + FiresAt(Step(s, ops[0]).after, ops[1..], i)
  }

  // The number of operations before the first poll, from a second tick on, whose
  // clock has passed `time`: nothing but the clock readings matters.
  function FirstPast(days: nat, last: nat, ops: seq<Op>, time: nat): (k: nat)
    ensures k <= |ops|
    decreases |ops|
  {
    if ops == [] then 0
    else if ops[0].Check? then
      var now := ops[0].now;
      var today := if now < last then days + 1 else days;
      if now >= 2 && time < today * DAY + now then 0 else 1 + FirstPast(today, now, ops[1..], time)
    else 1 + FirstPast(days, last, ops[1..], time)
  }

  lemma StepOnSlot(s: Timer, op: Op, i: nat, time: nat)
    requires |s.events| == MAX_NUM_EVENTS && Held(s, i, time) && op != Delete(i)
    requires op.Delete? ==> op.slot < MAX_NUM_EVENTS
    requires op.Check? ==> !FiresSlot(s, op.now, i)
    ensures Held(Step(s, op).after, i, time)
    ensures !op.Check? ==> Step(s, op).after.days == s.days && Step(s, op).after.lastMyTime == s.lastMyTime
    ensures op.Check? ==>
      Step(s, op).after.days == Awake(s, op.now).days && Step(s, op).after.lastMyTime == op.now
  {
    if op.Check? {
      PollOnSlot(s, op.now, op.callBack, i, time);
    }
  }

  lemma PastLater(days: nat, last: nat, ops: seq<Op>, time: nat, days': nat, last': nat)
    requires ops != []
    requires if ops[0].Check? then last' == ops[0].now && days' == (if ops[0].now < last then days + 1 else days)
             else days' == days && last' == last
    requires ops[0].Check? ==> !(ops[0].now >= 2 && time < days' * DAY + ops[0].now)
    ensures FirstPast(days, last, ops, time) == 1 + FirstPast(days', last', ops[1..], time)
  {
  }

  // One operation that does not fire slot `i`.
  lemma NotYet(s: Timer, ops: seq<Op>, i: nat, time: nat) returns (t: Timer)
    requires |s.events| == MAX_NUM_EVENTS && SlotsExist(ops) && Steady(s, ops) && (Good(s) || Alarmed(s)) && ops != []
    requires Held(s, i, time) && Delete(i) !in ops
    requires !(ops[0].Check? && FiresSlot(s, ops[0].now, i))
    ensures |t.events| == MAX_NUM_EVENTS && SlotsExist(ops[1..]) && Steady(t, ops[1..]) && (Good(t) || Alarmed(t))
    ensures Held(t, i, time)
    ensures FiresAt(s, ops, i) == 1 + FiresAt(t, ops[1..], i)
    ensures FirstPast(s.days, s.lastMyTime, ops, time) == 1 + FirstPast(t.days, t.lastMyTime, ops[1..], time)
  {
    assert ops[0] in ops;
    if ops[0].Check? {
      FiresIffPast(s, ops[0].now, i, time);
    }
    StepSound(s, ops[0]);
    StepOnSlot(s, ops[0], i, time);
    t := Step(s, ops[0]).after;
    PastLater(s.days, s.lastMyTime, ops, time, t.days, t.lastMyTime);
  }

  // In a steady run an event that is not deleted fires at the first poll, from a
  // second tick on, whose absolute clock has passed its absolute time, and at none
  // before, however many midnights lie between.
  lemma {:induction false} FiresOnTime(s: Timer, ops: seq<Op>, i: nat, time: nat)
    requires |s.events| == MAX_NUM_EVENTS && SlotsExist(ops) && Steady(s, ops) && (Good(s) || Alarmed(s))
    requires Held(s, i, time) && Delete(i) !in ops
    ensures FiresAt(s, ops, i) == FirstPast(s.days, s.lastMyTime, ops, time)
    decreases |ops|
  {
    if ops != [] {
      if ops[0].Check? && FiresSlot(s, ops[0].now, i) {
        FiresIffPast(s, ops[0].now, i, time);
      } else {
        var t := NotYet(s, ops, i, time);
        FiresOnTime(t, ops[1..], i, time);
      }
    }
  }

  // Seconds in ticks, of which there are 18.2 to the second, rounded down.
  function Ticks(seconds: nat): (d: nat)
    ensures 10 * d <= 182 * seconds < 10 * d + 10
  {
    seconds * 182 / 10
  }

  // The longest delay whose product with 182 fits in 32 bits, some 273 days.
  const LONGEST: nat := 23_598_721

  lemma LongestFits(seconds: nat)
    ensures seconds * 182 < 0x1_0000_0000 <==> seconds <= LONGEST
  {
  }

  lemma Wraps(x: nat)
    ensures x % 0x1_0000_0000 <= x && (x % 0x1_0000_0000 == x <==> x < 0x1_0000_0000)
    ensures x >= 0x1_0000_0000 ==> x % 0x1_0000_0000 <= x - 0x1_0000_0000
  {
  }

  lemma TenthsLess(x: nat, y: nat)
    requires x <= y
    ensures x / 10 <= y / 10 && (x + 10 <= y ==> x / 10 < y / 10)
  {
  }

  // An event's time is the clock's reading and the delay in ticks exactly when neither
  // product nor sum goes beyond 32 bits; otherwise it is earlier.
  lemma ExpiryIsLater(r: Request)
    ensures ExpiryTime(r) <= r.clock + Ticks(r.expire)
    ensures ExpiryTime(r) == r.clock + Ticks(r.expire) <==>
      r.expire <= LONGEST && r.clock + Ticks(r.expire) < 0x1_0000_0000
  {
    var product := r.expire * 182;
    LongestFits(r.expire);
    Wraps(product);
    TenthsLess(product % 0x1_0000_0000, product);
    Wraps(r.clock + product % 0x1_0000_0000 / 10);
  }

  // The absolute time a request asks for; its clock may have passed a midnight that
  // no poll has seen yet.
  function AskedFor(s: Timer, r: Request): nat {
    (if r.clock < s.lastMyTime then s.days + 1 else s.days) * DAY + r.clock + Ticks(r.expire)
  }

  // An accepted event is held for the time it asks for exactly when its delay fits and
  // no midnight has gone by since the last poll; otherwise it is early.
  lemma AddHolds(s: Timer, r: Request)
    requires AddScheduledEvent(s, r).1 == [r]
    ensures var t, i, time := AddScheduledEvent(s, r).0, FreeSlot(s.events, 0), s.days * DAY + ExpiryTime(r);
      && Held(t, i, time) && t.events[i].tag == r.tag && time <= AskedFor(s, r)
      && (time == AskedFor(s, r) <==>
            r.clock >= s.lastMyTime && r.expire <= LONGEST && r.clock + Ticks(r.expire) < 0x1_0000_0000)
  {
    ExpiryIsLater(r);
  }
}
