// The scheduler's code on its event slots.
module SchedulerCode {
  import opened Scheduler

  class EventQueue {
    const events: array<Event>
    var nextEvent: nat
    var days: nat
    var lastMyTime: nat

    ghost predicate Valid()
      reads this
    {
      events.Length == MAX_NUM_EVENTS
    }

    ghost function Value(): Timer
      reads this, events
    {
      Timer(events[..], nextEvent, days, lastMyTime)
    }

    constructor (startTime: nat)
      ensures Valid() && fresh(events)
      ensures Value() == Timer(seq(MAX_NUM_EVENTS, _ => Event(0, 0, false, false)), 0, 0, startTime)
    {
      events := new Event[MAX_NUM_EVENTS](_ => Event(0, 0, false, false));
      nextEvent, days, lastMyTime := 0, 0, startTime;
      new;
      assert events[..] == seq(MAX_NUM_EVENTS, _ => Event(0, 0, false, false));
    }

    method FindNextEvent()
      requires Valid()
      modifies this`nextEvent
      ensures nextEvent == NextEvent(events[..])
    {
      nextEvent := NEVER;
      var i := 0;
      while i < MAX_NUM_EVENTS
        invariant i <= MAX_NUM_EVENTS
        invariant Least(events[..], NEVER) == Least(events[i..], nextEvent)
      {
        if events[i].valid && events[i].time < nextEvent {
          nextEvent := events[i].time;
        }
        i := i + 1;
      }
      if nextEvent == NEVER {
        nextEvent := 0;
      }
    }

    // Returns the request if there was room for it.
    method AddScheduledEvent(r: Request) returns (added: seq<Request>)
      requires Valid()
      modifies this`nextEvent, events
      ensures (Value(), added) == Scheduler.AddScheduledEvent(old(Value()), r)
    {
      ghost var was := events[..];
      var i := 0;
      while i < MAX_NUM_EVENTS
        invariant i <= MAX_NUM_EVENTS && FreeSlot(events[..], 0) == FreeSlot(events[..], i)
      {
        if !events[i].valid {
          break;
        }
        i := i + 1;
      }
      if i == MAX_NUM_EVENTS {
        return [];
      }
      events[i] := EventOf(r);
      assert events[..] == was[i := EventOf(r)];
      FindNextEvent();
      return [r];
    }

    method DeleteScheduledEvent(i: nat)
      requires Valid() && i < MAX_NUM_EVENTS
      modifies this`nextEvent, events
      ensures Value() == Scheduler.DeleteScheduledEvent(old(Value()), i)
    {
      ghost var was := events[..];
      events[i] := events[i].(valid := false);
      assert events[..] == was[i := was[i].(valid := false)];
      FindNextEvent();
    }

    // Midnight just went by.
    method RetimeEvents()
      requires Valid()
      modifies this`nextEvent, this`days, events
      ensures Value() == Retime(old(Value()))
    {
      ghost var was := events[..];
      var i := 0;
      while i < MAX_NUM_EVENTS
        invariant i <= MAX_NUM_EVENTS && nextEvent == old(nextEvent) && days == old(days)
        invariant forall j {:trigger events[j]} :: 0 <= j < MAX_NUM_EVENTS ==>
          events[j] == if j < i then RetimeEvent(was[j]) else was[j]
      {
        if events[i].valid {
          if events[i].time < DAY {
            events[i] := events[i].(time := 0);
          } else {
            events[i] := events[i].(time := events[i].time - DAY);
          }
        }
        i := i + 1;
      }
      assert events[..] == RetimeAll(was);
      if nextEvent != 0 {
        if nextEvent <= DAY {
          nextEvent := 1;
        } else {
          nextEvent := nextEvent - DAY;
        }
      }
      days := days + 1;
    }

    // A callback's requests, in order.
    method CallBack(requests: seq<Request>) returns (added: seq<Request>)
      requires Valid()
      modifies this`nextEvent, events
      ensures (events[..], added) == InsertAll(old(events[..]), requests)
      decreases |requests|
    {
      if requests == [] {
        return [];
      }
      var first := AddScheduledEvent(requests[0]);
      var rest := CallBack(requests[1..]);
      added := first + rest;
    }

    method ClearMarks()
      requires Valid()
      modifies events
      ensures events[..] == ClearNew(old(events[..]))
    {
      ghost var was := events[..];
      var i := 0;
      while i < MAX_NUM_EVENTS
        invariant i <= MAX_NUM_EVENTS
        invariant forall j {:trigger events[j]} :: 0 <= j < MAX_NUM_EVENTS ==>
          events[j] == if j < i then was[j].(isNew := false) else was[j]
      {
        events[i] := events[i].(isNew := false);
        i := i + 1;
      }
      assert events[..] == ClearNew(was);
    }

    method FireExpired(myTime: nat, callBack: CallBacks) returns (fired: seq<Event>, added: seq<Request>)
      requires Valid()
      modifies this`nextEvent, events
      ensures (events[..], fired, added) == Fire(old(events[..]), myTime, callBack, 0)
    {
      ghost var goal := Fire(events[..], myTime, callBack, 0);
      fired, added := [], [];
      var i := 0;
      while i < MAX_NUM_EVENTS
        invariant i <= MAX_NUM_EVENTS
        invariant goal.0 == Fire(events[..], myTime, callBack, i).0
        invariant goal.1 == fired + Fire(events[..], myTime, callBack, i).1
        invariant goal.2 == added + Fire(events[..], myTime, callBack, i).2
      {
        if events[i].valid && !events[i].isNew && events[i].time < myTime {
          ghost var during := InsertAll(events[..], callBack(i)).0;
          ghost var rest := Fire(during[i := during[i].(valid := false)], myTime, callBack, i + 1);
          ghost var before, e := (fired, added), events[i];
          fired := fired + [events[i]];
          var some := CallBack(callBack(i));
          events[i] := events[i].(valid := false);
          assert events[..] == during[i := during[i].(valid := false)];
          added := added + some;
          assert before.0 + ([e] + rest.1) == fired + rest.1;
          assert before.1 + (some + rest.2) == added + rest.2;
        }
        i := i + 1;
      }
      assert fired + [] == fired && added + [] == added;
    }

    method CheckMisc(myTime: nat, callBack: CallBacks) returns (fired: seq<Event>, added: seq<Request>)
      requires Valid()
      modifies this, events
      ensures Poll(Value(), fired, added) == Scheduler.CheckMisc(old(Value()), myTime, callBack)
    {
      fired, added := [], [];
      if myTime < lastMyTime {
        RetimeEvents();
      }
      lastMyTime := myTime;
      if nextEvent != 0 && nextEvent < myTime {
        ClearMarks();
        fired, added := FireExpired(myTime, callBack);
        FindNextEvent();
      }
    }
  }
}
