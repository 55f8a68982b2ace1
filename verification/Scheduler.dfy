// The event scheduler, on a clock that starts over at midnight.
module Scheduler {
  const MAX_NUM_EVENTS: nat := 10
  const DAY: nat := 0x1800B0
  const NEVER: nat := 0xFFFFFFFF

  // `tag` stands for the callback and its data.
  datatype Event = Event(time: nat, tag: nat, valid: bool, isNew: bool)

  datatype Timer = Timer(events: seq<Event>, nextEvent: nat, days: nat, lastMyTime: nat)

  // A call of addScheduledEvent, with the clock it reads.
  datatype Request = Request(clock: nat, expire: nat, tag: nat)

  // What each slot's callback will request, should it be called.
  type CallBacks = nat -> seq<Request>

  // ----- The operations

  // Seconds to ticks, in 32-bit arithmetic.
  function ExpiryTime(r: Request): nat {
    (r.clock + r.expire * 182 % 0x1_0000_0000 / 10) % 0x1_0000_0000
  }

  function EventOf(r: Request): Event { Event(ExpiryTime(r), r.tag, true, true) }

  // The least pending time below `best`, or `best`.
  function Least(events: seq<Event>, best: nat): (m: nat)
    ensures m <= best
    ensures forall e :: e in events && e.valid ==> m <= e.time
    ensures m == best || exists e :: e in events && e.valid && e.time == m
    decreases |events|
  {
    if events == [] then best
    else if events[0].valid && events[0].time < best then Least(events[1..], events[0].time)
    else Least(events[1..], best)
  }

  function NextEvent(events: seq<Event>): nat {
    var m := Least(events, NEVER);
    if m == NEVER then 0 else m
  }

  // The first free slot from `i` on.
  function FreeSlot(events: seq<Event>, i: nat): (r: nat)
    requires i <= |events|
    ensures i <= r <= |events| && (r < |events| ==> !events[r].valid)
    ensures forall j {:trigger events[j]} :: i <= j < r ==> events[j].valid
    decreases |events| - i
  {
    if i == |events| || !events[i].valid then i else FreeSlot(events, i + 1)
  }

  // The slots after a request, and the requests that found a slot.
  function Insert(events: seq<Event>, r: Request): (x: (seq<Event>, seq<Request>))
    ensures |x.0| == |events|
  {
    var i := FreeSlot(events, 0);
    if i == |events| then (events, []) else (events[i := EventOf(r)], [r])
  }

  function InsertAll(events: seq<Event>, rs: seq<Request>): (x: (seq<Event>, seq<Request>))
    ensures |x.0| == |events|
    decreases |rs|
  {
    if rs == [] then (events, [])
    else
      var (after, first) := Insert(events, rs[0]);
      var (end, rest) := InsertAll(after, rs[1..]);
      (end, first + rest)
  }

  function AddScheduledEvent(s: Timer, r: Request): (Timer, seq<Request>) {
    var (events, added) := Insert(s.events, r);
    (if added == [] then s else s.(events := events, nextEvent := NextEvent(events)), added)
  }

  function DeleteScheduledEvent(s: Timer, i: nat): Timer
    requires i < |s.events|
  {
    var events := s.events[i := s.events[i].(valid := false)];
    s.(events := events, nextEvent := NextEvent(events))
  }

  function RetimeEvent(e: Event): Event {
    if e.valid then e.(time := if e.time < DAY then 0 else e.time - DAY) else e
  }

  function RetimeAll(events: seq<Event>): (r: seq<Event>)
    ensures |r| == |events| && forall i {:trigger r[i]} :: 0 <= i < |r| ==> r[i] == RetimeEvent(events[i])
  {
    seq(|events|, i requires 0 <= i < |events| => RetimeEvent(events[i]))
  }

  // Midnight went by.
  function Retime(s: Timer): Timer {
    s.(events := RetimeAll(s.events),
       nextEvent := if s.nextEvent == 0 then 0 else if s.nextEvent <= DAY then 1 else s.nextEvent - DAY,
       days := s.days + 1)
  }

  function ClearNew(events: seq<Event>): (r: seq<Event>)
    ensures |r| == |events| && forall i {:trigger r[i]} :: 0 <= i < |r| ==> r[i] == events[i].(isNew := false)
  {
    seq(|events|, i requires 0 <= i < |events| => events[i].(isNew := false))
  }

  predicate IsDue(e: Event, now: nat) { e.valid && !e.isNew && e.time < now }

  // The firing loop from slot `i` on: the slots afterwards, what fired, and what
  // the callbacks added.
  function Fire(events: seq<Event>, now: nat, callBack: CallBacks, i: nat): (x: (seq<Event>, seq<Event>, seq<Request>))
    requires i <= |events|
    ensures |x.0| == |events|
    decreases |events| - i
  {
    if i == |events| then (events, [], [])
    else if IsDue(events[i], now) then
      var (during, added) := InsertAll(events, callBack(i));
      var (end, fired, more) := Fire(during[i := during[i].(valid := false)], now, callBack, i + 1);
      (end, [events[i]] + fired, added + more)
    else Fire(events, now, callBack, i + 1)
  }

  datatype Poll = Poll(after: Timer, fired: seq<Event>, added: seq<Request>)

  // The state in which a poll looks for expired events.
  function Awake(s: Timer, now: nat): Timer {
    (if now < s.lastMyTime then Retime(s) else s).(lastMyTime := now)
  }

  function CheckMisc(s: Timer, now: nat, callBack: CallBacks): Poll {
    var t := Awake(s, now);
    if t.nextEvent != 0 && t.nextEvent < now then
      var (events, fired, added) := Fire(ClearNew(t.events), now, callBack, 0);
      Poll(t.(events := events, nextEvent := NextEvent(events)), fired, added)
    else Poll(t, [], [])
  }

  // ----- One sweep

  // The due events from slot `i` on, in slot order.
  function Due(events: seq<Event>, now: nat, i: nat): seq<Event>
    requires i <= |events|
    decreases |events| - i
  {
    if i == |events| then []
    else (if IsDue(events[i], now) then [events[i]] else []) + Due(events, now, i + 1)
  }

  // New events go to free slots and are marked new.
  ghost predicate Grown(before: seq<Event>, after: seq<Event>) {
    |before| == |after| && forall i {:trigger after[i]} {:trigger before[i]} :: 0 <= i < |before| ==>
      after[i] == before[i] || (!before[i].valid && after[i].isNew)
  }

  lemma {:induction false} InsertAllGrows(events: seq<Event>, rs: seq<Request>)
    ensures Grown(events, InsertAll(events, rs).0)
    decreases |rs|
  {
    if rs != [] {
      InsertAllGrows(Insert(events, rs[0]).0, rs[1..]);
    }
  }

  lemma {:induction false} DueStable(before: seq<Event>, after: seq<Event>, now: nat, i: nat)
    requires |before| == |after| && i <= |before|
    requires forall j {:trigger after[j]} {:trigger before[j]} :: i <= j < |before| ==>
      after[j] == before[j] || (!before[j].valid && after[j].isNew)
    ensures Due(before, now, i) == Due(after, now, i)
    decreases |before| - i
  {
    if i < |before| {
      DueStable(before, after, now, i + 1);
    }
  }

  // Whatever the callbacks add, a sweep fires exactly the events that were due when
  // it began, once each and in slot order.
  lemma {:induction false} SweepFiresDue(events: seq<Event>, now: nat, callBack: CallBacks, i: nat)
    requires i <= |events|
    ensures Fire(events, now, callBack, i).1 == Due(events, now, i)
    decreases |events| - i
  {
    if i < |events| {
      if IsDue(events[i], now) {
        var during := InsertAll(events, callBack(i)).0;
        var after := during[i := during[i].(valid := false)];
        InsertAllGrows(events, callBack(i));
        DueStable(events, after, now, i + 1);
        SweepFiresDue(after, now, callBack, i + 1);
      } else {
        SweepFiresDue(events, now, callBack, i + 1);
      }
    }
  }

  // ----- Nothing is lost

  function Of(e: Event, tag: nat): nat { if e.valid && e.tag == tag then 1 else 0 }

  // How often a tag is pending, fired, requested.
  function Pending(events: seq<Event>, tag: nat): nat {
    if events == [] then 0 else Of(events[0], tag) + Pending(events[1..], tag)
  }

  function Fired(events: seq<Event>, tag: nat): nat {
    if events == [] then 0 else (if events[0].tag == tag then 1 else 0) + Fired(events[1..], tag)
  }

  function Requested(rs: seq<Request>, tag: nat): nat {
    if rs == [] then 0 else (if rs[0].tag == tag then 1 else 0) + Requested(rs[1..], tag)
  }

  lemma {:induction false} PendingUpdate(events: seq<Event>, i: nat, e: Event, tag: nat)
    requires i < |events|
    ensures Pending(events[i := e], tag) + Of(events[i], tag) == Pending(events, tag) + Of(e, tag)
  {
    if i == 0 {
      assert events[0 := e][1..] == events[1..];
    } else {
      assert events[i := e][1..] == events[1..][i - 1 := e];
      PendingUpdate(events[1..], i - 1, e, tag);
    }
  }

  lemma {:induction false} SamePending(before: seq<Event>, after: seq<Event>, tag: nat)
    requires |before| == |after|
    requires forall i :: 0 <= i < |before| ==> Of(before[i], tag) == Of(after[i], tag)
    ensures Pending(before, tag) == Pending(after, tag)
  {
    if before != [] {
      SamePending(before[1..], after[1..], tag);
    }
  }

  lemma {:induction false} RequestedAppend(a: seq<Request>, b: seq<Request>, tag: nat)
    ensures Requested(a + b, tag) == Requested(a, tag) + Requested(b, tag)
  {
    if a == [] {
      assert a + b == b;
    } else {
      assert (a + b)[1..] == a[1..] + b;
      RequestedAppend(a[1..], b, tag);
    }
  }

  lemma {:induction false} FiredAppend(a: seq<Event>, b: seq<Event>, tag: nat)
    ensures Fired(a + b, tag) == Fired(a, tag) + Fired(b, tag)
  {
    if a == [] {
      assert a + b == b;
    } else {
      assert (a + b)[1..] == a[1..] + b;
      FiredAppend(a[1..], b, tag);
    }
  }

  lemma InsertCounts(events: seq<Event>, r: Request, tag: nat)
    ensures var (after, added) := Insert(events, r);
      Pending(after, tag) == Pending(events, tag) + Requested(added, tag)
  {
  }

  lemma {:induction false} InsertAllCounts(events: seq<Event>, rs: seq<Request>, tag: nat)
    ensures var (after, added) := InsertAll(events, rs);
      Pending(after, tag) == Pending(events, tag) + Requested(added, tag)
    decreases |rs|
  {
    if rs != [] {
      var (after, first) := Insert(events, rs[0]);
      InsertCounts(events, rs[0], tag);
      InsertAllCounts(after, rs[1..], tag);
      RequestedAppend(first, InsertAll(after, rs[1..]).1, tag);
    }
  }

  lemma {:induction false} FireCounts(events: seq<Event>, now: nat, callBack: CallBacks, i: nat, tag: nat)
    requires i <= |events|
    ensures var (after, fired, added) := Fire(events, now, callBack, i);
      Pending(after, tag) + Fired(fired, tag) == Pending(events, tag) + Requested(added, tag)
    decreases |events| - i
  {
    if i < |events| {
      if IsDue(events[i], now) {
        var (during, added) := InsertAll(events, callBack(i));
        var after := during[i := during[i].(valid := false)];
        var (_, fired, more) := Fire(after, now, callBack, i + 1);
        InsertAllGrows(events, callBack(i));
        InsertAllCounts(events, callBack(i), tag);
        PendingUpdate(during, i, during[i].(valid := false), tag);
        FireCounts(after, now, callBack, i + 1, tag);
        RequestedAppend(added, more, tag);
        FiredAppend([events[i]], fired, tag);
      } else {
        FireCounts(events, now, callBack, i + 1, tag);
      }
    }
  }

  lemma PollCounts(s: Timer, now: nat, callBack: CallBacks, tag: nat)
    ensures var p := CheckMisc(s, now, callBack);
      Pending(p.after.events, tag) + Fired(p.fired, tag) == Pending(s.events, tag) + Requested(p.added, tag)
  {
    var t := Awake(s, now);
    SamePending(s.events, t.events, tag);
    SamePending(t.events, ClearNew(t.events), tag);
    FireCounts(ClearNew(t.events), now, callBack, 0, tag);
  }
}
