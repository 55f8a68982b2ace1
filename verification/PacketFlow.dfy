// Where the packet buffers are: a free stack, the queues of the two cards, the
// management queues, the protocol stack's queue, and the buffers somebody is
// working on. The main thread and the interrupt threads take the steps below in
// any order.
module PacketFlow {
  const BUFFER_POOL_OVERHEAD: nat := 5

  // The places. A card's management queue comes two after its packet queue, and the
  // buffers handed to it to be sent six after.
  const FREE: nat := 0
  const CAMPUS: nat := 1
  const INTERNET: nat := 2
  const PROTOCOL: nat := 5
  const HELD: nat := 6
  const PLACES: nat := 9

  type Packet = nat

  datatype Verdict = Local | Transmitted | Filtered

  // `content` is what each buffer holds; `arrived` and `departed` log, for each
  // queue, the packets put on it and what became of them; `overflow` is the "tried
  // to free too many packet buffers" error.
  datatype Flow = Flow(
    places: seq<seq<nat>>, content: seq<Packet>,
    arrived: seq<seq<Packet>>, departed: seq<seq<(Packet, Verdict)>>, overflow: bool)

  datatype Step =
    | Alloc                                          // for a received packet
    | AllocMgmt                                      // for a packet of our own
    | Arrive(i: nat, card: nat, packet: Packet)      // fill a held buffer and queue it
    | QueueMgmt(i: nat, card: nat, packet: Packet)
    | SendMgmt(card: nat)                            // checkCard's first loop, once
    | Forward(card: nat, verdict: Verdict)           // checkCard's second loop, once
    | TakeLocal                                      // checkIp takes a packet
    | Release(i: nat)                                // a held buffer is freed
    | SendDone(i: nat, card: nat)                    // a transmission has ended

  predicate IsCard(card: nat) { card == CAMPUS || card == INTERNET }

  predicate IsQueue(place: nat) { CAMPUS <= place <= PROTOCOL }

  function Mgmt(card: nat): nat { card + 2 }

  function Flight(card: nat): nat { card + 6 }

  // The card that a card's packets are forwarded to.
  function Other(card: nat): nat { if card == CAMPUS then INTERNET else CAMPUS }

  // ----- The steps

  function Without(q: seq<nat>, i: nat): seq<nat>
    requires i < |q|
  {
    q[..i] + q[i + 1..]
  }

  // Take the buffer at index `i` of place `p` and append it to place `q`.
  function Move(places: seq<seq<nat>>, p: nat, i: nat, q: nat): (r: seq<seq<nat>>)
    requires p < |places| && q < |places| && p != q && i < |places[p]|
    ensures |r| == |places|
  {
    places[p := Without(places[p], i)][q := places[q] + [places[p][i]]]
  }

  predicate Shaped(s: Flow) {
    |s.places| == PLACES && |s.arrived| == PLACES && |s.departed| == PLACES
  }

  function Content(s: Flow, b: nat): Packet { if b < |s.content| then s.content[b] else 0 }

  function Fill(s: Flow, b: nat, packet: Packet): (t: Flow)
    requires Shaped(s)
    ensures Shaped(t) && t.places == s.places
  {
    if b < |s.content| then s.(content := s.content[b := packet]) else s
  }

  // Move a buffer, logging its packet where it leaves or enters a queue.
  function Transfer(s: Flow, p: nat, i: nat, q: nat, verdict: Verdict): (t: Flow)
    requires Shaped(s) && p < PLACES && q < PLACES && p != q && i < |s.places[p]|
    ensures Shaped(t)
  {
    var packet := Content(s, s.places[p][i]);
    s.(places := Move(s.places, p, i, q),
       arrived := if IsQueue(q) then s.arrived[q := s.arrived[q] + [packet]] else s.arrived,
       departed := if IsQueue(p) then s.departed[p := s.departed[p] + [(packet, verdict)]] else s.departed)
  }

  // Free a buffer; with the whole pool free there is no room to do so.
  function FreeFrom(s: Flow, p: nat, i: nat): (t: Flow)
    requires Shaped(s) && FREE < p < PLACES && i < |s.places[p]|
    ensures Shaped(t)
  {
    if |s.places[FREE]| == |s.content| then s.(overflow := true)
    else Transfer(s, p, i, FREE, Filtered)
  }

  // Take the top of the free stack, keeping `keep` buffers back.
  function AllocFrom(s: Flow, keep: nat): (t: Flow)
    requires Shaped(s)
    ensures Shaped(t)
  {
    var free := |s.places[FREE]|;
    if free <= keep then s else Transfer(s, FREE, free - 1, HELD, Transmitted)
  }

  function Next(s: Flow, step: Step): (t: Flow)
    requires Shaped(s)
    ensures Shaped(t)
  {
    match step
    case Alloc => AllocFrom(s, BUFFER_POOL_OVERHEAD)
    case AllocMgmt => AllocFrom(s, 0)
    case Arrive(i, card, packet) =>
      if i < |s.places[HELD]| && IsCard(card) then
        Transfer(Fill(s, s.places[HELD][i], packet), HELD, i, card, Transmitted)
      else s
    case QueueMgmt(i, card, packet) =>
      if i < |s.places[HELD]| && IsCard(card) then
        Transfer(Fill(s, s.places[HELD][i], packet), HELD, i, Mgmt(card), Transmitted)
      else s
    case SendMgmt(card) =>
      if IsCard(card) && s.places[Mgmt(card)] != [] then Transfer(s, Mgmt(card), 0, Flight(card), Transmitted) else s
    case Forward(card, verdict) =>
      if IsCard(card) && s.places[card] != [] then ForwardFrom(s, card, verdict) else s
    case TakeLocal =>
      if s.places[PROTOCOL] != [] then Transfer(s, PROTOCOL, 0, HELD, Local) else s
    case Release(i) => if i < |s.places[HELD]| then FreeFrom(s, HELD, i) else s
    case SendDone(i, card) =>
      if IsCard(card) && i < |s.places[Flight(card)]| then FreeFrom(s, Flight(card), i) else s
  }

  function ForwardFrom(s: Flow, card: nat, verdict: Verdict): (t: Flow)
    requires Shaped(s) && IsCard(card) && s.places[card] != []
    ensures Shaped(t)
  {
    match verdict
    case Local => Transfer(s, card, 0, PROTOCOL, Local)
    case Transmitted => Transfer(s, card, 0, Flight(Other(card)), Transmitted)
    case Filtered => FreeFrom(s, card, 0)
  }

  function Run(s: Flow, steps: seq<Step>): (t: Flow)
    requires Shaped(s)
    ensures Shaped(t)
    decreases |steps|
  {
    if steps == [] then s else Run(Next(s, steps[0]), steps[1..])
  }

  // initQueue, for a pool of `n` buffers including the overhead.
  function Initial(n: nat): (s: Flow)
    ensures Shaped(s)
  {
    Flow([seq(n, i => i)] + seq(PLACES - 1, _ => []), seq(n, _ => 0), seq(PLACES, _ => []), seq(PLACES, _ => []), false)
  }

  // ----- Counting buffers

  function Occurs(q: seq<nat>, b: nat): nat {
    if q == [] then 0 else (if q[0] == b then 1 else 0) + Occurs(q[1..], b)
  }

  // How often a buffer occurs in all places together.
  function Total(places: seq<seq<nat>>, b: nat): nat {
    if places == [] then 0 else Occurs(places[0], b) + Total(places[1..], b)
  }

  function Size(places: seq<seq<nat>>): nat {
    if places == [] then 0 else |places[0]| + Size(places[1..])
  }

  lemma {:induction false} OccursAppend(p: seq<nat>, q: seq<nat>, b: nat)
    ensures Occurs(p + q, b) == Occurs(p, b) + Occurs(q, b)
  {
    if p == [] {
      assert p + q == q;
    } else {
      assert (p + q)[1..] == p[1..] + q;
      OccursAppend(p[1..], q, b);
    }
  }

  lemma OccursWithout(q: seq<nat>, i: nat, b: nat)
    requires i < |q|
    ensures Occurs(q, b) == Occurs(Without(q, i), b) + if q[i] == b then 1 else 0
  {
    assert q == q[..i] + q[i..] && q[i..][1..] == q[i + 1..];
    OccursAppend(q[..i], q[i..], b);
    OccursAppend(q[..i], q[i + 1..], b);
  }

  lemma {:induction false} OccursIffIn(q: seq<nat>, b: nat)
    ensures Occurs(q, b) > 0 <==> b in q
  {
    if q != [] {
      OccursIffIn(q[1..], b);
      assert q == [q[0]] + q[1..];
    }
  }

  lemma {:induction false} TotalUpdate(places: seq<seq<nat>>, p: nat, q: seq<nat>, b: nat)
    requires p < |places|
    ensures Total(places[p := q], b) + Occurs(places[p], b) == Total(places, b) + Occurs(q, b)
    ensures Size(places[p := q]) + |places[p]| == Size(places) + |q|
  {
    if p == 0 {
      assert places[0 := q][1..] == places[1..];
    } else {
      assert places[p := q][1..] == places[1..][p - 1 := q];
      TotalUpdate(places[1..], p - 1, q, b);
    }
  }

  // Moving a buffer changes no total.
  lemma MoveKeepsTotal(places: seq<seq<nat>>, p: nat, i: nat, q: nat, b: nat)
    requires p < |places| && q < |places| && p != q && i < |places[p]|
    ensures Total(Move(places, p, i, q), b) == Total(places, b)
    ensures Size(Move(places, p, i, q)) == Size(places)
  {
    var taken := places[p := Without(places[p], i)];
    TotalUpdate(places, p, Without(places[p], i), b);
    TotalUpdate(taken, q, places[q] + [places[p][i]], b);
    OccursWithout(places[p], i, b);
    OccursAppend(places[q], [places[p][i]], b);
  }

  // A buffer that occurs once in all is in one place only.
  lemma OnePlace(places: seq<seq<nat>>, p: nat, q: nat, b: nat)
    requires p < |places| && q < |places| && p != q && Total(places, b) <= 1 && b in places[p]
    ensures b !in places[q]
  {
    TotalUpdate(places, p, [], b);
    TotalUpdate(places[p := []], q, [], b);
    OccursIffIn(places[p], b);
    OccursIffIn(places[q], b);
  }

  lemma SizeAtLeast(places: seq<seq<nat>>, p: nat, q: nat)
    requires p < |places| && q < |places| && p != q
    ensures |places[p]| + |places[q]| <= Size(places)
  {
    TotalUpdate(places, p, [], 0);
    TotalUpdate(places[p := []], q, [], 0);
  }

  // ----- The invariant

  function Packets(s: Flow, q: seq<nat>): (r: seq<Packet>)
    ensures |r| == |q| && forall i :: 0 <= i < |q| ==> r[i] == Content(s, q[i])
  {
    seq(|q|, i requires 0 <= i < |q| => Content(s, q[i]))
  }

  function PacketsOf(log: seq<(Packet, Verdict)>): (r: seq<Packet>)
    ensures |r| == |log| && forall i :: 0 <= i < |log| ==> r[i] == log[i].0
  {
    seq(|log|, i requires 0 <= i < |log| => log[i].0)
  }

  // The `i`-th packet that went through a queue, or is on it.
  function Passed(s: Flow, q: nat, i: nat): Packet
    requires Shaped(s) && q < PLACES && i < |s.departed[q]| + |s.places[q]|
  {
    if i < |s.departed[q]| then s.departed[q][i].0 else Content(s, s.places[q][i - |s.departed[q]|])
  }

  // First in, first out: what left a queue and then what is on it, with its content,
  // is what was put on it.
  predicate Fifo(s: Flow, q: nat)
    requires Shaped(s) && q < PLACES
  {
    && |s.arrived[q]| == |s.departed[q]| + |s.places[q]|
    && forall i {:trigger s.arrived[q][i]} {:trigger Passed(s, q, i)} :: 0 <= i < |s.arrived[q]| ==>
         s.arrived[q][i] == Passed(s, q, i)
  }

  lemma FifoJoins(s: Flow, q: nat)
    requires Shaped(s) && q < PLACES && Fifo(s, q)
    ensures s.arrived[q] == PacketsOf(s.departed[q]) + Packets(s, s.places[q])
  {
    var joined := PacketsOf(s.departed[q]) + Packets(s, s.places[q]);
    forall i | 0 <= i < |joined|
      ensures joined[i] == s.arrived[q][i]
    {
      assert s.arrived[q][i] == Passed(s, q, i);
    }
  }

  // Every buffer of the pool is in exactly one place, once.
  ghost predicate OneOfEach(s: Flow) {
    Size(s.places) == |s.content| &&
    forall b: nat {:trigger Total(s.places, b)} :: Total(s.places, b) == if b < |s.content| then 1 else 0
  }

  ghost predicate Good(s: Flow) {
    && Shaped(s) && OneOfEach(s) && !s.overflow
    && (forall q: nat {:trigger Fifo(s, q)} :: IsQueue(q) ==> Fifo(s, q))
  }

  lemma TransferKeeps(s: Flow, p: nat, i: nat, q: nat, verdict: Verdict)
    requires Good(s) && p < PLACES && q < PLACES && p != q && i < |s.places[p]| && (IsQueue(p) ==> i == 0)
    ensures Good(Transfer(s, p, i, q, verdict))
  {
    var t := Transfer(s, p, i, q, verdict);
    forall b: nat
      ensures Total(t.places, b) == Total(s.places, b) && Size(t.places) == Size(s.places)
    {
      MoveKeepsTotal(s.places, p, i, q, b);
    }
    assert Total(t.places, 0) == Total(s.places, 0);
    forall r: nat | IsQueue(r)
      ensures Fifo(t, r)
    {
      assert Fifo(s, r);
      TransferFifo(s, p, i, q, verdict, r);
    }
  }

  // A queue that loses its first buffer, or gains a last one.
  lemma FifoOut(s: Flow, t: Flow, q: nat, packet: Packet, verdict: Verdict)
    requires Shaped(s) && Shaped(t) && IsQueue(q) && Fifo(s, q) && s.content == t.content && s.places[q] != []
    requires t.places[q] == s.places[q][1..] && t.arrived[q] == s.arrived[q]
    requires packet == Content(s, s.places[q][0]) && t.departed[q] == s.departed[q] + [(packet, verdict)]
    ensures Fifo(t, q)
  {
    forall i | 0 <= i < |t.arrived[q]|
      ensures t.arrived[q][i] == Passed(t, q, i)
    {
      assert s.arrived[q][i] == Passed(s, q, i);
    }
  }

  lemma FifoIn(s: Flow, t: Flow, q: nat, b: nat)
    requires Shaped(s) && Shaped(t) && IsQueue(q) && Fifo(s, q) && s.content == t.content
    requires t.places[q] == s.places[q] + [b] && t.arrived[q] == s.arrived[q] + [Content(s, b)]
    requires t.departed[q] == s.departed[q]
    ensures Fifo(t, q)
  {
    forall i | 0 <= i < |t.arrived[q]|
      ensures t.arrived[q][i] == Passed(t, q, i)
    {
      assert i < |s.arrived[q]| ==> s.arrived[q][i] == Passed(s, q, i);
    }
  }

  lemma TransferFifo(s: Flow, p: nat, i: nat, q: nat, verdict: Verdict, r: nat)
    requires Shaped(s) && p < PLACES && q < PLACES && p != q && i < |s.places[p]| && (IsQueue(p) ==> i == 0)
    requires IsQueue(r) && Fifo(s, r)
    ensures Fifo(Transfer(s, p, i, q, verdict), r)
  {
    var t := Transfer(s, p, i, q, verdict);
    if r == p {
      assert t.places[p] == s.places[p][1..];
      FifoOut(s, t, p, Content(s, s.places[p][0]), verdict);
    } else if r == q {
      FifoIn(s, t, q, s.places[p][i]);
    } else {
      SameFifo(s, t, r);
    }
  }

  // A queue whose logs, buffers and contents are the same.
  lemma SameFifo(s: Flow, t: Flow, q: nat)
    requires Shaped(s) && Shaped(t) && q < PLACES && Fifo(s, q)
    requires t.places[q] == s.places[q] && t.arrived[q] == s.arrived[q] && t.departed[q] == s.departed[q]
    requires forall b :: b in s.places[q] ==> Content(t, b) == Content(s, b)
    ensures Fifo(t, q)
  {
    forall i | 0 <= i < |t.arrived[q]|
      ensures t.arrived[q][i] == Passed(t, q, i)
    {
      assert s.arrived[q][i] == Passed(s, q, i);
    }
  }

  // Filling a held buffer is seen by no queue.
  lemma FillKeeps(s: Flow, i: nat, packet: Packet)
    requires Good(s) && i < |s.places[HELD]|
    ensures Good(Fill(s, s.places[HELD][i], packet))
  {
    var b := s.places[HELD][i];
    var t := Fill(s, b, packet);
    forall q: nat | IsQueue(q)
      ensures Fifo(t, q)
    {
      assert Total(s.places, b) <= 1;
      OnePlace(s.places, HELD, q, b);
      SameFifo(s, t, q);
    }
  }

  // A buffer that is not free leaves room on the free stack.
  lemma FreeKeeps(s: Flow, p: nat, i: nat)
    requires Good(s) && FREE < p < PLACES && i < |s.places[p]| && (IsQueue(p) ==> i == 0)
    ensures Good(FreeFrom(s, p, i)) && FreeFrom(s, p, i) == Transfer(s, p, i, FREE, Filtered)
  {
    SizeAtLeast(s.places, FREE, p);
    TransferKeeps(s, p, i, FREE, Filtered);
  }

  lemma NextKeeps(s: Flow, step: Step)
    requires Good(s)
    ensures Good(Next(s, step))
  {
    match step
    case Alloc => AllocKeeps(s, BUFFER_POOL_OVERHEAD);
    case AllocMgmt => AllocKeeps(s, 0);
    case Arrive(i, card, packet) =>
      if i < |s.places[HELD]| && IsCard(card) {
        FillKeeps(s, i, packet);
        TransferKeeps(Fill(s, s.places[HELD][i], packet), HELD, i, card, Transmitted);
      }
    case QueueMgmt(i, card, packet) =>
      if i < |s.places[HELD]| && IsCard(card) {
        FillKeeps(s, i, packet);
        TransferKeeps(Fill(s, s.places[HELD][i], packet), HELD, i, Mgmt(card), Transmitted);
      }
    case SendMgmt(card) =>
      if IsCard(card) && s.places[Mgmt(card)] != [] {
        TransferKeeps(s, Mgmt(card), 0, Flight(card), Transmitted);
      }
    case Forward(card, verdict) =>
      if IsCard(card) && s.places[card] != [] {
        ForwardKeeps(s, card, verdict);
      }
    case TakeLocal =>
      if s.places[PROTOCOL] != [] {
        TransferKeeps(s, PROTOCOL, 0, HELD, Local);
      }
    case Release(i) =>
      if i < |s.places[HELD]| {
        FreeKeeps(s, HELD, i);
      }
    case SendDone(i, card) =>
      if IsCard(card) && i < |s.places[Flight(card)]| {
        FreeKeeps(s, Flight(card), i);
      }
  }

  // An allocation takes a buffer exactly when more than `keep` are free, and so
  // never leaves fewer than `keep`.
  lemma AllocKeeps(s: Flow, keep: nat)
    requires Good(s)
    ensures Good(AllocFrom(s, keep))
    ensures AllocFrom(s, keep) != s <==> |s.places[FREE]| > keep
    ensures |AllocFrom(s, keep).places[FREE]| >= keep || AllocFrom(s, keep) == s
  {
    var free := |s.places[FREE]|;
    if free > keep {
      TransferKeeps(s, FREE, free - 1, HELD, Transmitted);
      assert |AllocFrom(s, keep).places[FREE]| == free - 1;
    }
  }

  lemma ForwardKeeps(s: Flow, card: nat, verdict: Verdict)
    requires Good(s) && IsCard(card) && s.places[card] != []
    ensures Good(ForwardFrom(s, card, verdict))
    ensures ForwardFrom(s, card, verdict).departed[card] ==
      s.departed[card] + [(Content(s, s.places[card][0]), verdict)]
  {
    match verdict
    case Local => TransferKeeps(s, card, 0, PROTOCOL, Local);
    case Transmitted => TransferKeeps(s, card, 0, Flight(Other(card)), Transmitted);
    case Filtered => FreeKeeps(s, card, 0);
  }

  // ----- Whole runs

  lemma {:induction false} RunKeeps(s: Flow, steps: seq<Step>)
    requires Good(s)
    ensures Good(Run(s, steps))
    decreases |steps|
  {
    if steps != [] {
      NextKeeps(s, steps[0]);
      RunKeeps(Next(s, steps[0]), steps[1..]);
    }
  }

  lemma {:induction false} RangeOccurs(lo: nat, n: nat, b: nat)
    requires lo <= n
    ensures Occurs(seq(n - lo, i requires i >= 0 => lo + i), b) == if lo <= b < n then 1 else 0
    decreases n - lo
  {
    if lo < n {
      assert seq(n - lo, i requires i >= 0 => lo + i)[1..] == seq(n - (lo + 1), i requires i >= 0 => lo + 1 + i);
      RangeOccurs(lo + 1, n, b);
    }
  }

  lemma {:induction false} EmptyTotal(places: seq<seq<nat>>, b: nat)
    requires forall i :: 0 <= i < |places| ==> places[i] == []
    ensures Total(places, b) == 0 && Size(places) == 0
  {
    if places != [] {
      EmptyTotal(places[1..], b);
    }
  }

  lemma InitialGood(n: nat)
    ensures Good(Initial(n))
  {
    var s := Initial(n);
    var all := seq(n, i requires i >= 0 => 0 + i);
    assert s.places[0] == all;
    forall b: nat
      ensures Total(s.places, b) == (if b < n then 1 else 0) && Size(s.places) == n
    {
      RangeOccurs(0, n, b);
      EmptyTotal(s.places[1..], b);
    }
    assert Total(s.places, 0) == if 0 < n then 1 else 0;
    forall q: nat | IsQueue(q)
      ensures Fifo(s, q)
    {
      assert s.places[q] == [] && s.arrived[q] == [] && s.departed[q] == [];
    }
  }

  function Count(log: seq<(Packet, Verdict)>, verdict: Verdict): nat {
    if log == [] then 0 else (if log[0].1 == verdict then 1 else 0) + Count(log[1..], verdict)
  }

  lemma {:induction false} CountsAddUp(log: seq<(Packet, Verdict)>)
    ensures Count(log, Local) + Count(log, Transmitted) + Count(log, Filtered) == |log|
  {
    if log != [] {
      CountsAddUp(log[1..]);
    }
  }

  // The pool keeps its size.
  lemma {:induction false} RunKeepsPool(s: Flow, steps: seq<Step>)
    requires Shaped(s)
    ensures |Run(s, steps).content| == |s.content|
    decreases |steps|
  {
    if steps != [] {
      RunKeepsPool(Next(s, steps[0]), steps[1..]);
    }
  }

  // Over every run, however the threads interleave: each of the pool's buffers is in
  // exactly one place; freeing never overflows; and the packets that arrived on a
  // queue are, in order and with their content, those that left it and those still
  // on it.
  lemma BuffersAreConserved(n: nat, steps: seq<Step>, b: nat, q: nat)
    requires IsQueue(q)
    ensures var t := Run(Initial(n), steps);
      && |t.content| == n && (Total(t.places, b) == if b < n then 1 else 0)
      && !t.overflow
      && t.arrived[q] == PacketsOf(t.departed[q]) + Packets(t, t.places[q])
  {
    InitialGood(n);
    RunKeeps(Initial(n), steps);
    RunKeepsPool(Initial(n), steps);
    FifoJoins(Run(Initial(n), steps), q);
  }

  // Per direction, what arrived was transmitted, filtered or delivered locally, or
  // is still queued.
  lemma ReceivedIsAccountedFor(n: nat, steps: seq<Step>, card: nat)
    requires IsCard(card)
    ensures var t := Run(Initial(n), steps); var log := t.departed[card];
      |t.arrived[card]| == Count(log, Transmitted) + Count(log, Filtered) + Count(log, Local) + |t.places[card]|
  {
    BuffersAreConserved(n, steps, 0, card);
    CountsAddUp(Run(Initial(n), steps).departed[card]);
  }

  // Only allocations take from the free stack, and one for a received packet leaves
  // at least five buffers for packets of our own.
  lemma ReceiveLeavesFive(s: Flow, step: Step)
    requires Good(s)
    ensures |Next(s, step).places[FREE]| < |s.places[FREE]| ==>
      step == AllocMgmt || (step == Alloc && |Next(s, step).places[FREE]| >= BUFFER_POOL_OVERHEAD)
  {
    if step.Forward? && step.verdict.Filtered? && IsCard(step.card) && s.places[step.card] != [] {
      FreeKeeps(s, step.card, 0);
    }
  }
}
