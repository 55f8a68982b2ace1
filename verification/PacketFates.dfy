// Where each packet's buffer goes: what a step puts on the wire, hands to the
// protocol stack or frees, and over whole runs that only packets the policy let
// through, and packets of our own, are ever sent.
module PacketFates {
  import opened PacketFlow

  lemma HeadTaken(places: seq<seq<nat>>, p: nat, q: nat)
    requires p < |places| && q < |places| && p != q && places[p] != []
    ensures Move(places, p, 0, q) == places[p := places[p][1..]][q := places[q] + [places[p][0]]]
  {
    assert Without(places[p], 0) == places[p][1..];
  }

  // ----- One step

  // Forwarding takes the first buffer off the card's queue. A local packet's goes to
  // the protocol stack, a transmitted one's to the other card, a filtered one's back
  // to the free stack; nothing else moves.
  lemma ForwardPlaces(s: Flow, card: nat, verdict: Verdict)
    requires Good(s) && IsCard(card) && s.places[card] != []
    ensures var t, b := Next(s, Forward(card, verdict)), [s.places[card][0]];
      && t.content == s.content && t.places[card] == s.places[card][1..]
      && t.places[PROTOCOL] == s.places[PROTOCOL] + (if verdict == Local then b else [])
      && t.places[Flight(Other(card))] == s.places[Flight(Other(card))] + (if verdict == Transmitted then b else [])
      && t.places[FREE] == s.places[FREE] + (if verdict == Filtered then b else [])
      && forall p {:trigger t.places[p]} ::
           0 <= p < PLACES && p !in {card, PROTOCOL, Flight(Other(card)), FREE} ==> t.places[p] == s.places[p]
  {
    match verdict
    case Local => HeadTaken(s.places, card, PROTOCOL);
    case Transmitted => HeadTaken(s.places, card, Flight(Other(card)));
    case Filtered =>
      FreeKeeps(s, card, 0);
      HeadTaken(s.places, card, FREE);
  }

  // A packet received on a card waits, last, on that card's queue, and one of our own
  // on the management queue of the card it is meant for.
  lemma ArrivalWaits(s: Flow, i: nat, card: nat, packet: Packet)
    requires Good(s) && IsCard(card) && i < |s.places[HELD]|
    ensures var t, b := Next(s, Arrive(i, card, packet)), s.places[HELD][i];
      t.places[card] == s.places[card] + [b] && Content(t, b) == packet
    ensures var t, b := Next(s, QueueMgmt(i, card, packet)), s.places[HELD][i];
      t.places[Mgmt(card)] == s.places[Mgmt(card)] + [b] && Content(t, b) == packet
  {
    HeldExists(s, i);
  }

  lemma HeldExists(s: Flow, i: nat)
    requires Good(s) && i < |s.places[HELD]|
    ensures s.places[HELD][i] < |s.content|
  {
    var b := s.places[HELD][i];
    TotalUpdate(s.places, HELD, [], b);
    OccursIffIn(s.places[HELD], b);
  }

  // Everything but places `p` and `q` is the same.
  predicate MovedOne(s: Flow, t: Flow, p: nat, i: nat, q: nat)
    requires Shaped(s) && Shaped(t) && p < PLACES && q < PLACES && i < |s.places[p]|
  {
    && t.content == s.content && t.places[p] == Without(s.places[p], i) && t.places[q] == s.places[q] + [s.places[p][i]]
    && forall r {:trigger t.places[r]} :: 0 <= r < PLACES && r != p && r != q ==> t.places[r] == s.places[r]
  }

  // An allocation takes the buffer freed last; a packet taken from the protocol stack's
  // queue is the first one; a buffer that is released, or has been sent, is free again.
  lemma OtherMoves(s: Flow, i: nat, card: nat)
    requires Good(s)
    ensures |s.places[FREE]| > BUFFER_POOL_OVERHEAD ==> MovedOne(s, Next(s, Alloc), FREE, |s.places[FREE]| - 1, HELD)
    ensures s.places[FREE] != [] ==> MovedOne(s, Next(s, AllocMgmt), FREE, |s.places[FREE]| - 1, HELD)
    ensures s.places[PROTOCOL] != [] ==> MovedOne(s, Next(s, TakeLocal), PROTOCOL, 0, HELD)
    ensures i < |s.places[HELD]| ==> MovedOne(s, Next(s, Release(i)), HELD, i, FREE)
    ensures IsCard(card) && i < |s.places[Flight(card)]| ==>
      MovedOne(s, Next(s, SendDone(i, card)), Flight(card), i, FREE)
  {
    if i < |s.places[HELD]| {
      FreeKeeps(s, HELD, i);
    }
    if IsCard(card) && i < |s.places[Flight(card)]| {
      FreeKeeps(s, Flight(card), i);
    }
  }

  // ----- What is sent

  // The step hands a buffer to `card` to be sent: the first of the packets of our
  // own, or the first packet from the other card if the policy lets it through.
  predicate Sends(s: Flow, step: Step, card: nat)
    requires Shaped(s) && IsCard(card)
  {
    || (step == SendMgmt(card) && s.places[Mgmt(card)] != [])
    || (step == Forward(Other(card), Transmitted) && s.places[Other(card)] != [])
  }

  function SentBuffer(s: Flow, step: Step, card: nat): nat
    requires Shaped(s) && IsCard(card) && Sends(s, step, card)
  {
    if step.SendMgmt? then s.places[Mgmt(card)][0] else s.places[Other(card)][0]
  }

  // A buffer gets on a card's wire by such a step and by no other, and leaves it only
  // when its transmission has ended.
  lemma OnlySendsSend(s: Flow, step: Step, card: nat)
    requires Good(s) && IsCard(card)
    ensures var t := Next(s, step); var before, after := s.places[Flight(card)], t.places[Flight(card)];
      if Sends(s, step, card) then after == before + [SentBuffer(s, step, card)]
      else if step.SendDone? && step.card == card && step.i < |before| then after == Without(before, step.i)
      else after == before
  {
    match step
    case Forward(from, verdict) =>
      if IsCard(from) && s.places[from] != [] {
        ForwardPlaces(s, from, verdict);
      }
    case SendDone(i, to) =>
      if IsCard(to) && i < |s.places[Flight(to)]| {
        FreeKeeps(s, Flight(to), i);
      }
    case Release(i) =>
      if i < |s.places[HELD]| {
        FreeKeeps(s, HELD, i);
      }
    case _ =>
  }

  // ----- Whole runs

  // How often a log says that packet `x` left with verdict `v`.
  function Logged(log: seq<(Packet, Verdict)>, x: Packet, v: Verdict): nat {
    if log == [] then 0 else (if log[|log| - 1] == (x, v) then 1 else 0) + Logged(log[..|log| - 1], x, v)
  }

  lemma LoggedOnce(log: seq<(Packet, Verdict)>, packet: Packet, verdict: Verdict, x: Packet, v: Verdict)
    ensures Logged(log + [(packet, verdict)], x, v) == Logged(log, x, v) + if (packet, verdict) == (x, v) then 1 else 0
  {
    assert (log + [(packet, verdict)])[..|log|] == log;
  }

  // Packets `x` that the policy let through to `card`, and packets `x` of our own.
  function LetOut(s: Flow, card: nat, x: Packet): nat
    requires Shaped(s) && IsCard(card)
  {
    Logged(s.departed[Other(card)], x, Transmitted) + Logged(s.departed[Mgmt(card)], x, Transmitted)
  }

  // From `s` to `t` a buffer that holds packet `x` is appended to those being sent.
  function OneOnWire(s: Flow, t: Flow, card: nat, x: Packet): nat
    requires Shaped(s) && Shaped(t) && IsCard(card)
  {
    var wire := t.places[Flight(card)];
    if |wire| > |s.places[Flight(card)]| && Content(t, wire[|wire| - 1]) == x then 1 else 0
  }

  // How often a run puts packet `x` on the wire of `card`.
  function PutOnWire(s: Flow, steps: seq<Step>, card: nat, x: Packet): nat
    requires Shaped(s) && IsCard(card)
    decreases |steps|
  {
    if steps == [] then 0
    else OneOnWire(s, Next(s, steps[0]), card, x) + PutOnWire(Next(s, steps[0]), steps[1..], card, x)
  }

  // What a step takes off the front of queue `q`, with its verdict, and logs there.
  function Departs(s: Flow, step: Step, q: nat): seq<(Packet, Verdict)>
    requires Shaped(s) && IsQueue(q)
  {
    if s.places[q] == [] then []
    else if step.Forward? && step.card == q && IsCard(q) then [(Content(s, s.places[q][0]), step.verdict)]
    else if step.SendMgmt? && IsCard(step.card) && Mgmt(step.card) == q then
      [(Content(s, s.places[q][0]), Transmitted)]
    else if step.TakeLocal? && q == PROTOCOL then [(Content(s, s.places[q][0]), Local)]
    else []
  }

  lemma LogGrows(s: Flow, step: Step, q: nat)
    requires Good(s) && IsQueue(q)
    ensures Next(s, step).departed[q] == s.departed[q] + Departs(s, step, q)
  {
    match step
    case Forward(from, verdict) =>
      if IsCard(from) && s.places[from] != [] && verdict == Filtered {
        FreeKeeps(s, from, 0);
      }
    case _ =>
  }

  // The logs of the two queues that feed a wire.
  lemma LogsGrow(s: Flow, step: Step, card: nat, x: Packet)
    requires Good(s) && IsCard(card)
    ensures LetOut(Next(s, step), card, x) == LetOut(s, card, x) +
      if Sends(s, step, card) && Content(s, SentBuffer(s, step, card)) == x then 1 else 0
  {
    LoggedMore(s, step, Other(card), x, Transmitted);
    LoggedMore(s, step, Mgmt(card), x, Transmitted);
  }

  lemma LoggedMore(s: Flow, step: Step, q: nat, x: Packet, v: Verdict)
    requires Good(s) && IsQueue(q)
    ensures Logged(Next(s, step).departed[q], x, v) == Logged(s.departed[q], x, v) +
      if Departs(s, step, q) == [(x, v)] then 1 else 0
  {
    LogGrows(s, step, q);
    if Departs(s, step, q) != [] {
      var (packet, verdict) := Departs(s, step, q)[0];
      assert Departs(s, step, q) == [(packet, verdict)];
      LoggedOnce(s.departed[q], packet, verdict, x, v);
    } else {
      assert s.departed[q] + [] == s.departed[q];
    }
  }

  lemma StepIsLogged(s: Flow, step: Step, card: nat, x: Packet)
    requires Good(s) && IsCard(card)
    ensures LetOut(Next(s, step), card, x) == LetOut(s, card, x) + OneOnWire(s, Next(s, step), card, x)
  {
    LogsGrow(s, step, card, x);
    OnlySendsSend(s, step, card);
    if Sends(s, step, card) {
      SentUnchanged(s, step, card);
    }
  }

  lemma SentUnchanged(s: Flow, step: Step, card: nat)
    requires Good(s) && IsCard(card) && Sends(s, step, card)
    ensures Next(s, step).content == s.content
  {
    if step.Forward? {
      ForwardPlaces(s, Other(card), Transmitted);
    }
  }

  lemma FirstStep(s: Flow, steps: seq<Step>, card: nat, x: Packet) returns (t: Flow)
    requires Good(s) && IsCard(card) && steps != []
    ensures Good(t) && Run(s, steps) == Run(t, steps[1..])
    ensures LetOut(t, card, x) + PutOnWire(t, steps[1..], card, x) ==
      LetOut(s, card, x) + PutOnWire(s, steps, card, x)
  {
    t := Next(s, steps[0]);
    StepIsLogged(s, steps[0], card, x);
    NextKeeps(s, steps[0]);
  }

  lemma {:induction false} RunIsLogged(s: Flow, steps: seq<Step>, card: nat, x: Packet)
    requires Good(s) && IsCard(card)
    ensures LetOut(Run(s, steps), card, x) == LetOut(s, card, x) + PutOnWire(s, steps, card, x)
    decreases |steps|
  {
    if steps != [] {
      var t := FirstStep(s, steps, card, x);
      RunIsLogged(t, steps[1..], card, x);
    }
  }

  // Over every run, however the threads interleave: a packet has been put on a card's
  // wire exactly as often as the policy let it through from the other card or it was
  // sent as one of our own. A filtered packet never is.
  lemma OnlyLetThroughIsSent(n: nat, steps: seq<Step>, card: nat, x: Packet)
    requires IsCard(card)
    ensures PutOnWire(Initial(n), steps, card, x) == LetOut(Run(Initial(n), steps), card, x)
  {
    InitialGood(n);
    RunIsLogged(Initial(n), steps, card, x);
  }

  function Times(q: seq<Packet>, x: Packet): nat {
    if q == [] then 0 else (if q[|q| - 1] == x then 1 else 0) + Times(q[..|q| - 1], x)
  }

  lemma TimesOnce(q: seq<Packet>, packet: Packet, x: Packet)
    ensures Times(q + [packet], x) == Times(q, x) + if packet == x then 1 else 0
  {
    assert (q + [packet])[..|q|] == q;
  }

  // The packets handed to the protocol stack are those addressed to the bridge.
  function ForBridge(s: Flow, x: Packet): nat
    requires Shaped(s)
  {
    Logged(s.departed[CAMPUS], x, Local) + Logged(s.departed[INTERNET], x, Local)
  }

  lemma StepDelivers(s: Flow, step: Step, x: Packet)
    requires Good(s)
    ensures var t := Next(s, step);
      Times(t.arrived[PROTOCOL], x) + ForBridge(s, x) == Times(s.arrived[PROTOCOL], x) + ForBridge(t, x)
  {
    LoggedMore(s, step, CAMPUS, x, Local);
    LoggedMore(s, step, INTERNET, x, Local);
    Delivered(s, step, x);
  }

  lemma Delivered(s: Flow, step: Step, x: Packet)
    requires Good(s)
    ensures Times(Next(s, step).arrived[PROTOCOL], x) == Times(s.arrived[PROTOCOL], x) +
      if Departs(s, step, CAMPUS) == [(x, Local)] || Departs(s, step, INTERNET) == [(x, Local)] then 1 else 0
  {
    if step.Forward? && IsCard(step.card) && s.places[step.card] != [] {
      TimesOnce(s.arrived[PROTOCOL], Content(s, s.places[step.card][0]), x);
    }
  }

  lemma {:induction false} RunDelivers(s: Flow, steps: seq<Step>, x: Packet)
    requires Good(s)
    ensures var t := Run(s, steps);
      Times(t.arrived[PROTOCOL], x) + ForBridge(s, x) == Times(s.arrived[PROTOCOL], x) + ForBridge(t, x)
    decreases |steps|
  {
    if steps != [] {
      StepDelivers(s, steps[0], x);
      NextKeeps(s, steps[0]);
      RunDelivers(Next(s, steps[0]), steps[1..], x);
    }
  }

  // Over every run the protocol stack gets each packet as often as one that arrived on
  // a card was found to be for the bridge itself.
  lemma OnlyLocalIsDelivered(n: nat, steps: seq<Step>, x: Packet)
    ensures var t := Run(Initial(n), steps);
      Times(t.arrived[PROTOCOL], x) ==
        Logged(t.departed[CAMPUS], x, Local) + Logged(t.departed[INTERNET], x, Local)
  {
    InitialGood(n);
    RunDelivers(Initial(n), steps, x);
  }
}
