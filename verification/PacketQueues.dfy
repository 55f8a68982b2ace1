// The linked packet queues, the free stack, and the loop that serves one card.
module PacketQueues {
  import L = LinearProbing
  import opened PacketFates
  import opened PacketFlow

  class PktBuf {
    const handle: nat
    var nextLink: PktBuf?
    var prevLink: PktBuf?

    constructor (handle: nat)
      ensures this.handle == handle && nextLink == null && prevLink == null
    {
      this.handle := handle;
      nextLink, prevLink := null, null;
    }
  }

  class Queue {
    var head: PktBuf?
    var tail: PktBuf?
    ghost var contents: seq<PktBuf>
    ghost var repr: set<PktBuf>

    // Both chains of links spell out the contents.
    ghost predicate Valid()
      reads this, repr
    {
      && (forall i {:trigger contents[i]} :: 0 <= i < |contents| ==> contents[i] in repr)
      && (contents == [] ==> head == null && tail == null)
      && (contents != [] ==> head == contents[0] && tail == contents[|contents| - 1])
      && (forall i, j :: 0 <= i < j < |contents| ==> contents[i] != contents[j])
      && (forall i {:trigger contents[i].nextLink} :: 0 <= i < |contents| ==>
            contents[i].nextLink == if i + 1 < |contents| then contents[i + 1] else null)
      && (forall i {:trigger contents[i].prevLink} :: 0 <= i < |contents| ==>
            contents[i].prevLink == if i > 0 then contents[i - 1] else null)
    }

    constructor ()
      ensures Valid() && contents == [] && repr == {}
    {
      head, tail, contents, repr := null, null, [], {};
    }

    method EnqueuePktBuf(pktBuf: PktBuf)
      requires Valid() && pktBuf !in repr
      modifies this, pktBuf, if tail == null then {} else {tail}
      ensures Valid() && contents == old(contents) + [pktBuf] && repr == old(repr) + {pktBuf}
    {
      var last := tail;
      if last == null {
        head := pktBuf;
        tail := pktBuf;
        pktBuf.nextLink := null;
        pktBuf.prevLink := null;
      } else {
        tail := pktBuf;
        last.nextLink := pktBuf;
        pktBuf.prevLink := last;
        pktBuf.nextLink := null;
      }
      ghost var was := contents;
      contents := contents + [pktBuf];
      repr := repr + {pktBuf};
      forall i | 0 <= i < |contents|
        ensures contents[i].nextLink == (if i + 1 < |contents| then contents[i + 1] else null)
        ensures contents[i].prevLink == (if i > 0 then contents[i - 1] else null)
      {
        if i < |was| {
          assert contents[i] == was[i] && was[i] != pktBuf;
          assert i < |was| - 1 ==> was[i] != last;
        }
      }
    }

    // `pktBuf` must be the head: the code stops the program otherwise.
    method DequeuePktBuf(pktBuf: PktBuf) returns (r: PktBuf)
      requires Valid() && head == pktBuf
      modifies this, repr
      ensures Valid() && r == pktBuf && r == old(contents)[0] && contents == old(contents)[1..]
      ensures repr == old(repr) - {r} && r in old(repr)
      ensures r.nextLink == null && r.prevLink == null
    {
      assert pktBuf == contents[0];
      var first := head;
      if first.nextLink == null {
        head := null;
        tail := null;
      } else {
        assert first.nextLink == contents[1];
        head := pktBuf.nextLink;
        head.prevLink := null;
      }
      contents := contents[1..];
      repr := repr - {pktBuf};
      pktBuf.nextLink := null;
      pktBuf.prevLink := null;
      return pktBuf;
    }
  }

  class BufferPool {
    const freePktBufs: array<nat>
    var freePktBufPtr: int

    ghost predicate Valid()
      reads this
    {
      -1 <= freePktBufPtr < freePktBufs.Length
    }

    // The free stack, top last.
    ghost function Free(): seq<nat>
      reads this, freePktBufs
      requires Valid()
    {
      freePktBufs[..freePktBufPtr + 1]
    }

    // initQueue: `numBuffers` as configured.
    constructor (numBuffers: nat)
      ensures Valid() && fresh(freePktBufs) && freePktBufs.Length == numBuffers + BUFFER_POOL_OVERHEAD
      ensures Free() == Initial(numBuffers + BUFFER_POOL_OVERHEAD).places[FREE]
    {
      freePktBufs := new nat[numBuffers + BUFFER_POOL_OVERHEAD](i => i);
      freePktBufPtr := numBuffers + BUFFER_POOL_OVERHEAD - 1;
    }

    // Returns whether there was room; the code stops the program otherwise.
    method FreePktBuf(buf: nat) returns (ok: bool)
      requires Valid()
      modifies this`freePktBufPtr, freePktBufs
      ensures Valid() && ok == (|old(Free())| < freePktBufs.Length)
      ensures Free() == if ok then old(Free()) + [buf] else old(Free())
    {
      if freePktBufPtr == freePktBufs.Length - 1 {
        return false;
      }
      freePktBufPtr := freePktBufPtr + 1;
      freePktBufs[freePktBufPtr] := buf;
      return true;
    }

    method AllocPktBufMgmt() returns (buf: L.Option<nat>)
      requires Valid()
      modifies this`freePktBufPtr
      ensures Valid() && (buf.Some? <==> old(Free()) != [])
      ensures old(Free()) == if buf.Some? then Free() + [buf.value] else Free()
    {
      if freePktBufPtr < 0 {
        return L.None;
      }
      buf := L.Some(freePktBufs[freePktBufPtr]);
      freePktBufPtr := freePktBufPtr - 1;
    }

    method AllocPktBuf() returns (buf: L.Option<nat>)
      requires Valid()
      modifies this`freePktBufPtr
      ensures Valid() && (buf.Some? <==> |old(Free())| > BUFFER_POOL_OVERHEAD)
      ensures old(Free()) == if buf.Some? then Free() + [buf.value] else Free()
    {
      if freePktBufPtr < BUFFER_POOL_OVERHEAD {
        return L.None;
      }
      buf := L.Some(freePktBufs[freePktBufPtr]);
      freePktBufPtr := freePktBufPtr - 1;
    }
  }

  // ----- Serving a card

  // What is to become of a packet: `listen && checkLocal`, then `checkFunction`.
  type Judge = Packet -> Verdict

  // Answers to a question asked over and over while interrupts go on.
  type Answers = nat -> bool

  // checkCard's first loop: `room(k)` says whether the k-th test found fewer sends
  // pending than allowed.
  function SendWaiting(s: Flow, toCard: nat, room: Answers, k: nat): (t: Flow)
    requires Shaped(s) && IsCard(toCard)
    ensures Shaped(t)
    decreases |s.places[Mgmt(toCard)]|
  {
    if s.places[Mgmt(toCard)] == [] || !room(k) then s
    else SendWaiting(Next(s, SendMgmt(toCard)), toCard, room, k + 1)
  }

  // What the loop does with the first packet: a step of the main thread.
  function ForwardFirst(s: Flow, fromCard: nat, judge: Judge): (t: Flow)
    requires Shaped(s) && IsCard(fromCard) && s.places[fromCard] != []
    ensures Shaped(t) && t == Next(s, Forward(fromCard, judge(Content(s, s.places[fromCard][0]))))
  {
    ForwardFrom(s, fromCard, judge(Content(s, s.places[fromCard][0])))
  }

  // checkCard's second loop: `stop(k)` says whether the k-th test left the loop.
  function ForwardAll(s: Flow, fromCard: nat, judge: Judge, stop: Answers, k: nat): (t: Flow)
    requires Good(s) && IsCard(fromCard)
    ensures Good(t)
    decreases |s.places[fromCard]|
  {
    if s.places[fromCard] == [] || stop(k) then s
    else
      ForwardKeeps(s, fromCard, judge(Content(s, s.places[fromCard][0])));
      ForwardShortens(s, fromCard, judge(Content(s, s.places[fromCard][0])));
      ForwardAll(ForwardFirst(s, fromCard, judge), fromCard, judge, stop, k + 1)
  }

  lemma ForwardShortens(s: Flow, card: nat, verdict: Verdict)
    requires Good(s) && IsCard(card) && s.places[card] != []
    ensures ForwardFrom(s, card, verdict).places[card] == s.places[card][1..]
    ensures ForwardFrom(s, card, verdict).content == s.content
  {
    if verdict.Filtered? {
      FreeKeeps(s, card, 0);
    }
  }

  // The first `m` packets waiting on a card, with the judge's verdicts.
  function Judged(s: Flow, card: nat, judge: Judge, m: nat): seq<(Packet, Verdict)>
    requires Shaped(s) && IsCard(card) && m <= |s.places[card]|
  {
    seq(m, i requires 0 <= i < m => (Content(s, s.places[card][i]), judge(Content(s, s.places[card][i]))))
  }

  // How many packets the loop handles: those before the first test that stops it.
  function Handled(n: nat, stop: Answers, k: nat): (m: nat)
    ensures m <= n && (m < n ==> stop(k + m))
    ensures forall j {:trigger stop(j)} :: k <= j < k + m ==> !stop(j)
    decreases n
  {
    if n == 0 || stop(k) then 0 else 1 + Handled(n - 1, stop, k + 1)
  }

  // The buffers among `h` whose packets the judge gives verdict `v`, in order.
  function Picked(s: Flow, h: seq<nat>, judge: Judge, v: Verdict): seq<nat> {
    if h == [] then []
    else Picked(s, h[..|h| - 1], judge, v) + if judge(Content(s, h[|h| - 1])) == v then [h[|h| - 1]] else []
  }

  lemma {:induction false} PickedAppends(s: Flow, g: seq<nat>, h: seq<nat>, judge: Judge, v: Verdict)
    ensures Picked(s, g + h, judge, v) == Picked(s, g, judge, v) + Picked(s, h, judge, v)
    decreases |h|
  {
    if h == [] {
      assert g + h == g;
    } else {
      assert (g + h)[..|g + h| - 1] == g + h[..|h| - 1];
      PickedAppends(s, g, h[..|h| - 1], judge, v);
    }
  }

  lemma {:induction false} PickedAlike(s: Flow, u: Flow, h: seq<nat>, judge: Judge, v: Verdict)
    requires s.content == u.content
    ensures Picked(s, h, judge, v) == Picked(u, h, judge, v)
    decreases |h|
  {
    if h != [] {
      PickedAlike(s, u, h[..|h| - 1], judge, v);
    }
  }

  // From `s` to `t` the first `m` packets waiting on a card have been dealt with, in
  // order, each as the judge says of its content: the buffers of the local ones have
  // gone to the protocol stack, of the transmitted ones to the other card, and of the
  // filtered ones back to the free stack, and nothing else has moved.
  ghost predicate Followed(s: Flow, t: Flow, card: nat, judge: Judge, m: nat)
    requires Shaped(s) && Shaped(t) && IsCard(card)
  {
    && m <= |s.places[card]| && t.places[card] == s.places[card][m..] && t.content == s.content
    && t.departed[card] == s.departed[card] + Judged(s, card, judge, m)
    && Gained(s, t, PROTOCOL, card, judge, m, Local)
    && Gained(s, t, Flight(Other(card)), card, judge, m, Transmitted)
    && Gained(s, t, FREE, card, judge, m, Filtered)
    && forall p {:trigger t.places[p]} ::
         0 <= p < PLACES && p !in {card, PROTOCOL, Flight(Other(card)), FREE} ==> t.places[p] == s.places[p]
  }

  predicate Gained(s: Flow, t: Flow, p: nat, card: nat, judge: Judge, m: nat, v: Verdict)
    requires Shaped(s) && Shaped(t) && p < PLACES && IsCard(card) && m <= |s.places[card]|
  {
    t.places[p] == s.places[p] + Picked(s, s.places[card][..m], judge, v)
  }

  lemma GainedMore(s: Flow, u: Flow, t: Flow, p: nat, card: nat, judge: Judge, m: nat, v: Verdict)
    requires Shaped(s) && Shaped(u) && Shaped(t) && p < PLACES && IsCard(card) && s.content == u.content
    requires s.places[card] != [] && u.places[card] == s.places[card][1..] && m <= |u.places[card]|
    requires Gained(s, u, p, card, judge, 1, v) && Gained(u, t, p, card, judge, m, v)
    ensures Gained(s, t, p, card, judge, m + 1, v)
  {
    var q := s.places[card];
    PickedAlike(s, u, q[1..][..m], judge, v);
    PickedAppends(s, q[..1], q[1..][..m], judge, v);
    assert q[..1] + q[1..][..m] == q[..m + 1];
  }

  // So have all that the loop handles from its `k`th round on.
  ghost predicate AllFollowed(s: Flow, t: Flow, card: nat, judge: Judge, stop: Answers, k: nat)
    requires Shaped(s) && Shaped(t) && IsCard(card)
  {
    Followed(s, t, card, judge, Handled(|s.places[card]|, stop, k))
  }

  lemma NoneJudged(s: Flow, card: nat, judge: Judge)
    requires Shaped(s) && IsCard(card)
    ensures s.departed[card] + Judged(s, card, judge, 0) == s.departed[card] && s.places[card][0..] == s.places[card]
  {
    assert Judged(s, card, judge, 0) == [];
  }

  lemma NoneFollowed(s: Flow, card: nat, judge: Judge, stop: Answers, k: nat)
    requires Shaped(s) && IsCard(card) && (s.places[card] == [] || stop(k))
    ensures AllFollowed(s, s, card, judge, stop, k)
  {
    assert Handled(|s.places[card]|, stop, k) == 0;
    NoneJudged(s, card, judge);
  }

  lemma OneFollowed(s: Flow, u: Flow, card: nat, judge: Judge)
    requires Good(s) && IsCard(card) && s.places[card] != []
    requires u == Next(s, Forward(card, judge(Content(s, s.places[card][0]))))
    ensures Followed(s, u, card, judge, 1)
  {
    var verdict := judge(Content(s, s.places[card][0]));
    ForwardPlaces(s, card, verdict);
    ForwardKeeps(s, card, verdict);
    var h := s.places[card][..1];
    assert h == [s.places[card][0]] && h[..0] == [];
    assert forall v :: Picked(s, h, judge, v) == if v == verdict then h else [];
  }

  lemma OneMore(s: Flow, u: Flow, t: Flow, card: nat, judge: Judge, stop: Answers, k: nat)
    requires Shaped(s) && Shaped(u) && Shaped(t) && IsCard(card)
    requires s.places[card] != [] && !stop(k) && Followed(s, u, card, judge, 1)
    requires AllFollowed(u, t, card, judge, stop, k + 1)
    ensures AllFollowed(s, t, card, judge, stop, k)
  {
    assert |u.places[card]| == |s.places[card]| - 1;
    var m := Handled(|u.places[card]|, stop, k + 1);
    GainedMore(s, u, t, PROTOCOL, card, judge, m, Local);
    GainedMore(s, u, t, Flight(Other(card)), card, judge, m, Transmitted);
    GainedMore(s, u, t, FREE, card, judge, m, Filtered);
  }

  // One round of the loop, to `u`, and all of it, to `t`.
  lemma ForwardAllStep(s: Flow, fromCard: nat, judge: Judge, stop: Answers, k: nat) returns (u: Flow, t: Flow)
    requires Good(s) && IsCard(fromCard) && s.places[fromCard] != [] && !stop(k)
    ensures Good(u) && u.content == s.content && |u.places[fromCard]| == |s.places[fromCard]| - 1
    ensures t == ForwardAll(s, fromCard, judge, stop, k) == ForwardAll(u, fromCard, judge, stop, k + 1)
    ensures Followed(s, u, fromCard, judge, 1)
  {
    var verdict := judge(Content(s, s.places[fromCard][0]));
    ForwardKeeps(s, fromCard, verdict);
    ForwardShortens(s, fromCard, verdict);
    u := ForwardFrom(s, fromCard, verdict);
    t := ForwardAll(u, fromCard, judge, stop, k + 1);
    OneFollowed(s, u, fromCard, judge);
  }

  // The loop takes the waiting packets in order, up to where it stops, and does with
  // each exactly what the judge says of that packet's content.
  lemma {:induction false} ForwardAllFollowsJudge(s: Flow, fromCard: nat, judge: Judge, stop: Answers, k: nat)
    requires Good(s) && IsCard(fromCard)
    ensures AllFollowed(s, ForwardAll(s, fromCard, judge, stop, k), fromCard, judge, stop, k)
    decreases |s.places[fromCard]|
  {
    if s.places[fromCard] == [] || stop(k) {
      NoneFollowed(s, fromCard, judge, stop, k);
    } else {
      var u, t := ForwardAllStep(s, fromCard, judge, stop, k);
      ForwardAllFollowsJudge(u, fromCard, judge, stop, k + 1);
      OneMore(s, u, t, fromCard, judge, stop, k);
    }
  }

  // ----- What the first loop does

  // Everything but the two places is the same.
  predicate SameElsewhere(s: Flow, t: Flow, p: nat, q: nat)
    requires Shaped(s) && Shaped(t)
  {
    && t.content == s.content
    && forall k {:trigger t.places[k]} :: 0 <= k < PLACES && k != p && k != q ==> t.places[k] == s.places[k]
  }

  predicate SentOn(s: Flow, t: Flow, toCard: nat, m: nat)
    requires Shaped(s) && Shaped(t) && IsCard(toCard)
  {
    && m <= |s.places[Mgmt(toCard)]| && SameElsewhere(s, t, Mgmt(toCard), Flight(toCard))
    && t.places[Mgmt(toCard)] == s.places[Mgmt(toCard)][m..]
    && t.places[Flight(toCard)] == s.places[Flight(toCard)] + s.places[Mgmt(toCard)][..m]
  }

  lemma OneSent(s: Flow, u: Flow, t: Flow, toCard: nat, m: nat)
    requires Shaped(s) && Shaped(u) && Shaped(t) && IsCard(toCard) && s.places[Mgmt(toCard)] != []
    requires SentOn(s, u, toCard, 1) && SentOn(u, t, toCard, m)
    ensures SentOn(s, t, toCard, m + 1)
  {
    var q := s.places[Mgmt(toCard)];
    assert q[..m + 1] == q[..1] + q[1..][..m];
  }

  // How many packets there is room for: those before the first test that finds none.
  function Room(n: nat, room: Answers, k: nat): (m: nat)
    ensures m <= n && (m < n ==> !room(k + m))
    ensures forall j {:trigger room(j)} :: k <= j < k + m ==> room(j)
    decreases n
  {
    if n == 0 || !room(k) then 0 else 1 + Room(n - 1, room, k + 1)
  }

  lemma SendOne(s: Flow, toCard: nat) returns (u: Flow)
    requires Shaped(s) && IsCard(toCard) && s.places[Mgmt(toCard)] != []
    ensures Shaped(u) && u == Next(s, SendMgmt(toCard)) && SentOn(s, u, toCard, 1)
    ensures |u.places[Mgmt(toCard)]| == |s.places[Mgmt(toCard)]| - 1
  {
    u := Next(s, SendMgmt(toCard));
    assert u.places[Mgmt(toCard)] == s.places[Mgmt(toCard)][1..];
  }

  // Waiting management packets are sent in order, as many as there is room for.
  lemma {:induction false} SendWaitingSends(s: Flow, toCard: nat, room: Answers, k: nat)
    requires Shaped(s) && IsCard(toCard)
    ensures SentOn(s, SendWaiting(s, toCard, room, k), toCard, Room(|s.places[Mgmt(toCard)]|, room, k))
    decreases |s.places[Mgmt(toCard)]|
  {
    if s.places[Mgmt(toCard)] != [] && room(k) {
      var u := SendOne(s, toCard);
      SendWaitingSends(u, toCard, room, k + 1);
      OneSent(s, u, SendWaiting(u, toCard, room, k + 1), toCard, Room(|u.places[Mgmt(toCard)]|, room, k + 1));
    }
  }

  // ----- The code

  const DWORD: nat := 0x1_0000_0000

  function Handles(contents: seq<PktBuf>): (r: seq<nat>)
    ensures |r| == |contents| && forall i {:trigger r[i]} :: 0 <= i < |r| ==> r[i] == contents[i].handle
  {
    seq(|contents|, i requires 0 <= i < |contents| => contents[i].handle)
  }

  lemma BufferExists(s: Flow, p: nat, b: nat)
    requires Good(s) && p < PLACES && b in s.places[p]
    ensures b < |s.content|
  {
    TotalUpdate(s.places, p, [], b);
    OccursIffIn(s.places[p], b);
  }

  // Three 32-bit counters tell what became of the packets of a log.
  predicate Tallies(received: nat, transmitted: nat, filtered: nat, log: seq<(Packet, Verdict)>) {
    && received == |log| % DWORD
    && transmitted == Count(log, Transmitted) % DWORD
    && filtered == Count(log, Filtered) % DWORD
  }

  lemma Wraps(x: nat, n: nat)
    ensures (x % DWORD + n) % DWORD == (x + n) % DWORD
  {
    var q, r := x / DWORD, x % DWORD;
    var p, m := (r + n) / DWORD, (r + n) % DWORD;
    assert x + n == DWORD * (q + p) + m;
    Remainder(x + n, q + p, m);
  }

  lemma Remainder(x: int, q: int, r: int)
    requires x == DWORD * q + r && 0 <= r < DWORD
    ensures x % DWORD == r
  {
  }

  lemma OneTallied(received: nat, transmitted: nat, filtered: nat, log: seq<(Packet, Verdict)>,
      packet: Packet, verdict: Verdict)
    requires Tallies(received, transmitted, filtered, log)
    ensures Tallies((received + 1) % DWORD, if verdict == Transmitted then (transmitted + 1) % DWORD else transmitted,
              if verdict == Filtered then (filtered + 1) % DWORD else filtered, log + [(packet, verdict)])
  {
    CountAppend(log, packet, verdict);
    Wraps(|log|, 1);
    Wraps(Count(log, Transmitted), 1);
    Wraps(Count(log, Filtered), 1);
  }

  // They balance: received is transmitted, filtered and delivered locally.
  lemma TalliesBalance(received: nat, transmitted: nat, filtered: nat, log: seq<(Packet, Verdict)>)
    requires Tallies(received, transmitted, filtered, log)
    ensures received == (transmitted + filtered + Count(log, Local)) % DWORD
  {
    var a, b, c := Count(log, Transmitted), Count(log, Filtered), Count(log, Local);
    CountsAddUp(log);
    Wraps(a, filtered + c);
    Wraps(b, a + c);
  }

  // The first buffer of place `p` is off it and nowhere else yet.
  function Lifted(s: Flow, p: nat): (t: Flow)
    requires Shaped(s) && p < PLACES && s.places[p] != []
    ensures Shaped(t)
  {
    s.(places := s.places[p := s.places[p][1..]])
  }

  class Cards {
    const queues: seq<Queue>        // of places CAMPUS to PROTOCOL
    const pool: BufferPool
    ghost const bufs: set<PktBuf>   // every packet buffer there is
    var content: seq<Packet>        // what each buffer holds
    var sending: map<nat, seq<nat>> // by card, the buffers handed to it to be sent
    var received: map<nat, nat>     // by the card packets came from, as are the others
    var transmitted: map<nat, nat>
    var filtered: map<nat, nat>
    ghost var flow: Flow

    // The queues are well linked and share no buffer.
    ghost predicate Linked()
      reads queues, bufs
    {
      && |queues| == PROTOCOL
      && (forall i, j :: 0 <= i < j < |queues| ==> queues[i] != queues[j] && queues[i].repr !! queues[j].repr)
      && (forall k {:trigger queues[k]} :: 0 <= k < |queues| ==> queues[k].repr <= bufs && queues[k].Valid())
    }

    // The free stack, the queues, what is being sent and the contents are those of `s`.
    ghost predicate Shows(s: Flow)
      reads this`content, this`sending, queues, bufs, pool, pool.freePktBufs
    {
      && Linked() && pool.Valid() && Shaped(s) && s.content == content && s.places[FREE] == pool.Free()
      && CAMPUS in sending && sending[CAMPUS] == s.places[Flight(CAMPUS)]
      && INTERNET in sending && sending[INTERNET] == s.places[Flight(INTERNET)]
      && forall k {:trigger queues[k]} :: 0 <= k < |queues| ==> s.places[k + 1] == Handles(queues[k].contents)
    }

    // The counters of one card, 32 bits wide, tell what became of its packets.
    ghost predicate Counted(card: nat)
      reads this
    {
      && card in received && card in transmitted && card in filtered && card < |flow.departed|
      && Tallies(received[card], transmitted[card], filtered[card], flow.departed[card])
    }

    ghost predicate Valid()
      reads this, queues, bufs, pool, pool.freePktBufs
    {
      && Shows(flow) && pool.freePktBufs.Length == |content| && Good(flow)
      && Counted(CAMPUS) && Counted(INTERNET)
    }

    static method EmptyQueues() returns (r: seq<Queue>)
      ensures |r| == PROTOCOL && fresh(r)
      ensures forall i, j :: 0 <= i < j < |r| ==> r[i] != r[j]
      ensures forall i {:trigger r[i]} :: 0 <= i < |r| ==> r[i].Valid() && r[i].contents == [] && r[i].repr == {}
    {
      r := [];
      while |r| < PROTOCOL
        invariant |r| <= PROTOCOL && fresh(r)
        invariant forall i, j :: 0 <= i < j < |r| ==> r[i] != r[j]
        invariant forall i {:trigger r[i]} :: 0 <= i < |r| ==> r[i].Valid() && r[i].contents == [] && r[i].repr == {}
      {
        var queue := new Queue();
        r := r + [queue];
      }
    }

    // initQueue.
    constructor (numBuffers: nat, ghost all: set<PktBuf>)
      ensures Valid() && bufs == all && flow == Initial(numBuffers + BUFFER_POOL_OVERHEAD)
    {
      InitialGood(numBuffers + BUFFER_POOL_OVERHEAD);
      var empty := EmptyQueues();
      queues, bufs := empty, all;
      pool := new BufferPool(numBuffers);
      content := seq(numBuffers + BUFFER_POOL_OVERHEAD, _ => 0);
      sending := map[CAMPUS := [], INTERNET := []];
      received := map[CAMPUS := 0, INTERNET := 0];
      transmitted := map[CAMPUS := 0, INTERNET := 0];
      filtered := map[CAMPUS := 0, INTERNET := 0];
      flow := Initial(numBuffers + BUFFER_POOL_OVERHEAD);
    }

    // Dequeue the first packet buffer of a queue.
    method Take(k: nat, ghost s: Flow) returns (buf: PktBuf)
      requires Shows(s) && k < |queues| && queues[k].contents != []
      modifies queues[k], queues[k].repr
      ensures Shows(Lifted(s, k + 1)) && buf in bufs && buf.handle == s.places[k + 1][0]
      ensures queues[k].repr == old(queues[k].repr) - {buf}
      ensures forall j {:trigger queues[j]} :: 0 <= j < |queues| ==> buf !in queues[j].repr
    {
      var queue := queues[k];
      buf := queue.DequeuePktBuf(queue.head);
    }

    method Enqueue(k: nat, buf: PktBuf)
      requires Linked() && k < |queues| && buf in bufs
      requires forall j {:trigger queues[j]} :: 0 <= j < |queues| ==> buf !in queues[j].repr
      modifies queues[k], queues[k].repr, buf
      ensures Linked() && queues[k].repr == old(queues[k].repr) + {buf}
      ensures queues[k].contents == old(queues[k].contents) + [buf]
      ensures forall j {:trigger queues[j]} ::
        0 <= j < |queues| && j != k ==> queues[j].contents == old(queues[j].contents)
    {
      var queue := queues[k];
      assert queue.tail != null ==> queue.contents[|queue.contents| - 1] in queue.repr;
      queue.EnqueuePktBuf(buf);
    }

    method Put(k: nat, buf: PktBuf, ghost s: Flow)
      requires Shows(s) && k < |queues| && buf in bufs
      requires forall j {:trigger queues[j]} :: 0 <= j < |queues| ==> buf !in queues[j].repr
      modifies queues[k], queues[k].repr, buf
      ensures Shows(s.(places := s.places[k + 1 := s.places[k + 1] + [buf.handle]]))
      ensures queues[k].repr == old(queues[k].repr) + {buf}
    {
      Enqueue(k, buf);
      assert Handles(queues[k].contents) == s.places[k + 1] + [buf.handle];
    }

    // Hand a buffer to a card, which frees it when it has been sent.
    method SendPacket(buf: PktBuf, card: nat)
      requires IsCard(card) && card in sending
      modifies this`sending
      ensures sending == old(sending)[card := old(sending[card]) + [buf.handle]]
    {
      sending := sending[card := sending[card] + [buf.handle]];
    }

    method SendFirst(toCard: nat)
      requires Shows(flow) && IsCard(toCard) && queues[Mgmt(toCard) - 1].contents != []
      modifies this`sending, queues, bufs
      ensures Shows(Next(flow, SendMgmt(toCard)))
    {
      var buf := Take(Mgmt(toCard) - 1, flow);
      HeadTaken(flow.places, Mgmt(toCard), Flight(toCard));
      SendPacket(buf, toCard);
    }

    // checkCard's first loop, once.
    method SendOneQueued(toCard: nat)
      requires Valid() && IsCard(toCard) && queues[Mgmt(toCard) - 1].contents != []
      modifies this`flow, this`sending, queues, bufs
      ensures Valid() && flow == Next(old(flow), SendMgmt(toCard))
      ensures |flow.places[Mgmt(toCard)]| < |old(flow).places[Mgmt(toCard)]|
    {
      NextKeeps(flow, SendMgmt(toCard));
      SendFirst(toCard);
      flow := Next(flow, SendMgmt(toCard));
    }

    method SendQueued(toCard: nat, room: Answers)
      requires Valid() && IsCard(toCard)
      modifies this`flow, this`sending, queues, bufs
      ensures Valid() && flow == SendWaiting(old(flow), toCard, room, 0)
      ensures SentOn(old(flow), flow, toCard, Room(|old(flow).places[Mgmt(toCard)]|, room, 0))
    {
      ghost var s := flow;
      var k := 0;
      while queues[Mgmt(toCard) - 1].head != null && room(k)
        invariant Valid() && SendWaiting(s, toCard, room, 0) == SendWaiting(flow, toCard, room, k)
        decreases |flow.places[Mgmt(toCard)]|
      {
        SendOneQueued(toCard);
        k := k + 1;
      }
      SendWaitingSends(s, toCard, room, 0);
    }

    // Deliver locally, transmit or free a buffer that is off its queue.
    method Dispose(fromCard: nat, buf: PktBuf, verdict: Verdict, ghost s: Flow)
      requires Shaped(s) && IsCard(fromCard) && s.places[fromCard] != [] && buf.handle == s.places[fromCard][0]
      requires Shows(Lifted(s, fromCard)) && buf in bufs
      requires forall j {:trigger queues[j]} :: 0 <= j < |queues| ==> buf !in queues[j].repr
      requires |s.places[FREE]| < pool.freePktBufs.Length == |s.content|
      modifies this`sending, pool`freePktBufPtr, pool.freePktBufs, queues, bufs
      ensures Shows(ForwardFrom(s, fromCard, verdict))
    {
      match verdict {
        case Local =>
          HeadTaken(s.places, fromCard, PROTOCOL);
          Put(PROTOCOL - 1, buf, Lifted(s, fromCard));
        case Transmitted =>
          HeadTaken(s.places, fromCard, Flight(Other(fromCard)));
          SendPacket(buf, Other(fromCard));
        case Filtered =>
          HeadTaken(s.places, fromCard, FREE);
          var ok := pool.FreePktBuf(buf.handle);
          assert ok;
      }
    }

    method Tally(fromCard: nat, ghost packet: Packet, verdict: Verdict)
      requires Counted(CAMPUS) && Counted(INTERNET) && IsCard(fromCard)
      modifies this`received, this`transmitted, this`filtered
      ensures |flow.departed| == PLACES ==> CountedWith(fromCard, packet, verdict, flow.departed)
    {
      ghost var log := flow.departed[fromCard];
      OneTallied(received[fromCard], transmitted[fromCard], filtered[fromCard], log, packet, verdict);
      ghost var other := flow.departed[if fromCard == CAMPUS then INTERNET else CAMPUS];
      assert other + [] == other;
      received := received[fromCard := (received[fromCard] + 1) % DWORD];
      if verdict == Transmitted {
        transmitted := transmitted[fromCard := (transmitted[fromCard] + 1) % DWORD];
      } else if verdict == Filtered {
        filtered := filtered[fromCard := (filtered[fromCard] + 1) % DWORD];
      }
    }

    // The counters with one more packet of `fromCard`.
    ghost predicate CountedWith(fromCard: nat, packet: Packet, verdict: Verdict, log: seq<seq<(Packet, Verdict)>>)
      requires |log| == PLACES
      reads this`received, this`transmitted, this`filtered
    {
      forall card: nat {:trigger IsCard(card)} :: IsCard(card) ==>
        && card in received && card in transmitted && card in filtered
        && Tallies(received[card], transmitted[card], filtered[card],
                   log[card] + if card == fromCard then [(packet, verdict)] else [])
    }

    // Dequeue the first packet of a card and decide on its content.
    method Examine(fromCard: nat, judge: Judge) returns (buf: PktBuf, verdict: Verdict)
      requires Shows(flow) && IsCard(fromCard) && flow.places[fromCard] != []
      requires flow.places[fromCard][0] < |content|
      modifies queues, queues[fromCard - 1].repr
      ensures Shows(Lifted(flow, fromCard)) && buf in bufs && buf.handle == flow.places[fromCard][0]
      ensures forall j {:trigger queues[j]} :: 0 <= j < |queues| ==> buf !in queues[j].repr
      ensures verdict == judge(Content(flow, flow.places[fromCard][0]))
    {
      assert queues[fromCard - 1].contents != [];
      buf := Take(fromCard - 1, flow);
      verdict := judge(content[buf.handle]);
    }

    // Dequeue, count, and deliver locally, transmit or free.
    method HandleFirst(fromCard: nat, judge: Judge) returns (verdict: Verdict)
      requires Shows(flow) && IsCard(fromCard) && flow.places[fromCard] != [] && Counted(CAMPUS) && Counted(INTERNET)
      requires flow.places[fromCard][0] < |content| && |flow.places[FREE]| < pool.freePktBufs.Length == |content|
      modifies this`received, this`transmitted, this`filtered, this`sending
      modifies pool`freePktBufPtr, pool.freePktBufs, queues, bufs
      ensures verdict == judge(Content(flow, flow.places[fromCard][0]))
      ensures Shows(ForwardFrom(flow, fromCard, verdict))
      ensures CountedWith(fromCard, Content(flow, flow.places[fromCard][0]), verdict, flow.departed)
    {
      ghost var s, packet := flow, Content(flow, flow.places[fromCard][0]);
      var buf, v := Examine(fromCard, judge);
      verdict := v;
      Tally(fromCard, packet, verdict);
      assert CountedWith(fromCard, packet, verdict, s.departed);
      assert Shows(Lifted(s, fromCard));
      Dispose(fromCard, buf, verdict, s);
    }

    method ForwardOne(fromCard: nat, judge: Judge)
      requires Valid() && IsCard(fromCard) && flow.places[fromCard] != []
      modifies this`flow, this`received, this`transmitted, this`filtered, this`sending
      modifies pool`freePktBufPtr, pool.freePktBufs, queues, bufs
      ensures Valid() && flow == ForwardFirst(old(flow), fromCard, judge)
      ensures |flow.places[fromCard]| < |old(flow).places[fromCard]|
    {
      ghost var s, packet := flow, Content(flow, flow.places[fromCard][0]);
      Forwarded(s, fromCard, judge(packet));
      var verdict := HandleFirst(fromCard, judge);
      flow := ForwardFirst(s, fromCard, judge);
      NowCounted(fromCard, packet, verdict, s);
    }

    method ForwardQueued(fromCard: nat, judge: Judge, stop: Answers)
      requires Valid() && IsCard(fromCard)
      modifies this`flow, this`received, this`transmitted, this`filtered, this`sending
      modifies pool`freePktBufPtr, pool.freePktBufs, queues, bufs
      ensures Valid() && Good(old(flow)) && flow == ForwardAll(old(flow), fromCard, judge, stop, 0)
      ensures AllFollowed(old(flow), flow, fromCard, judge, stop, 0)
    {
      ghost var s := flow;
      var k := 0;
      while queues[fromCard - 1].head != null
        invariant Valid() && ForwardAll(s, fromCard, judge, stop, 0) == ForwardAll(flow, fromCard, judge, stop, k)
        decreases |flow.places[fromCard]|
      {
        if stop(k) {
          break;
        }
        ForwardOne(fromCard, judge);
        k := k + 1;
      }
      ForwardAllFollowsJudge(s, fromCard, judge, stop, 0);
    }

    // checkCard for the packets of `fromCard`: first what waits to be sent on the card
    // they go to.
    method CheckCard(fromCard: nat, judge: Judge, room: Answers, stop: Answers)
      requires Valid() && IsCard(fromCard)
      modifies this`flow, this`received, this`transmitted, this`filtered, this`sending
      modifies pool`freePktBufPtr, pool.freePktBufs, queues, bufs
      ensures Valid() && Good(SendWaiting(old(flow), Other(fromCard), room, 0))
      ensures flow == ForwardAll(SendWaiting(old(flow), Other(fromCard), room, 0), fromCard, judge, stop, 0)
      ensures AllFollowed(SendWaiting(old(flow), Other(fromCard), room, 0), flow, fromCard, judge, stop, 0)
    {
      SendQueued(Other(fromCard), room);
      ForwardQueued(fromCard, judge, stop);
    }

    // Every packet a card has received is counted as transmitted or filtered, or was
    // delivered locally.
    lemma CountersBalance(card: nat)
      requires Counted(card)
      ensures received[card] == (transmitted[card] + filtered[card] + Count(flow.departed[card], Local)) % DWORD
    {
      TalliesBalance(received[card], transmitted[card], filtered[card], flow.departed[card]);
    }

    lemma NowCounted(fromCard: nat, packet: Packet, verdict: Verdict, s: Flow)
      requires IsCard(fromCard) && |flow.departed| == |s.departed| == PLACES
      requires flow.departed[fromCard] == s.departed[fromCard] + [(packet, verdict)]
      requires CountedWith(fromCard, packet, verdict, s.departed)
      requires forall card: nat :: IsCard(card) && card != fromCard ==> flow.departed[card] == s.departed[card]
      ensures Counted(CAMPUS) && Counted(INTERNET)
    {
      forall card: nat | IsCard(card)
        ensures Counted(card)
      {
        assert s.departed[card] + [] == s.departed[card];
      }
    }
  }

  // What a forwarding step does to the flow.
  lemma Forwarded(s: Flow, card: nat, verdict: Verdict)
    requires Good(s) && IsCard(card) && s.places[card] != []
    ensures |s.places[FREE]| < |s.content| && s.places[card][0] < |s.content|
    ensures var t := ForwardFrom(s, card, verdict);
      && Good(t) && t.places[card] == s.places[card][1..]
      && t.departed[card] == s.departed[card] + [(Content(s, s.places[card][0]), verdict)]
      && forall other: nat :: IsCard(other) && other != card ==> t.departed[other] == s.departed[other]
  {
    SizeAtLeast(s.places, FREE, card);
    BufferExists(s, card, s.places[card][0]);
    ForwardKeeps(s, card, verdict);
    ForwardShortens(s, card, verdict);
    OtherLogKept(s, card, verdict);
  }

  lemma {:induction false} CountAppend(log: seq<(Packet, Verdict)>, packet: Packet, verdict: Verdict)
    ensures forall v :: Count(log + [(packet, verdict)], v) == Count(log, v) + if verdict == v then 1 else 0
  {
    var x := (packet, verdict);
    if log == [] {
      assert (log + [x])[1..] == [];
    } else {
      assert (log + [x])[1..] == log[1..] + [x];
      CountAppend(log[1..], packet, verdict);
    }
  }

  lemma OtherLogKept(s: Flow, card: nat, verdict: Verdict)
    requires Good(s) && IsCard(card) && s.places[card] != []
    ensures forall other: nat :: IsCard(other) && other != card ==>
      ForwardFrom(s, card, verdict).departed[other] == s.departed[other]
  {
  }
}
