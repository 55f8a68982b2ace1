// The transmit ring of the 3c575 driver: the sending thread, the card's fetch
// engine and the interrupt handler take turns on sixteen linked descriptors.
module TxRing {
  const TX_RING_SIZE: nat := 16
  const UINTS: nat := 0x1_0000_0000
  const NONE: int := -1

  // Where boomerang_start_xmit is.
  datatype Pc =
    | Idle
    | Admitted(addr: nat)  // a copy is allocated
    | Filled(addr: nat)    // the descriptor is written
    | Linked               // the descriptor is on the card's list
    | Counted              // cur_tx is incremented
    | Marking              // the ring tested full; tx_full is not yet set

  // `next`, `addr` and `buf` are the descriptors' link and address fields and the
  // driver's tx_buf; 0 is the null block. `irq` is the handler's own dirty_tx while
  // it runs. `queued` and `fetched` log the addresses linked and fetched since the
  // device was opened, `reaped` counts the entries freed; `heap` holds the allocated
  // blocks, of which the open device's first would be `base`. `badFree` is set by
  // freeing a block that is not allocated.
  datatype Ring = Ring(
    next: seq<int>, addr: seq<nat>, buf: seq<nat>,
    downList: int, curTx: nat, dirtyTx: nat, txFull: bool, open: bool,
    pc: Pc, irq: int,
    queued: seq<nat>, fetched: seq<nat>, reaped: nat,
    heap: set<nat>, base: nat, badFree: bool)

  datatype Step =
    | Xmit(addr: nat, granted: bool)  // a packet is offered; does k_malloc succeed?
    | Proceed                           // the sending thread goes on
    | Fetch                             // the card takes the next descriptor
    | Interrupt                         // DownComplete is raised
    | Handle                            // once round the handler's loop
    | Close
    | Open

  // ----- 32-bit counters

  function Inc(a: nat): nat { (a + 1) % UINTS }

  function Dec(a: nat): nat { (a + UINTS - 1) % UINTS }

  function Minus(a: nat, b: nat): int { if a >= b then a - b else a + UINTS - b }

  function Slot(k: nat): (i: nat)
    ensures i < TX_RING_SIZE
  {
    k % TX_RING_SIZE
  }

  // ----- The steps

  predicate Shaped(s: Ring) {
    |s.next| == TX_RING_SIZE && |s.addr| == TX_RING_SIZE && |s.buf| == TX_RING_SIZE
  }

  function Release(s: Ring, block: nat): (t: Ring)
    requires Shaped(s)
    ensures Shaped(t)
  {
    s.(heap := s.heap - {block}, badFree := s.badFree || block !in s.heap)
  }

  function Offer(s: Ring, addr: nat, granted: bool): (t: Ring)
    requires Shaped(s)
    ensures Shaped(t)
  {
    if s.txFull || !granted then s
    else s.(heap := s.heap + {s.base + |s.queued|}, pc := Admitted(addr))
  }

  // The block the sending thread has just allocated.
  function NewBlock(s: Ring): nat { s.base + |s.queued| }

  function Advance(s: Ring): (t: Ring)
    requires Shaped(s)
    ensures Shaped(t)
  {
    match s.pc
    case Idle => s
    case Admitted(a) =>
      var entry := Slot(s.curTx);
      s.(buf := s.buf[entry := NewBlock(s)], next := s.next[entry := NONE], addr := s.addr[entry := a], pc := Filled(a))
    case Filled(a) =>
      var entry := Slot(s.curTx);
      s.(next := s.next[Slot(Dec(s.curTx)) := entry],
         downList := if s.downList == NONE then entry else s.downList,
         queued := s.queued + [a], pc := Linked)
    case Linked => s.(curTx := Inc(s.curTx), pc := Counted)
    case Counted => s.(pc := if Minus(s.curTx, s.dirtyTx) > TX_RING_SIZE - 1 then Marking else Idle)
    case Marking => s.(txFull := true, pc := Idle)
  }

  function TakeNext(s: Ring): (t: Ring)
    requires Shaped(s)
    ensures Shaped(t)
  {
    if 0 <= s.downList < TX_RING_SIZE then
      s.(fetched := s.fetched + [s.addr[s.downList]], downList := s.next[s.downList])
    else s
  }

  function HandleOne(s: Ring): (t: Ring)
    requires Shaped(s) && s.irq >= 0
    ensures Shaped(t)
  {
    var entry := Slot(s.irq);
    if Minus(s.curTx, s.irq) > 0 && s.downList != entry then
      var freed := if s.buf[entry] != 0 then Release(s, s.buf[entry]).(buf := s.buf[entry := 0]) else s;
      freed.(irq := Inc(s.irq), reaped := s.reaped + 1)
    else
      var clear := s.txFull && Minus(s.curTx, s.irq) <= TX_RING_SIZE - 1;
      s.(dirtyTx := s.irq, irq := NONE, txFull := s.txFull && !clear)
  }

  // vortex_close's loop over tx_buf, from slot `i` on.
  function FreeAll(s: Ring, i: nat): (t: Ring)
    requires Shaped(s) && i <= TX_RING_SIZE
    ensures Shaped(t)
    decreases TX_RING_SIZE - i
  {
    if i == TX_RING_SIZE then s
    else if s.buf[i] != 0 then FreeAll(Release(s, s.buf[i]).(buf := s.buf[i := 0]), i + 1)
    else FreeAll(s, i + 1)
  }

  function Shut(s: Ring): (t: Ring)
    requires Shaped(s)
    ensures Shaped(t)
  {
    FreeAll(s.(downList := NONE), 0).(open := false, queued := [], fetched := [], reaped := 0, base := NewBlock(s))
  }

  function Up(s: Ring): (t: Ring)
    requires Shaped(s)
    ensures Shaped(t)
  {
    s.(open := true, curTx := 0, dirtyTx := 0, buf := seq(TX_RING_SIZE, _ => 0), downList := NONE)
  }

  function Next(s: Ring, step: Step): (t: Ring)
    requires Shaped(s)
    ensures Shaped(t)
  {
    match step
    case Xmit(a, granted) => if s.open && s.irq == NONE && s.pc == Idle then Offer(s, a, granted) else s
    case Proceed => if s.irq == NONE then Advance(s) else s
    case Fetch => TakeNext(s)
    case Interrupt => if s.open && s.irq == NONE then s.(irq := s.dirtyTx) else s
    case Handle => if s.irq >= 0 then HandleOne(s) else s
    case Close => if s.open && s.irq == NONE && s.pc == Idle then Shut(s) else s
    case Open => if !s.open then Up(s) else s
  }

  function Run(s: Ring, steps: seq<Step>): (t: Ring)
    requires Shaped(s)
    ensures Shaped(t)
    decreases |steps|
  {
    if steps == [] then s else Run(Next(s, steps[0]), steps[1..])
  }

  // The same step `n` times.
  function Again(step: Step, n: nat): (steps: seq<Step>)
    ensures |steps| == n
  {
    if n == 0 then [] else [step] + Again(step, n - 1)
  }

  // After probing: everything zero, the device closed.
  function Initial(): (s: Ring)
    ensures Shaped(s)
  {
    var zeros := seq(TX_RING_SIZE, _ => 0);
    Ring(seq(TX_RING_SIZE, _ => NONE), zeros, zeros, NONE, 0, 0, false, false, Idle, NONE, [], [], 0, {}, 1, false)
  }

  // ----- The invariant

  // Entries counted by cur_tx, stored in tx_buf, and allocated.
  function Counts(s: Ring): int { if s.pc == Linked then |s.queued| - 1 else |s.queued| }

  function Stored(s: Ring): nat { if s.pc.Filled? then |s.queued| + 1 else |s.queued| }

  function Allocated(s: Ring): nat { if s.pc.Filled? || s.pc.Admitted? then |s.queued| + 1 else |s.queued| }

  predicate Counters(s: Ring) {
    && s.reaped <= |s.fetched| <= |s.queued| && s.reaped <= Counts(s)
    && Allocated(s) <= s.reaped + TX_RING_SIZE
    && s.curTx == Counts(s) % UINTS
    && (if s.irq == NONE then s.dirtyTx else s.irq) == s.reaped % UINTS
    && (s.pc == Idle && !s.txFull ==> |s.queued| < s.reaped + TX_RING_SIZE)
    && s.irq >= NONE
  }

  // Following the links from the card's list pointer gives the unfetched entries in
  // order.
  predicate Chained(s: Ring)
    requires Shaped(s)
  {
    && |s.fetched| <= |s.queued|
    && s.downList == (if |s.fetched| < |s.queued| then Slot(|s.fetched|) else NONE)
    && (forall k: nat {:trigger s.addr[Slot(k)]} {:trigger s.next[Slot(k)]} :: |s.fetched| <= k < |s.queued| ==>
          && s.addr[Slot(k)] == s.queued[k]
          && s.next[Slot(k)] == (if k + 1 < |s.queued| then Slot(k + 1) else NONE))
    && (s.pc.Filled? ==> s.next[Slot(|s.queued|)] == NONE && s.addr[Slot(|s.queued|)] == s.pc.addr)
  }

  // The window of entries not yet freed holds their blocks, the rest of tx_buf is
  // null, and nothing else is allocated.
  ghost predicate Buffered(s: Ring)
    requires Shaped(s)
  {
    && s.base >= 1 && !s.badFree
    && (forall k: nat {:trigger Slot(k)} :: s.reaped <= k < s.reaped + TX_RING_SIZE ==>
          s.buf[Slot(k)] == if k < Stored(s) then s.base + k else 0)
    && (forall b: nat {:trigger b in s.heap} :: b in s.heap <==> s.base + s.reaped <= b < s.base + Allocated(s))
  }

  ghost predicate Good(s: Ring) {
    && Shaped(s) && Chained(s) && Buffered(s)
    && s.fetched == s.queued[..|s.fetched|]
    && (s.open ==> Counters(s))
    && (!s.open ==> s.queued == [] && s.reaped == 0 && s.pc == Idle && s.irq == NONE)
  }

  // ----- Arithmetic

  lemma SlotsDiffer(j: nat, k: nat)
    requires j < k < j + TX_RING_SIZE
    ensures Slot(j) != Slot(k)
  {
  }

  lemma SlotPlus(q: nat, r: nat)
    ensures Slot(TX_RING_SIZE * q + r) == Slot(r)
  {
  }

  // Slots are the same on wrapped and unwrapped counters.
  lemma WrappedSlot(c: nat)
    ensures Slot(c % UINTS) == Slot(c) && Inc(c % UINTS) == (c + 1) % UINTS
  {
    var x, r := c / UINTS, c % UINTS;
    SlotPlus(0x1000_0000 * x, r);
    assert c == TX_RING_SIZE * (0x1000_0000 * x) + r;
  }

  lemma DecWrapped(c: nat)
    requires c > 0
    ensures Dec(c % UINTS) == (c - 1) % UINTS
  {
    var x, r := c / UINTS, c % UINTS;
    assert c == x * UINTS + r;
    if r == 0 {
      assert c - 1 == (x - 1) * UINTS + (UINTS - 1);
    } else {
      assert c - 1 == x * UINTS + (r - 1);
    }
  }

  lemma SlotBefore(c: nat)
    ensures Slot(Dec(c % UINTS)) == if c > 0 then Slot(c - 1) else TX_RING_SIZE - 1
    ensures Slot(Dec(c % UINTS)) != Slot(c)
  {
    if c > 0 {
      DecWrapped(c);
      WrappedSlot(c - 1);
      SlotsDiffer(c - 1, c);
    }
  }

  // So are differences, up to the ring size.
  lemma WrappedMinus(c: nat, d: nat)
    requires d <= c <= d + TX_RING_SIZE
    ensures Minus(c % UINTS, d % UINTS) == c - d
  {
    var x, y := c / UINTS, d / UINTS;
    assert c == x * UINTS + c % UINTS && d == y * UINTS + d % UINTS;
    assert y <= x <= y + 1;
  }

  // ----- Every step keeps the invariant

  // A step that touches neither the descriptors nor the blocks.
  lemma OfferKeeps(s: Ring, addr: nat, granted: bool)
    requires Good(s) && s.open && s.irq == NONE && s.pc == Idle
    ensures Good(Offer(s, addr, granted))
  {
  }

  lemma FillKeeps(s: Ring)
    requires Good(s) && s.open && s.irq == NONE && s.pc.Admitted?
    ensures Good(Advance(s)) && s.buf[Slot(s.curTx)] == 0
  {
    var t, n := Advance(s), |s.queued|;
    WrappedSlot(n);
    assert s.buf[Slot(n)] == 0;
    forall k: nat | s.reaped <= k < s.reaped + TX_RING_SIZE && k != n
      ensures Slot(k) != Slot(n)
    {
      if k < n { SlotsDiffer(k, n); } else { SlotsDiffer(n, k); }
    }
  }

  // Linking extends the card's list by one.
  lemma LinkChains(s: Ring)
    requires Shaped(s) && Chained(s) && s.pc.Filled? && s.curTx == |s.queued| % UINTS
    requires |s.queued| < |s.fetched| + TX_RING_SIZE
    ensures Chained(Advance(s))
  {
    var t, n, m := Advance(s), |s.queued|, |s.fetched|;
    WrappedSlot(n);
    SlotBefore(n);
    forall k: nat | m <= k < n
      ensures t.addr[Slot(k)] == t.queued[k] && t.next[Slot(k)] == Slot(k + 1)
    {
      if k < n - 1 {
        SlotsDiffer(k, n - 1);
      }
    }
  }

  lemma PrefixKept(q: seq<nat>, more: seq<nat>, m: nat)
    requires m <= |q|
    ensures (q + more)[..m] == q[..m]
  {
  }

  lemma SameBuffers(s: Ring, t: Ring)
    requires Shaped(s) && Shaped(t) && Buffered(s) && t.buf == s.buf && t.heap == s.heap && t.base == s.base
    requires t.reaped == s.reaped && t.badFree == s.badFree && Stored(t) == Stored(s) && Allocated(t) == Allocated(s)
    ensures Buffered(t)
  {
  }

  lemma LinkKeeps(s: Ring)
    requires Good(s) && s.open && s.irq == NONE && s.pc.Filled?
    ensures Good(Advance(s))
  {
    LinkChains(s);
    SameBuffers(s, Advance(s));
    PrefixKept(s.queued, [s.pc.addr], |s.fetched|);
  }

  lemma CountKeeps(s: Ring)
    requires Good(s) && s.open && s.irq == NONE && s.pc in {Linked, Counted, Marking}
    ensures Good(Advance(s))
  {
    WrappedSlot(Counts(s));
    WrappedMinus(Counts(s), s.reaped);
  }

  lemma FetchKeeps(s: Ring)
    requires Good(s)
    ensures Good(TakeNext(s))
  {
  }

  // The handler frees only entries the card has fetched.
  lemma ReapIsFetched(s: Ring)
    requires Good(s) && s.open && s.irq >= 0
    requires Minus(s.curTx, s.irq) > 0 && s.downList != Slot(s.irq)
    ensures s.reaped < |s.fetched| && s.reaped < Counts(s) && Slot(s.irq) == Slot(s.reaped)
    ensures s.buf[Slot(s.irq)] == s.base + s.reaped && s.base + s.reaped in s.heap
  {
    WrappedSlot(s.reaped);
    WrappedMinus(Counts(s), s.reaped);
    assert s.buf[Slot(s.reaped)] == s.base + s.reaped;
  }

  lemma SameChain(s: Ring, t: Ring)
    requires Shaped(s) && Shaped(t) && Chained(s)
    requires t.next == s.next && t.addr == s.addr && t.downList == s.downList && t.pc == s.pc
    requires t.queued == s.queued && t.fetched == s.fetched
    ensures Chained(t)
  {
  }

  lemma ReapCounters(s: Ring, t: Ring)
    requires Counters(s) && s.irq >= 0 && s.reaped < |s.fetched| && s.reaped < Counts(s)
    requires t == s.(heap := t.heap, buf := t.buf, irq := Inc(s.irq), reaped := s.reaped + 1)
    ensures Counters(t)
  {
    WrappedSlot(s.reaped);
  }

  lemma HandleReaps(s: Ring)
    requires Good(s) && s.open && s.irq >= 0
    requires Minus(s.curTx, s.irq) > 0 && s.downList != Slot(s.irq)
    ensures Good(HandleOne(s))
  {
    var t := HandleOne(s);
    ReapIsFetched(s);
    assert t == s.(heap := s.heap - {s.base + s.reaped}, buf := s.buf[Slot(s.reaped) := 0],
                   irq := Inc(s.irq), reaped := s.reaped + 1);
    SameChain(s, t);
    ReapBuffers(s, t);
    ReapCounters(s, t);
  }

  lemma HandleEnds(s: Ring)
    requires Good(s) && s.open && s.irq >= 0
    requires !(Minus(s.curTx, s.irq) > 0 && s.downList != Slot(s.irq))
    ensures Good(HandleOne(s))
  {
    WrappedMinus(Counts(s), s.reaped);
  }

  lemma ReapBuffers(s: Ring, t: Ring)
    requires Shaped(s) && Shaped(t) && Buffered(s) && s.reaped < |s.queued| && t.reaped == s.reaped + 1
    requires Allocated(s) <= s.reaped + TX_RING_SIZE
    requires t.pc == s.pc && t.queued == s.queued && t.base == s.base && t.badFree == s.badFree
    requires t.buf == s.buf[Slot(s.reaped) := 0] && t.heap == s.heap - {s.base + s.reaped}
    ensures Buffered(t)
  {
    forall k: nat {:trigger Slot(k)} | t.reaped <= k < t.reaped + TX_RING_SIZE
      ensures t.buf[Slot(k)] == if k < Stored(t) then t.base + k else 0
    {
      if k == s.reaped + TX_RING_SIZE {
        SlotPlus(1, s.reaped);
      } else {
        SlotsDiffer(s.reaped, k);
      }
    }
  }

  // ----- Closing and opening

  // After the closing loop has passed slot `i`: `s` is the state it started from.
  ghost predicate FreedTo(s: Ring, t: Ring, i: nat)
    requires Shaped(s) && Shaped(t) && i <= TX_RING_SIZE
  {
    && t == s.(buf := t.buf, heap := t.heap)
    && (forall j {:trigger t.buf[j]} :: 0 <= j < TX_RING_SIZE ==> t.buf[j] == if j < i then 0 else s.buf[j])
    && (forall b: nat {:trigger b in t.heap} ::
          b in t.heap <==> b in s.heap && forall j :: 0 <= j < i ==> s.buf[j] != b)
  }

  // Each live block sits in one slot.
  ghost predicate OneSlotEach(s: Ring)
    requires Shaped(s)
  {
    && 0 !in s.heap
    && (forall i {:trigger s.buf[i]} :: 0 <= i < TX_RING_SIZE && s.buf[i] != 0 ==> s.buf[i] in s.heap)
    && (forall i, j {:trigger s.buf[i], s.buf[j]} ::
          0 <= i < j < TX_RING_SIZE && s.buf[i] != 0 ==> s.buf[i] != s.buf[j])
  }

  lemma {:induction false} FreeAllFrees(s: Ring, t: Ring, i: nat)
    requires Shaped(s) && Shaped(t) && i <= TX_RING_SIZE && OneSlotEach(s) && FreedTo(s, t, i)
    ensures FreedTo(s, FreeAll(t, i), TX_RING_SIZE)
    decreases TX_RING_SIZE - i
  {
    if i < TX_RING_SIZE {
      if t.buf[i] != 0 {
        var u := Release(t, t.buf[i]).(buf := t.buf[i := 0]);
        assert s.buf[i] in s.heap;
        FreeAllFrees(s, u, i + 1);
      } else {
        FreeAllFrees(s, t, i + 1);
      }
    }
  }

  // The entry of the window that a slot belongs to.
  function EntryAt(d: nat, i: nat): (k: nat)
    requires i < TX_RING_SIZE
    ensures d <= k < d + TX_RING_SIZE && Slot(k) == i
  {
    if Slot(d) <= i then d + (i - Slot(d)) else d + (i + TX_RING_SIZE - Slot(d))
  }

  predicate InSomeSlot(s: Ring, b: nat) {
    exists i :: 0 <= i < |s.buf| && s.buf[i] == b
  }

  lemma WindowIsAll(s: Ring)
    requires Shaped(s) && Buffered(s) && Stored(s) == Allocated(s) <= s.reaped + TX_RING_SIZE
    ensures OneSlotEach(s)
    ensures forall b: nat {:trigger b in s.heap} :: b in s.heap ==> InSomeSlot(s, b)
  {
    forall i | 0 <= i < TX_RING_SIZE
      ensures var k := EntryAt(s.reaped, i); s.buf[i] == if k < Stored(s) then s.base + k else 0
    {
      assert Slot(EntryAt(s.reaped, i)) == i;
    }
    forall b: nat | b in s.heap
      ensures InSomeSlot(s, b)
    {
      var k: nat := b - s.base;
      assert s.buf[Slot(k)] == b;
    }
  }

  lemma ClosedHeap(s: Ring)
    requires Shaped(s) && OneSlotEach(s) && forall b: nat {:trigger b in s.heap} :: b in s.heap ==> InSomeSlot(s, b)
    ensures FreeAll(s, 0) == s.(buf := seq(TX_RING_SIZE, _ => 0), heap := {})
  {
    var t := FreeAll(s, 0);
    FreeAllFrees(s, s, 0);
    forall b: nat
      ensures b !in t.heap
    {
      assert b in s.heap ==> InSomeSlot(s, b);
    }
    assert t.buf == seq(TX_RING_SIZE, _ => 0);
  }

  // Closing frees every block the ring holds, each once, and leaves none.
  lemma CloseKeeps(s: Ring)
    requires Good(s) && s.open && s.irq == NONE && s.pc == Idle
    ensures Good(Shut(s)) && Shut(s).heap == {}
  {
    var t := s.(downList := NONE);
    SameBuffers(s, t);
    WindowIsAll(t);
    ClosedHeap(t);
  }

  lemma OpenKeeps(s: Ring)
    requires Good(s) && !s.open
    ensures Good(Up(s))
  {
  }

  lemma NextKeeps(s: Ring, step: Step)
    requires Good(s)
    ensures Good(Next(s, step))
  {
    match step
    case Xmit(a, granted) => if s.open && s.irq == NONE && s.pc == Idle { OfferKeeps(s, a, granted); }
    case Proceed =>
      if s.irq == NONE && s.pc != Idle {
        match s.pc
        case Admitted(_) => FillKeeps(s);
        case Filled(_) => LinkKeeps(s);
        case _ => CountKeeps(s);
      }
    case Fetch => FetchKeeps(s);
    case Interrupt =>
    case Handle =>
      if s.irq >= 0 {
        if Minus(s.curTx, s.irq) > 0 && s.downList != Slot(s.irq) { HandleReaps(s); } else { HandleEnds(s); }
      }
    case Close => if s.open && s.irq == NONE && s.pc == Idle { CloseKeeps(s); }
    case Open => if !s.open { OpenKeeps(s); }
  }

  // ----- Whole runs

  lemma {:induction false} RunKeeps(s: Ring, steps: seq<Step>)
    requires Good(s)
    ensures Good(Run(s, steps))
    decreases |steps|
  {
    if steps != [] {
      NextKeeps(s, steps[0]);
      RunKeeps(Next(s, steps[0]), steps[1..]);
    }
  }

  // The entries the card would visit if the driver stopped here: the addresses
  // reached from slot `i` in at most `n` links.
  function Follow(s: Ring, i: int, n: nat): seq<nat>
    requires Shaped(s)
    decreases n
  {
    if n == 0 || !(0 <= i < TX_RING_SIZE) then []
    else [s.addr[i]] + Follow(s, s.next[i], n - 1)
  }

  lemma SuffixStep(q: seq<nat>, k: nat)
    requires k < |q|
    ensures q[k..] == [q[k]] + q[k + 1..]
  {
  }

  lemma {:induction false} FollowIsSuffix(s: Ring, i: int, k: nat, n: nat)
    requires Shaped(s) && Chained(s) && |s.fetched| <= k <= |s.queued| <= k + n
    requires i == if k < |s.queued| then Slot(k) else NONE
    ensures Follow(s, i, n) == s.queued[k..]
    decreases n
  {
    if k < |s.queued| {
      ghost var link := s.next[Slot(k)];
      assert s.addr[i] == s.queued[k] && link == (if k + 1 < |s.queued| then Slot(k + 1) else NONE);
      FollowIsSuffix(s, link, k + 1, n - 1);
      SuffixStep(s.queued, k);
    }
  }

  lemma Rejoined(q: seq<nat>, m: nat)
    requires m <= |q|
    ensures q[..m] + q[m..] == q
  {
  }

  // However the sending thread, the card and the interrupts interleave: the card's
  // list is exactly the unfetched suffix of what was queued, what it has fetched is
  // a prefix, at most sixteen entries are in use, no block is freed twice, the
  // blocks still allocated are those of the entries in use, and a closed device
  // holds none.
  lemma RingIsSafe(steps: seq<Step>)
    ensures var t := Run(Initial(), steps);
      && |t.fetched| <= |t.queued|
      && Follow(t, t.downList, TX_RING_SIZE) == t.queued[|t.fetched|..]
      && t.fetched + Follow(t, t.downList, TX_RING_SIZE) == t.queued
      && |t.queued| - t.reaped <= TX_RING_SIZE
      && !t.badFree
      && (forall b: nat :: b in t.heap <==> t.base + t.reaped <= b < t.base + Allocated(t))
      && (!t.open ==> t.heap == {})
  {
    RunKeeps(Initial(), steps);
    var t := Run(Initial(), steps);
    FollowIsSuffix(t, t.downList, |t.fetched|, TX_RING_SIZE);
    Rejoined(t.queued, |t.fetched|);
    forall b: nat
      ensures !t.open ==> b !in t.heap
    {
    }
  }

  // ----- When tx_full is exact

  // The sending thread is not between its test and its mark, and no handler runs.
  predicate Settled(s: Ring) { s.open && s.pc == Idle && s.irq == NONE }

  predicate Full(s: Ring) { |s.queued| == s.reaped + TX_RING_SIZE }

  // The mark is set on a ring that has room, and no handler is about to clear it.
  predicate Mistaken(s: Ring) { s.open && s.irq == NONE && s.txFull && !Full(s) }

  // The mark keeps the sending thread from starting.
  predicate MarkStops(s: Ring) { s.open && s.txFull ==> s.pc == Idle }

  // The step sets the mark although the handler has made room since the test, or
  // opens a device that was closed with the mark set.
  predicate Spoils(s: Ring, step: Step) {
    || (step == Proceed && s.irq == NONE && s.pc == Marking && !Full(s))
    || (step == Open && !s.open && s.txFull)
  }

  predicate Mends(step: Step) { step == Interrupt || step == Close }

  // The mark is mistaken after a step exactly when the step spoils it, or it was
  // and neither an interrupt nor closing does something about it.
  lemma MistakenIffSpoiled(s: Ring, step: Step)
    requires Good(s) && MarkStops(s)
    ensures MarkStops(Next(s, step))
    ensures Mistaken(Next(s, step)) <==> Spoils(s, step) || (Mistaken(s) && !Mends(step))
  {
    if s.open {
      WrappedMinus(Counts(s), s.reaped);
    }
    match step
    case Xmit(_, _) =>
    case Proceed =>
    case Fetch =>
    case Interrupt =>
    case Handle =>
    case Close => FreeAllKeeps(s.(downList := NONE), 0);
    case Open =>
  }

  lemma {:induction false} FreeAllKeeps(s: Ring, i: nat)
    requires Shaped(s) && i <= TX_RING_SIZE
    ensures var t := FreeAll(s, i); t == s.(buf := t.buf, heap := t.heap, badFree := t.badFree)
    decreases TX_RING_SIZE - i
  {
    if i < TX_RING_SIZE {
      if s.buf[i] != 0 {
        FreeAllKeeps(Release(s, s.buf[i]).(buf := s.buf[i := 0]), i + 1);
      } else {
        FreeAllKeeps(s, i + 1);
      }
    }
  }

  // Some step of the run spoils the mark and none after it mends it; `was` says
  // whether it was spoiled before.
  predicate Spoiled(s: Ring, steps: seq<Step>, was: bool)
    requires Shaped(s)
    decreases |steps|
  {
    if steps == [] then was
    else Spoiled(Next(s, steps[0]), steps[1..], Spoils(s, steps[0]) || (was && !Mends(steps[0])))
  }

  lemma {:induction false} RunMistaken(s: Ring, steps: seq<Step>)
    requires Good(s) && MarkStops(s)
    ensures Good(Run(s, steps)) && MarkStops(Run(s, steps))
    ensures Mistaken(Run(s, steps)) <==> Spoiled(s, steps, Mistaken(s))
    decreases |steps|
  {
    if steps != [] {
      NextKeeps(s, steps[0]);
      MistakenIffSpoiled(s, steps[0]);
      RunMistaken(Next(s, steps[0]), steps[1..]);
    }
  }

  // Between calls and interrupts of any run, tx_full is set whenever sixteen entries
  // are in use; it is set with fewer exactly when a step of the run has spoiled it
  // and neither an interrupt nor closing has come since.
  lemma FullIsExact(steps: seq<Step>)
    requires Settled(Run(Initial(), steps))
    ensures var t := Run(Initial(), steps);
      && (t.txFull <==> Full(t) || Spoiled(Initial(), steps, false))
      && (Spoiled(Initial(), steps, false) ==> !Full(t))
  {
    RunMistaken(Initial(), steps);
  }

  // ----- Runs on which the driver stops for good

  // While the mark is set, packets are refused, and without a further interrupt or
  // a close that never changes.
  lemma {:induction false} MarkedRefuses(s: Ring, steps: seq<Step>)
    requires Shaped(s) && Settled(s) && s.txFull && s.downList == NONE
    requires forall step :: step in steps ==> !Mends(step)
    ensures Run(s, steps) == s
    decreases |steps|
  {
    if steps != [] {
      assert steps[0] in steps;
      MarkedRefuses(s, steps[1..]);
    }
  }

  lemma RunAgain(s: Ring, step: Step, n: nat)
    requires Shaped(s)
    ensures Run(s, Again(step, n + 1)) == Run(Next(s, step), Again(step, n))
  {
    assert Again(step, n + 1)[1..] == Again(step, n);
  }

  // The handler runs and the card has fetched everything.
  ghost predicate Draining(s: Ring) {
    Good(s) && s.open && s.irq >= 0 && s.pc != Linked && s.fetched == s.queued
  }

  // Nothing is left in use.
  ghost predicate Drained(s: Ring, t: Ring) {
    && Good(t) && t.open && t.irq == NONE && t.reaped == |t.queued| && t.downList == NONE
    && t.queued == s.queued && t.pc == s.pc && t.curTx == s.curTx
  }

  lemma DrainStep(s: Ring)
    requires Draining(s)
    ensures var t := HandleOne(s);
      if s.reaped < |s.queued| then
        Draining(t) && t.reaped == s.reaped + 1 && t.queued == s.queued && t.pc == s.pc && t.curTx == s.curTx
      else Drained(s, t)
  {
    NextKeeps(s, Handle);
    WrappedMinus(Counts(s), s.reaped);
    assert s.downList == NONE;
  }

  lemma DrainMore(s: Ring, n: nat) returns (t: Ring)
    requires Draining(s) && s.reaped < |s.queued|
    ensures Draining(t) && t.reaped == s.reaped + 1 && t.queued == s.queued
    ensures Run(s, Again(Handle, n + 1)) == Run(t, Again(Handle, n))
    ensures forall u :: Drained(t, u) ==> Drained(s, u)
  {
    DrainStep(s);
    RunAgain(s, Handle, n);
    t := HandleOne(s);
  }

  // The handler, left alone, frees all.
  lemma {:induction false} HandlerDrains(s: Ring)
    requires Draining(s)
    ensures Drained(s, Run(s, Again(Handle, |s.queued| - s.reaped + 1)))
    decreases |s.queued| - s.reaped
  {
    var n := |s.queued| - s.reaped;
    if n > 0 {
      var t := DrainMore(s, n);
      HandlerDrains(t);
    } else {
      DrainStep(s);
      RunAgain(s, Handle, 0);
    }
  }

  // The mark is mistaken, the card has nothing to fetch, and nothing but an interrupt
  // or closing would change that.
  ghost predicate Stuck(s: Ring) {
    && Shaped(s) && Mistaken(s) && s.reaped == |s.queued|
    && forall steps {:trigger Run(s, steps)} :: (forall step :: step in steps ==> !Mends(step)) ==> Run(s, steps) == s
  }

  lemma MistakenIsStuck(s: Ring)
    requires Shaped(s) && Settled(s) && Mistaken(s) && s.reaped == |s.queued| && s.downList == NONE
    ensures Stuck(s)
  {
    forall steps | forall step :: step in steps ==> !Mends(step)
      ensures Run(s, steps) == s
    {
      MarkedRefuses(s, steps);
    }
  }

  // The ring tests full, the card fetches all and the handler frees all before the
  // mark is set; then every packet is refused on an empty ring, and no transmission
  // is left to raise the interrupt that would clear the mark.
  lemma OvertakenMarkSticks(s: Ring)
    requires Good(s) && s.open && s.irq == NONE && s.pc == Marking && s.fetched == s.queued
    ensures var n := |s.queued| - s.reaped;
      var t := Next(Run(Next(s, Interrupt), Again(Handle, n + 1)), Proceed);
      Stuck(t) && t.queued == s.queued
  {
    var n := |s.queued| - s.reaped;
    NextKeeps(s, Interrupt);
    HandlerDrains(Next(s, Interrupt));
    MarkingSticks(Run(Next(s, Interrupt), Again(Handle, n + 1)));
  }

  lemma MarkingSticks(s: Ring)
    requires Good(s) && s.open && s.irq == NONE && s.pc == Marking && s.reaped == |s.queued| && s.downList == NONE
    ensures Stuck(Next(s, Proceed)) && Next(s, Proceed).queued == s.queued
  {
    MistakenIsStuck(Next(s, Proceed));
  }

  // It also stops when it is closed while full: opening again does not clear the
  // mark.
  lemma CloseWhileFullSticks(s: Ring)
    requires Good(s) && Settled(s) && s.txFull
    ensures var t := Next(Next(s, Close), Open); Stuck(t) && t.queued == []
  {
    FreeAllKeeps(s.(downList := NONE), 0);
    MistakenIsStuck(Next(Next(s, Close), Open));
  }

  lemma {:induction false} RunAppend(s: Ring, first: seq<Step>, rest: seq<Step>)
    requires Shaped(s)
    ensures Run(s, first + rest) == Run(Run(s, first), rest)
    decreases |first|
  {
    if first == [] {
      assert first + rest == rest;
    } else {
      assert (first + rest)[1..] == first[1..] + rest;
      RunAppend(Next(s, first[0]), first[1..], rest);
    }
  }

  const SEND := [Xmit(1, true), Proceed, Proceed, Proceed, Proceed]

  // Open the device and send `n` packets, each up to its test for a full ring.
  function SendMany(n: nat): seq<Step> {
    if n == 0 then [Open] else SendMany(n - 1) + SEND
  }

  lemma SendOnce(s: Ring)
    requires Good(s) && Settled(s) && !s.txFull
    ensures var t := Run(s, SEND);
      && t.open && t.irq == NONE && !t.txFull && |t.queued| == |s.queued| + 1
      && t.reaped == s.reaped && t.fetched == s.fetched && t.pc == if Full(t) then Marking else Idle
  {
    var a, b, c, d := Next(s, SEND[0]), SEND[1..], SEND[2..], SEND[3..];
    assert b[1..] == c && c[1..] == d && d[1..] == SEND[4..] && SEND[4..][1..] == [];
    var t1 := Next(a, Proceed);
    var t2 := Next(t1, Proceed);
    var t3 := Next(t2, Proceed);
    var t4 := Next(t3, Proceed);
    assert Run(s, SEND) == Run(a, b) == Run(t1, c) == Run(t2, d) == Run(t3, SEND[4..]) == Run(t4, []);
    WrappedSlot(|s.queued|);
    WrappedMinus(|s.queued| + 1, s.reaped);
  }

  // `n` packets are queued, none fetched, and the sixteenth has tested full.
  ghost predicate Sent(s: Ring, n: nat) {
    && Good(s) && s.open && s.irq == NONE && !s.txFull && |s.queued| == n && s.reaped == 0 && s.fetched == []
    && s.pc == if n == TX_RING_SIZE then Marking else Idle
  }

  lemma SendMore(s: Ring, n: nat)
    requires Sent(s, n) && n < TX_RING_SIZE
    ensures Sent(Run(s, SEND), n + 1)
  {
    SendOnce(s);
    RunKeeps(s, SEND);
  }

  lemma RunOne(s: Ring, step: Step)
    requires Shaped(s)
    ensures Run(s, [step]) == Next(s, step)
  {
    assert [step][1..] == [];
  }

  lemma {:induction false} SendManyFills(n: nat)
    requires n <= TX_RING_SIZE
    ensures Sent(Run(Initial(), SendMany(n)), n)
  {
    if n == 0 {
      RunOne(Initial(), Open);
      NextKeeps(Initial(), Open);
    } else {
      SendManyFills(n - 1);
      SendMore(Run(Initial(), SendMany(n - 1)), n - 1);
      RunAppend(Initial(), SendMany(n - 1), SEND);
    }
  }

  // The card has fetched all; nothing else is different.
  ghost predicate AllFetched(s: Ring, t: Ring) {
    Good(t) && t.fetched == s.queued && t == s.(fetched := t.fetched, downList := NONE)
  }

  lemma FetchMore(s: Ring, n: nat) returns (t: Ring)
    requires Good(s) && |s.queued| == |s.fetched| + n + 1
    ensures Good(t) && |t.queued| == |t.fetched| + n
    ensures Run(s, Again(Fetch, n + 1)) == Run(t, Again(Fetch, n))
    ensures t == s.(fetched := t.fetched, downList := t.downList)
  {
    FetchKeeps(s);
    RunAgain(s, Fetch, n);
    t := TakeNext(s);
  }

  lemma FetchNone(s: Ring)
    requires Good(s) && |s.queued| == |s.fetched|
    ensures AllFetched(s, Run(s, Again(Fetch, 0)))
  {
    assert s.queued[..|s.queued|] == s.queued;
  }

  // The card, left alone, fetches all.
  lemma {:induction false} CardFetches(s: Ring, n: nat)
    requires Good(s) && |s.queued| == |s.fetched| + n
    ensures AllFetched(s, Run(s, Again(Fetch, n)))
    decreases n
  {
    if n > 0 {
      var t := FetchMore(s, n - 1);
      CardFetches(t, n - 1);
    } else {
      FetchNone(s);
    }
  }

  // From power-up, after sixteen packets: the mark is overtaken, or the device is
  // closed and opened.
  const OVERTAKEN :=
    SendMany(TX_RING_SIZE) +
    (Again(Fetch, TX_RING_SIZE) + ([Interrupt] + (Again(Handle, TX_RING_SIZE + 1) + [Proceed])))

  const CLOSED_FULL := SendMany(TX_RING_SIZE) + ([Proceed] + ([Close] + [Open]))

  lemma OvertakenFromPowerUp()
    ensures var t := Run(Initial(), OVERTAKEN); Stuck(t) && |t.queued| == TX_RING_SIZE
  {
    var handling := Again(Handle, TX_RING_SIZE + 1) + [Proceed];
    var s := FilledFromPowerUp(Again(Fetch, TX_RING_SIZE) + ([Interrupt] + handling));
    RunAppend(s, Again(Fetch, TX_RING_SIZE), [Interrupt] + handling);
    CardFetches(s, TX_RING_SIZE);
    HandledWhileMarking(Run(s, Again(Fetch, TX_RING_SIZE)));
  }

  lemma FilledFromPowerUp(rest: seq<Step>) returns (s: Ring)
    ensures Sent(s, TX_RING_SIZE) && Run(Initial(), SendMany(TX_RING_SIZE) + rest) == Run(s, rest)
  {
    s := Run(Initial(), SendMany(TX_RING_SIZE));
    SendManyFills(TX_RING_SIZE);
    RunAppend(Initial(), SendMany(TX_RING_SIZE), rest);
  }

  lemma HandledWhileMarking(s: Ring)
    requires Good(s) && s.open && s.irq == NONE && s.pc == Marking && s.fetched == s.queued && s.reaped == 0
    ensures var t := Run(s, [Interrupt] + (Again(Handle, |s.queued| + 1) + [Proceed])); Stuck(t) && t.queued == s.queued
  {
    var handles := Again(Handle, |s.queued| + 1);
    RunAppend(s, [Interrupt], handles + [Proceed]);
    RunOne(s, Interrupt);
    RunAppend(Next(s, Interrupt), handles, [Proceed]);
    RunOne(Run(Next(s, Interrupt), handles), Proceed);
    OvertakenMarkSticks(s);
  }

  lemma ClosedFullFromPowerUp()
    ensures var t := Run(Initial(), CLOSED_FULL); Stuck(t) && t.queued == []
  {
    var s := FilledFromPowerUp([Proceed] + ([Close] + [Open]));
    RunAppend(s, [Proceed], [Close] + [Open]);
    RunOne(s, Proceed);
    var u := Next(s, Proceed);
    NextKeeps(s, Proceed);
    RunAppend(u, [Close], [Open]);
    RunOne(u, Close);
    RunOne(Next(u, Close), Open);
    CloseWhileFullSticks(u);
  }
}
