// The transmit code of the driver, run without interruption.
module TxRingCode {
  import opened TxRing

  // What the handler does when nothing comes between its steps.
  function HandleAll(s: Ring): (t: Ring)
    requires Good(s) && s.open && s.irq >= 0
    ensures Good(t) && t.open && t.irq == NONE
    decreases |s.queued| - s.reaped
  {
    HandleOneKeeps(s);
    if HandleOne(s).irq >= 0 then HandleAll(HandleOne(s)) else HandleOne(s)
  }

  // The handler goes round again exactly while a counted and fetched entry is left.
  lemma GoesRound(s: Ring)
    requires Good(s) && s.open && s.irq >= 0
    ensures Minus(s.curTx, s.irq) > 0 && s.downList != Slot(s.irq) <==>
      s.reaped < |s.fetched| && s.reaped < Counts(s)
  {
    WrappedSlot(s.reaped);
    WrappedMinus(Counts(s), s.reaped);
    if s.reaped < |s.fetched| < |s.queued| {
      SlotsDiffer(s.reaped, |s.fetched|);
    }
  }

  lemma HandleOneKeeps(s: Ring)
    requires Good(s) && s.open && s.irq >= 0
    ensures Good(HandleOne(s)) && HandleOne(s).open
    ensures HandleOne(s).queued == s.queued && HandleOne(s).fetched == s.fetched && Counts(HandleOne(s)) == Counts(s)
    ensures var more := s.reaped < |s.fetched| && s.reaped < Counts(s);
      && (more <==> HandleOne(s).irq >= 0)
      && HandleOne(s).irq >= NONE
      && HandleOne(s).reaped == if more then s.reaped + 1 else s.reaped
  {
    NextKeeps(s, Handle);
    GoesRound(s);
  }

  // The first round.
  lemma OneRound(s: Ring) returns (t: Ring)
    requires Good(s) && s.open && s.irq >= 0
    ensures t == Next(s, Handle) && Good(t) && t.open && t.irq >= NONE
    ensures HandleAll(s) == if t.irq >= 0 then HandleAll(t) else t
    ensures t.queued == s.queued && t.fetched == s.fetched && Counts(t) == Counts(s)
    ensures var more := s.reaped < |s.fetched| && s.reaped < Counts(s);
      (more <==> t.irq >= 0) && t.reaped == if more then s.reaped + 1 else s.reaped
  {
    HandleOneKeeps(s);
    t := HandleOne(s);
  }

  // It is a run of handler steps that ends with every counted and fetched entry
  // freed.
  lemma {:induction false} HandleAllIsRun(s: Ring) returns (n: nat)
    requires Good(s) && s.open && s.irq >= 0
    ensures HandleAll(s) == Run(s, Again(Handle, n))
    ensures HandleAll(s).queued == s.queued && HandleAll(s).fetched == s.fetched
    ensures HandleAll(s).reaped == if |s.fetched| < Counts(s) then |s.fetched| else Counts(s)
    decreases |s.queued| - s.reaped
  {
    var t := OneRound(s);
    var m := 0;
    if t.irq >= 0 {
      m := HandleAllIsRun(t);
    }
    n := m + 1;
    RunAgain(s, Handle, m);
  }

  // An accepted packet's descriptor on the card's list, not yet counted.
  function Linking(s: Ring, a: nat): (t: Ring)
    requires Shaped(s)
    ensures Shaped(t)
  {
    var entry := Slot(s.curTx);
    s.(buf := s.buf[entry := NewBlock(s)], next := s.next[entry := NONE][Slot(Dec(s.curTx)) := entry],
       addr := s.addr[entry := a], downList := if s.downList == NONE then entry else s.downList,
       heap := s.heap + {NewBlock(s)}, queued := s.queued + [a])
  }

  // What boomerang_start_xmit does when nothing comes between its steps.
  function Send(s: Ring, a: nat, granted: bool): (t: Ring)
    requires Shaped(s)
    ensures Shaped(t)
  {
    if s.txFull || !granted then s
    else
      var full := Minus(Inc(s.curTx), s.dirtyTx) > TX_RING_SIZE - 1;
      Linking(s, a).(curTx := Inc(s.curTx), txFull := full)
  }

  function SendSteps(a: nat, granted: bool): seq<Step> {
    [Xmit(a, granted), Proceed, Proceed, Proceed, Proceed, Proceed]
  }

  // The first half of a send ends with the descriptor written.
  function Written(s: Ring, a: nat): (t: Ring)
    requires Shaped(s)
    ensures Shaped(t)
  {
    var entry := Slot(s.curTx);
    s.(buf := s.buf[entry := NewBlock(s)], next := s.next[entry := NONE], addr := s.addr[entry := a],
       heap := s.heap + {NewBlock(s)}, pc := Filled(a))
  }

  lemma FirstHalf(s: Ring, a: nat)
    requires Shaped(s) && Settled(s) && !s.txFull
    ensures Next(Next(s, Xmit(a, true)), Proceed) == Written(s, a)
  {
  }

  lemma SecondHalf(s: Ring, a: nat)
    requires Shaped(s) && Settled(s) && !s.txFull
    ensures Next(Next(Next(Next(Written(s, a), Proceed), Proceed), Proceed), Proceed) == Send(s, a, true)
  {
  }

  // It is a run of the sending thread's steps. Unless it is refused it queues the
  // packet, and it leaves the mark exactly when the ring is then full.
  lemma SendIsRun(s: Ring, a: nat, granted: bool)
    requires Good(s) && Settled(s)
    ensures Send(s, a, granted) == Run(s, SendSteps(a, granted))
    ensures Good(Send(s, a, granted))
    ensures var t := Send(s, a, granted);
      if s.txFull || !granted then t == s else t.queued == s.queued + [a] && (t.txFull <==> Full(t))
  {
    var steps := SendSteps(a, granted);
    RunKeeps(s, steps);
    SixSteps(s, steps);
    if !s.txFull && granted {
      FirstHalf(s, a);
      SecondHalf(s, a);
      SentMark(s, a);
    }
  }

  lemma SentMark(s: Ring, a: nat)
    requires Good(s) && Settled(s) && !s.txFull
    ensures Send(s, a, true).txFull <==> Full(Send(s, a, true))
  {
    WrappedSlot(|s.queued|);
    WrappedMinus(|s.queued| + 1, s.reaped);
  }

  lemma SixSteps(s: Ring, steps: seq<Step>)
    requires Shaped(s) && |steps| == 6
    ensures Run(s, steps) ==
      Next(Next(Next(Next(Next(Next(s, steps[0]), steps[1]), steps[2]), steps[3]), steps[4]), steps[5])
  {
    var a, b := steps[1..], steps[2..];
    var c, d, e := steps[3..], steps[4..], steps[5..];
    assert a[1..] == b && b[1..] == c && c[1..] == d && d[1..] == e && e[1..] == [];
    var t1 := Next(s, steps[0]);
    var t2 := Next(t1, steps[1]);
    var t3 := Next(t2, steps[2]);
    var t4 := Next(t3, steps[3]);
    var t5 := Next(t4, steps[4]);
    assert Run(s, steps) == Run(t1, a) == Run(t2, b) == Run(t3, c) == Run(t4, d) == Run(t5, e);
    assert Run(t5, e) == Run(Next(t5, steps[5]), []);
  }

  // The handler, on its way from `start` to the end.
  ghost predicate Handling(start: Ring, now: Ring) {
    && Good(start) && start.open && start.irq >= 0
    && Good(now) && now.open && now.irq >= 0
    && HandleAll(now) == HandleAll(start) && NewBlock(now) == NewBlock(start)
  }

  lemma HandleAllStep(s: Ring)
    requires Good(s) && s.open && s.irq >= 0
    ensures var t := HandleOne(s);
      Good(t) && t.open && HandleAll(s) == if t.irq >= 0 then HandleAll(t) else t
  {
    HandleOneKeeps(s);
  }

  lemma HandlingGoesOn(start: Ring, now: Ring)
    requires Handling(start, now)
    ensures var t := HandleOne(now);
      if t.irq >= 0 then Handling(start, t) && t.reaped == now.reaped + 1 && t.queued == now.queued
      else t == HandleAll(start) && Good(t) && NewBlock(t) == NewBlock(start)
  {
    HandleOneKeeps(now);
    HandleAllStep(now);
  }

  lemma Closing(s: Ring)
    requires Good(s) && Settled(s)
    ensures Next(s, Close) == Shut(s) && NewBlock(Shut(s)) == NewBlock(s)
    ensures Good(Shut(s))
  {
    NextKeeps(s, Close);
  }

  // vortex_close's work on one slot.
  function FreedSlot(s: Ring, i: nat): (t: Ring)
    requires Shaped(s) && i < TX_RING_SIZE
    ensures Shaped(t) && FreeAll(t, i + 1) == FreeAll(s, i)
  {
    if s.buf[i] != 0 then Release(s, s.buf[i]).(buf := s.buf[i := 0]) else s
  }

  class Vortex {
    const next: array<int>
    const addr: array<nat>
    const txBuf: array<nat>
    var downList: int
    var curTx: nat
    var dirtyTx: nat
    var txFull: bool
    var open: bool
    var heap: set<nat>
    var nextBlock: nat          // k_malloc's next block
    var badFree: bool
    ghost var queued: seq<nat>
    ghost var fetched: seq<nat>
    ghost var reaped: nat
    ghost var base: nat

    ghost predicate Valid()
      reads this, next, addr, txBuf
    {
      && next.Length == TX_RING_SIZE && addr.Length == TX_RING_SIZE && txBuf.Length == TX_RING_SIZE
      && addr != txBuf
      && nextBlock == NewBlock(Value())
      && Good(Value())
    }

    ghost function Value(): (s: Ring)
      reads this, next, addr, txBuf
    {
      Ring(next[..], addr[..], txBuf[..], downList, curTx, dirtyTx, txFull, open, Idle, NONE,
           queued, fetched, reaped, heap, base, badFree)
    }

    constructor ()
      ensures Valid() && fresh(next) && fresh(addr) && fresh(txBuf) && Value() == Initial()
    {
      next := new int[TX_RING_SIZE](_ => NONE);
      addr := new nat[TX_RING_SIZE](_ => 0);
      txBuf := new nat[TX_RING_SIZE](_ => 0);
      downList, curTx, dirtyTx, txFull, open := NONE, 0, 0, false, false;
      heap, nextBlock, badFree := {}, 1, false;
      queued, fetched, reaped, base := [], [], 0, 1;
      new;
      assert Value() == Initial();
    }

    method Malloc() returns (block: nat)
      modifies this`heap, this`nextBlock
      ensures block == old(nextBlock) && nextBlock == block + 1 && heap == old(heap) + {block}
    {
      block := nextBlock;
      heap := heap + {block};
      nextBlock := nextBlock + 1;
    }

    method Free(block: nat)
      modifies this`heap, this`badFree
      ensures heap == old(heap) - {block} && badFree == (old(badFree) || block !in old(heap))
    {
      badFree := badFree || block !in heap;
      heap := heap - {block};
    }

    // Copy the packet, write its descriptor and put it on the card's list.
    method LinkDescriptor(buf: nat)
      requires Shaped(Value()) && addr != txBuf && nextBlock == NewBlock(Value())
      modifies this`heap, this`nextBlock, this`downList, this`queued, next, addr, txBuf
      ensures Shaped(Value()) && Value() == Linking(old(Value()), buf) && nextBlock == old(nextBlock) + 1
    {
      ghost var goal := Linking(Value(), buf);
      var entry, prev := curTx % TX_RING_SIZE, Dec(curTx) % TX_RING_SIZE;
      var copy := Malloc();
      txBuf[entry] := copy;
      next[entry] := NONE;
      addr[entry] := buf;
      next[prev] := entry;
      if downList == NONE {
        downList := entry;
      }
      queued := queued + [buf];
      assert next[..] == goal.next && addr[..] == goal.addr && txBuf[..] == goal.buf;
    }

    // Returns whether the packet at address `buf` was accepted.
    method BoomerangStartXmit(buf: nat, granted: bool) returns (ok: bool)
      requires Valid() && open
      modifies this, next, addr, txBuf
      ensures Valid() && open && Value() == Send(old(Value()), buf, granted)
      ensures ok == (!old(txFull) && granted)
    {
      ghost var goal := Send(Value(), buf, granted);
      SendIsRun(Value(), buf, granted);
      if txFull || !granted {
        return false;
      }
      LinkDescriptor(buf);
      curTx := Inc(curTx);
      if Minus(curTx, dirtyTx) > TX_RING_SIZE - 1 {
        txFull := true;
      }
      assert Value() == goal;
      return true;
    }

    // Free the entry at `dirty`.
    method ReapEntry(dirty: nat) returns (after: nat)
      requires Shaped(Value()) && Minus(curTx, dirty) > 0 && downList != Slot(dirty) && addr != txBuf
      modifies this`heap, this`badFree, this`reaped, txBuf
      ensures Shaped(Value()) && Value().(irq := after) == HandleOne(old(Value()).(irq := dirty))
    {
      ghost var was := txBuf[..];
      var entry := dirty % TX_RING_SIZE;
      if txBuf[entry] != 0 {
        Free(txBuf[entry]);
        txBuf[entry] := 0;
        assert txBuf[..] == was[entry := 0];
      }
      reaped := reaped + 1;
      return Inc(dirty);
    }

    // Write `dirty` back, and clear the mark if there is room.
    method FinishReaping(dirty: nat)
      requires Shaped(Value()) && !(Minus(curTx, dirty) > 0 && downList != Slot(dirty))
      modifies this`dirtyTx, this`txFull
      ensures Shaped(Value()) && Value() == HandleOne(old(Value()).(irq := dirty))
    {
      dirtyTx := dirty;
      if txFull && Minus(curTx, dirty) <= TX_RING_SIZE - 1 {
        txFull := false;
      }
    }

    // Once round the handler's loop.
    method ReapNext(dirty: nat, ghost start: Ring) returns (after: nat)
      requires Shaped(Value()) && addr != txBuf && Handling(start, Value().(irq := dirty))
      requires Minus(curTx, dirty) > 0 && downList != Slot(dirty)
      modifies this`heap, this`badFree, this`reaped, txBuf
      ensures Shaped(Value()) && Handling(start, Value().(irq := after))
      ensures reaped == old(reaped) + 1
    {
      HandlingGoesOn(start, Value().(irq := dirty));
      after := ReapEntry(dirty);
    }

    method DownComplete()
      requires Valid() && open
      modifies this, txBuf
      ensures Valid() && Value() == HandleAll(Next(old(Value()), Interrupt))
    {
      ghost var start := Next(Value(), Interrupt);
      NextKeeps(Value(), Interrupt);
      var dirty := dirtyTx;
      while Minus(curTx, dirty) > 0
        invariant addr != txBuf && Shaped(Value()) && Handling(start, Value().(irq := dirty))
        invariant nextBlock == NewBlock(start) && queued == start.queued && reaped <= |queued|
        decreases |queued| - reaped
      {
        if downList == dirty % TX_RING_SIZE {
          break;
        }
        dirty := ReapNext(dirty, start);
      }
      HandlingGoesOn(start, Value().(irq := dirty));
      FinishReaping(dirty);
    }

    // vortex_up's part.
    method VortexUp()
      requires Valid() && !open
      modifies this, txBuf
      ensures Valid() && Value() == Next(old(Value()), Open)
    {
      ghost var goal := Next(Value(), Open);
      NextKeeps(Value(), Open);
      curTx, dirtyTx, open := 0, 0, true;
      var i := 0;
      while i < TX_RING_SIZE
        modifies txBuf
        invariant i <= TX_RING_SIZE && forall j :: 0 <= j < i ==> txBuf[j] == 0
      {
        txBuf[i] := 0;
        i := i + 1;
      }
      downList := NONE;
      assert txBuf[..] == seq(TX_RING_SIZE, _ => 0);
      assert Value() == goal;
    }

    method FreeSlot(i: nat)
      requires Shaped(Value()) && addr != txBuf && i < TX_RING_SIZE
      modifies this`heap, this`badFree, txBuf
      ensures Shaped(Value()) && Value() == FreedSlot(old(Value()), i)
    {
      ghost var was := txBuf[..];
      if txBuf[i] != 0 {
        Free(txBuf[i]);
        txBuf[i] := 0;
        assert txBuf[..] == was[i := 0];
      }
    }

    // Free the copies that are left.
    method FreeBuffers()
      requires Shaped(Value()) && addr != txBuf
      modifies this`heap, this`badFree, txBuf
      ensures Shaped(Value()) && Value() == FreeAll(old(Value()), 0)
    {
      ghost var goal := FreeAll(Value(), 0);
      ghost var now := Value();
      var i := 0;
      while i < TX_RING_SIZE
        invariant i <= TX_RING_SIZE && Shaped(now) && now == Value() && FreeAll(now, i) == goal
      {
        now := FreedSlot(now, i);
        FreeSlot(i);
        i := i + 1;
      }
    }

    method MarkClosed(ghost first: nat)
      requires Shaped(Value())
      modifies this`open, this`queued, this`fetched, this`reaped, this`base
      ensures Shaped(Value())
      ensures Value() == old(Value()).(open := false, queued := [], fetched := [], reaped := 0, base := first)
    {
      open := false;
      queued, fetched, reaped, base := [], [], 0, first;
    }

    // vortex_down's and vortex_close's part.
    method VortexClose()
      requires Valid() && open
      modifies this, txBuf
      ensures Valid() && Value() == Next(old(Value()), Close)
    {
      ghost var goal, first := Shut(Value()), NewBlock(Value());
      Closing(Value());
      downList := NONE;
      FreeBuffers();
      MarkClosed(first);
      assert Value() == goal;
    }
  }
}
