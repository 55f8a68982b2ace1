// Loading a network in several messages and releasing one: what each does to the
// tables, the blocks and the cache.
module NetworkEdits {
  import opened LinearProbing
  import opened NetworkStore
  import opened NetworkTable
  import opened ShuffleDelete

  const FM_ERROR_NONETWORK: nat := 4
  const FM_ERROR_NOMEMORY: nat := 5

  datatype Reply = LoadAck | ReleaseAck | ErrorReply(code: nat)

  // A load message for one block of a network.
  datatype Load = Load(network: nat, offset: nat, begin: bool, end: bool, data: seq<Byte>)

  // `Stopped`: the XMS driver refused a copy and the program exited.
  datatype Outcome = Done(store: Store, replies: seq<Reply>) | Stopped

  // The first staging slot, from `i` on, that holds `n`; 8 when there is none.
  function FirstStaged(staged: seq<AddrEntry>, n: nat, i: nat): (r: nat)
    requires i <= |staged|
    ensures i <= r <= |staged| && (r < |staged| ==> staged[r].network == n)
    ensures forall j :: i <= j < r ==> staged[j].network != n
    decreases |staged| - i
  {
    if i == |staged| || staged[i].network == n then i else FirstStaged(staged, n, i + 1)
  }

  // The staging slot a BEGIN message uses: the network's own or the first empty one.
  function BeginSlot(s: Store, n: nat): (r: nat)
    requires Sized(s)
    ensures r <= MAX_NUM_NEW_NETWORKS
  {
    var i := FirstStaged(s.staged, n, 0);
    if i < MAX_NUM_NEW_NETWORKS then i else FirstStaged(s.staged, 0, 0)
  }

  // What the driver may hand out: no block, or a free handle with a block of the
  // right size and any contents.
  ghost predicate AllocOk(s: Store, n: nat, alloc: nat, junk: seq<Byte>)
    requires Sized(s)
  {
    var i := BeginSlot(s, n);
    alloc != 0 ==>
      && |junk| == AllocatedSize(n)
      && (alloc !in s.xms || (i < MAX_NUM_NEW_NETWORKS && alloc == s.staged[i].hostTable))
  }

  // The BEGIN part: restart the network's staging block.
  function Begin(s: Store, n: nat, alloc: nat, junk: seq<Byte>): (t: Store)
    requires Sized(s) && BeginSlot(s, n) < MAX_NUM_NEW_NETWORKS
    ensures Sized(t)
  {
    var i := BeginSlot(s, n);
    var e := s.staged[i];
    var freed := s.xms - {e.hostTable};
    if alloc == 0 then
      s.(staged := s.staged[i := AddrEntry(0, e.dirty, 0)], xms := freed)
    else
      s.(staged := s.staged[i := AddrEntry(n, e.dirty, alloc)], xms := freed[alloc := junk])
  }

  function Overwrite(block: seq<Byte>, offset: nat, data: seq<Byte>): (r: seq<Byte>)
    requires offset + |data| <= |block|
    ensures |r| == |block|
    ensures forall i :: 0 <= i < |block| ==>
      r[i] == if offset <= i < offset + |data| then data[i - offset] else block[i]
  {
    block[..offset] + data + block[offset + |data|..]
  }

  // The bytes of a message that are copied: 256 for class C, 1024 for class B.
  function Piece(load: Load): (r: seq<Byte>)
    requires |load.data| == 1024
  {
    if IsClassB(load.network) then load.data else load.data[..0x100]
  }

  // The END part: install staging slot `i`. In a full table without the network
  // the search's `break` falls through to the installation, which overwrites the
  // entry in the home slot.
  function Finish(s: Store, n: nat, i: nat): (r: (Store, seq<Reply>))
    requires Sized(s) && i < MAX_NUM_NEW_NETWORKS
    ensures Sized(r.0)
  {
    var e := s.staged[i];
    var emptied := s.staged[i := AddrEntry(0, e.dirty, 0)];
    match SlotFor(s.addr, n)
    case Some(p) =>
      (s.(addr := s.addr[p := AddrEntry(n, true, e.hostTable)], staged := emptied,
          xms := s.xms - {s.addr[p].hostTable}, cache := Flushed()),
       [LoadAck])
    case None =>
      HomeInRange(n);
      (s.(addr := s.addr[Home(n) := AddrEntry(n, true, 0)], staged := emptied,
          xms := s.xms - {e.hostTable} - {s.addr[Home(n)].hostTable}, cache := Flushed()),
       [ErrorReply(FM_ERROR_NONETWORK), LoadAck])
  }

  // What a message does once BEGIN, if set, has prepared the staging block.
  function HandlePiece(s: Store, load: Load): Outcome
    requires Sized(s) && |load.data| == 1024
  {
    var i := FirstStaged(s.staged, load.network, 0);
    if i == MAX_NUM_NEW_NETWORKS then Done(s, [ErrorReply(FM_ERROR_NONETWORK)])
    else
      var h := s.staged[i].hostTable;
      if h !in s.xms || load.offset + |Piece(load)| > |s.xms[h]| then Stopped
      else
        var t := s.(xms := s.xms[h := Overwrite(s.xms[h], load.offset, Piece(load))]);
        if load.end then
          var (u, replies) := Finish(t, load.network, i);
          Done(u, replies)
        else Done(t, [LoadAck])
  }

  // A load message; `alloc` and `junk` are the driver's answer if it is asked.
  function HandleLoad(s: Store, load: Load, alloc: nat, junk: seq<Byte>): Outcome
    requires Sized(s) && |load.data| == 1024
  {
    var n := load.network;
    if !Supported(n) then Done(s, [ErrorReply(FM_ERROR_NONETWORK)])
    else if !load.begin then HandlePiece(s, load)
    else if BeginSlot(s, n) == MAX_NUM_NEW_NETWORKS then Done(s, [ErrorReply(FM_ERROR_NOMEMORY)])
    else if alloc == 0 then Done(Begin(s, n, alloc, junk), [ErrorReply(FM_ERROR_NOMEMORY)])
    else HandlePiece(Begin(s, n, alloc, junk), load)
  }

  // The slot a release finds, by scanning the table from slot 0.
  function ReleaseSlot(s: Store, n: nat): nat
    requires Sized(s)
  {
    FirstStaged(s.addr, n, 0)
  }

  // The release finds no slot, or its scan ends.
  ghost predicate ScanStops(s: Store, n: nat)
    requires Sized(s)
  {
    HomeInRange(n);
    ReleaseSlot(s, n) < MAX_NUM_NETWORKS ==> Stops(s.addr, EntryHome, ReleaseSlot(s, n), Home(n))
  }

  // A release message; network 0 matches the first empty slot.
  ghost function HandleRelease(s: Store, n: nat): (r: (Store, seq<Reply>))
    requires Sized(s) && ScanStops(s, n)
  {
    HomeInRange(n);
    var i := ReleaseSlot(s, n);
    if i == MAX_NUM_NETWORKS then (s, [ErrorReply(FM_ERROR_NONETWORK)])
    else
      (s.(addr := Cleared(s.addr, EntryHome, NO_ENTRY, i, Home(n)), xms := s.xms - {s.addr[i].hostTable},
          cache := Flushed()),
       [ReleaseAck])
  }

  // The scan for a loaded network ends exactly when some slot is empty, and then
  // deletes its entry.
  lemma ReleaseIsReleased(s: Store, n: nat)
    requires Sized(s) && n != 0 && ReleaseSlot(s, n) < MAX_NUM_NETWORKS
    ensures ScanStops(s, n) <==> HasRoom(s.addr)
    ensures ScanStops(s, n) ==> HandleRelease(s, n).0.addr == Released(s.addr, ReleaseSlot(s, n))
  {
    HomeInRange(n);
    var i := ReleaseSlot(s, n);
    StopsIffEmptySlot(s.addr, EntryHome, i, Home(n));
    if p :| 0 <= p < |s.addr| && EntryHome(s.addr[p]) < 0 {
      assert s.addr[p].network == 0;
    }
    if p :| 0 <= p < |s.addr| && s.addr[p].network == 0 {
      assert EntryHome(s.addr[p]) < 0;
    }
    if ScanStops(s, n) {
      ClearedIsDeleted(s.addr, EntryHome, NO_ENTRY, i);
    }
  }

  // The scan for network 0 starts from the first empty slot and ends exactly when
  // another slot is empty or no entry of home 0 lies before that slot.
  lemma ZeroReleaseStops(s: Store)
    requires Sized(s) && ReleaseSlot(s, 0) < MAX_NUM_NETWORKS
    ensures ScanStops(s, 0) <==>
      || (exists p :: 0 <= p < |s.addr| && p != ReleaseSlot(s, 0) && s.addr[p].network == 0)
      || (forall p :: 0 < p < (if ReleaseSlot(s, 0) == 0 then |s.addr| else ReleaseSlot(s, 0)) ==>
            EntryHome(s.addr[p]) != 0)
  {
    var i := ReleaseSlot(s, 0);
    StopsFromEmpty(s.addr, EntryHome, i, 0);
    assert forall p {:trigger s.addr[p]} :: 0 <= p < |s.addr| ==>
      (EntryHome(s.addr[p]) < 0 <==> s.addr[p].network == 0);
    var r := RoundAt(|s.addr|, 0, i);
    assert r == if i == 0 then 31 else i - 1;
    if p :| 0 < p <= r && EntryHome(s.addr[p]) == 0 {
      assert At(|s.addr|, 0, p) == p;
    }
    if d :| 1 <= d <= r && EntryHome(s.addr[At(|s.addr|, 0, d)]) == 0 {
      assert At(|s.addr|, 0, d) == d;
    }
  }

  // ----- Every block keeps exactly one owner

  ghost predicate SameSlotsExcept(s: Store, t: Store, changed: set<nat>)
    requires Sized(s) && Sized(t)
  {
    forall j {:trigger Slot(s, j)} {:trigger Slot(t, j)} :: 0 <= j < 40 && j !in changed ==> Slot(t, j) == Slot(s, j)
  }

  // Slot `k` gets a new entry: its old block is freed, its new one was free.
  ghost predicate SetSlot(s: Store, t: Store, k: nat)
    requires Sized(s)
  {
    && Sized(t) && k < 40 && SameSlotsExcept(s, t, {k})
    && var e := Slot(t, k); var freed := s.xms - {Slot(s, k).hostTable};
       && SlotOk(t, e) && e.hostTable !in freed
       && t.xms == if e.hostTable == 0 then freed else freed[e.hostTable := t.xms[e.hostTable]]
  }

  lemma SetSlotOk(s: Store, t: Store, k: nat, j: nat)
    requires Owned(s) && SetSlot(s, t, k) && j < 40
    ensures SlotOk(t, Slot(t, j))
  {
    if j != k {
      assert Slot(t, j) == Slot(s, j) && SlotOk(s, Slot(s, j));
      assert Slot(s, j).hostTable != Slot(s, k).hostTable || Slot(s, j).hostTable == 0;
    }
  }

  lemma SetSlotApart(s: Store, t: Store, k: nat, i: nat, j: nat)
    requires Owned(s) && SetSlot(s, t, k) && i < 40 && j < 40 && i != j
    ensures Slot(t, i).hostTable != Slot(t, j).hostTable || Slot(t, i).hostTable == 0
  {
    SetSlotFresh(s, t, k, i);
    SetSlotFresh(s, t, k, j);
    if i != k && j != k {
      assert Slot(t, i) == Slot(s, i) && Slot(t, j) == Slot(s, j);
    }
  }

  // The new block is nobody else's.
  lemma SetSlotFresh(s: Store, t: Store, k: nat, j: nat)
    requires Owned(s) && SetSlot(s, t, k) && j < 40
    ensures j != k ==> Slot(t, j).hostTable != Slot(t, k).hostTable || Slot(t, j).hostTable == 0
  {
    if j != k {
      assert Slot(t, j) == Slot(s, j) && SlotOk(s, Slot(s, j));
      assert Slot(s, j).hostTable != Slot(s, k).hostTable || Slot(s, j).hostTable == 0;
    }
  }

  lemma SetSlotUsed(s: Store, t: Store, k: nat, h: nat)
    requires Owned(s) && SetSlot(s, t, k) && h in t.xms
    ensures exists j :: 0 <= j < 40 && Slot(t, j).hostTable == h
  {
    if h != Slot(t, k).hostTable {
      assert h in s.xms;
      var j :| 0 <= j < 40 && Slot(s, j).hostTable == h;
      assert Slot(t, j) == Slot(s, j);
    }
  }

  lemma SetSlotOwned(s: Store, t: Store, k: nat)
    requires Owned(s) && SetSlot(s, t, k)
    ensures Owned(t)
  {
    forall j | 0 <= j < 40
      ensures SlotOk(t, Slot(t, j))
    {
      SetSlotOk(s, t, k, j);
    }
    forall i, j | 0 <= i < 40 && 0 <= j < 40 && i != j
      ensures Slot(t, i).hostTable != Slot(t, j).hostTable || Slot(t, i).hostTable == 0
    {
      SetSlotApart(s, t, k, i, j);
    }
    forall h | h in t.xms
      ensures exists j :: 0 <= j < 40 && Slot(t, j).hostTable == h
    {
      SetSlotUsed(s, t, k, h);
    }
  }

  // A block moves from slot `from` to slot `to`, which has none.
  ghost predicate Moved(s: Store, t: Store, from: nat, to: nat)
    requires Sized(s)
  {
    && Sized(t) && from < 40 && to < 40 && from != to && SameSlotsExcept(s, t, {from, to})
    && t.xms == s.xms && Slot(s, to).hostTable == 0
    && Slot(t, to).network == Slot(s, from).network && Slot(t, to).hostTable == Slot(s, from).hostTable
    && Slot(t, from).network == 0 && Slot(t, from).hostTable == 0
  }

  lemma MoveOwned(s: Store, t: Store, from: nat, to: nat)
    requires Owned(s) && Moved(s, t, from, to)
    ensures Owned(t)
  {
  }

  lemma WriteOwned(s: Store, t: Store, h: nat)
    requires Owned(s) && h in s.xms && t == s.(xms := t.xms)
    requires h in t.xms && t.xms == s.xms[h := t.xms[h]] && |t.xms[h]| == |s.xms[h]|
    ensures Owned(t)
  {
    assert forall j :: 0 <= j < 40 ==> Slot(t, j) == Slot(s, j);
    assert forall j :: 0 <= j < 40 ==> SlotOk(s, Slot(s, j));
  }

  lemma BeginOwned(s: Store, n: nat, alloc: nat, junk: seq<Byte>)
    requires Owned(s) && Supported(n) && BeginSlot(s, n) < MAX_NUM_NEW_NETWORKS && AllocOk(s, n, alloc, junk)
    ensures Owned(Begin(s, n, alloc, junk))
  {
    SetSlotOwned(s, Begin(s, n, alloc, junk), MAX_NUM_NETWORKS + BeginSlot(s, n));
  }

  // The slot for network `n` emptied.
  function Vacated(s: Store, n: nat): Store
    requires Sized(s) && SlotFor(s.addr, n).Some?
  {
    var p := SlotFor(s.addr, n).value;
    s.(addr := s.addr[p := NO_ENTRY], xms := s.xms - {s.addr[p].hostTable}, cache := Flushed())
  }

  lemma VacatedOwned(s: Store, n: nat)
    requires Owned(s) && SlotFor(s.addr, n).Some?
    ensures Owned(Vacated(s, n))
  {
    SetSlotOwned(s, Vacated(s, n), SlotFor(s.addr, n).value);
  }

  lemma FinishMoves(s: Store, n: nat, i: nat)
    requires Owned(s) && i < MAX_NUM_NEW_NETWORKS && s.staged[i].network == n && n != 0 && SlotFor(s.addr, n).Some?
    ensures Moved(Vacated(s, n), Finish(s, n, i).0, MAX_NUM_NETWORKS + i, SlotFor(s.addr, n).value)
  {
  }

  // Installing a staged block when the table has a slot for it.
  lemma FinishOwned(s: Store, n: nat, i: nat)
    requires Owned(s) && i < MAX_NUM_NEW_NETWORKS && s.staged[i].network == n && n != 0 && SlotFor(s.addr, n).Some?
    ensures Owned(Finish(s, n, i).0)
  {
    var mid, p := Vacated(s, n), SlotFor(s.addr, n).value;
    VacatedOwned(s, n);
    FinishMoves(s, n, i);
    MoveOwned(mid, Finish(s, n, i).0, MAX_NUM_NETWORKS + i, p);
  }

  function HandleOf(e: AddrEntry): nat { e.hostTable }

  // A release keeps every block with its network, whatever the table looks like.
  lemma ReleaseOwned(s: Store, n: nat)
    requires Owned(s) && ScanStops(s, n)
    ensures Owned(HandleRelease(s, n).0)
  {
    HomeInRange(n);
    var i := ReleaseSlot(s, n);
    if i < MAX_NUM_NETWORKS {
      var t := HandleRelease(s, n).0;
      var mid := s.(addr := s.addr[i := NO_ENTRY], xms := t.xms, cache := Flushed());
      SetSlotOwned(s, mid, i);
      HandlesDistinct(mid);
      ClearedPermutes(s.addr, EntryHome, HandleOf, NO_ENTRY, i, Home(n));
      PermuteOwned(mid, t);
    }
  }

  lemma HandlesDistinct(s: Store)
    requires Owned(s)
    ensures Distinct(s.addr, EntryHome, HandleOf)
  {
    forall i, j | 0 <= i < |s.addr| && 0 <= j < |s.addr| && i != j && s.addr[i].network != 0 && s.addr[j].network != 0
      ensures s.addr[i].hostTable != s.addr[j].hostTable
    {
      assert Slot(s, i) == s.addr[i] && Slot(s, j) == s.addr[j] && SlotOk(s, Slot(s, i));
    }
  }

  // Rearranging the loaded networks moves no block to another network.
  lemma PermuteOwned(s: Store, t: Store)
    requires Owned(s) && t == s.(addr := t.addr) && |t.addr| == |s.addr| && multiset(t.addr) == multiset(s.addr)
    requires Distinct(t.addr, EntryHome, HandleOf)
    ensures Owned(t)
  {
    forall j | 0 <= j < 40
      ensures SlotOk(t, Slot(t, j))
      ensures exists i :: 0 <= i < 40 && Slot(s, i) == Slot(t, j) && (j >= 32 ==> i == j) && (j < 32 ==> i < 32)
    {
      if j < 32 {
        assert t.addr[j] in multiset(s.addr);
        var i :| 0 <= i < |s.addr| && s.addr[i] == t.addr[j];
        assert Slot(s, i) == Slot(t, j) && SlotOk(s, Slot(s, i));
      } else {
        assert Slot(s, j) == Slot(t, j) && SlotOk(s, Slot(s, j));
      }
    }
    forall i, j | 0 <= i < 40 && 0 <= j < 40 && i != j
      ensures Slot(t, i).hostTable != Slot(t, j).hostTable || Slot(t, i).hostTable == 0
    {
      assert SlotOk(t, Slot(t, i)) && SlotOk(t, Slot(t, j));
      if i < 32 && j < 32 {
        assert Slot(t, i) == t.addr[i] && Slot(t, j) == t.addr[j];
      } else {
        var i' :| 0 <= i' < 40 && Slot(s, i') == Slot(t, i) && (i >= 32 ==> i' == i) && (i < 32 ==> i' < 32);
        var j' :| 0 <= j' < 40 && Slot(s, j') == Slot(t, j) && (j >= 32 ==> j' == j) && (j < 32 ==> j' < 32);
      }
    }
    forall h | h in t.xms
      ensures exists j :: 0 <= j < 40 && Slot(t, j).hostTable == h
    {
      var j :| 0 <= j < 40 && Slot(s, j).hostTable == h;
      if j < 32 {
        assert s.addr[j] in multiset(t.addr);
        var i :| 0 <= i < |t.addr| && t.addr[i] == s.addr[j];
        assert Slot(t, i).hostTable == h;
      } else {
        assert Slot(t, j).hostTable == h;
      }
    }
  }
}
