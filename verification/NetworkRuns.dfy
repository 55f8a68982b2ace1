// Runs of lookups, load messages and releases: the cache never shows.
module NetworkRuns {
  import opened LinearProbing
  import opened NetworkEdits
  import opened NetworkStore
  import opened NetworkTable

  // ----- Loads

  // A piece for a staged network, within its block.
  predicate PieceFits(s: Store, load: Load)
    requires |load.data| == 1024
  {
    var i := FirstStaged(s.staged, load.network, 0);
    && i < |s.staged| && s.staged[i].hostTable in s.xms
    && load.offset + |Piece(load)| <= |s.xms[s.staged[i].hostTable]|
  }

  // A BEGIN message that gets a staging slot and a block, with a piece within it.
  predicate BeginFits(s: Store, load: Load, alloc: nat)
    requires |load.data| == 1024
  {
    && (FirstStaged(s.staged, load.network, 0) < |s.staged| || FirstStaged(s.staged, 0, 0) < |s.staged|)
    && alloc != 0 && load.offset + |Piece(load)| <= AllocatedSize(load.network)
  }

  // The message is an END that gets as far as the installation, for a network that
  // a full table does not hold.
  predicate InstallsInFullTable(s: Store, load: Load, alloc: nat)
    requires |s.addr| == MAX_NUM_NETWORKS && |load.data| == 1024
  {
    && Supported(load.network) && load.end && SlotFor(s.addr, load.network) == None
    && if load.begin then BeginFits(s, load, alloc) else PieceFits(s, load)
  }

  // The loaded networks, their blocks and the cache are as they were.
  ghost predicate SameLoaded(s: Store, t: Store) {
    && t.addr == s.addr && t.cache == s.cache
    && forall k {:trigger s.addr[k]} :: 0 <= k < |s.addr| && s.addr[k].hostTable in s.xms ==>
         s.addr[k].hostTable in t.xms && t.xms[s.addr[k].hostTable] == s.xms[s.addr[k].hostTable]
  }

  lemma SameLoadedAnswers(s: Store, t: Store)
    requires Owned(s) && Owned(t) && SameLoaded(s, t)
    ensures forall host :: Classify(t, host) == Classify(s, host)
    ensures CacheOk(s) ==> CacheOk(t)
  {
    forall host
      ensures Classify(t, host) == Classify(s, host)
    {
      var n := NetworkPart(host);
      if n.Some? {
        var p := Locate(s.addr, n.value);
        if p.Some? {
          NetworkPartFacts(host);
          assert Slot(s, p.value) == s.addr[p.value] && SlotOk(s, Slot(s, p.value));
        }
      }
    }
    if CacheOk(s) {
      forall i | 0 <= i < |t.cache|
        ensures BlockOk(t, t.cache[i])
      {
        assert BlockOk(s, s.cache[i]);
      }
    }
  }

  lemma BeginKeepsLoaded(s: Store, n: nat, alloc: nat, junk: seq<Byte>)
    requires Owned(s) && Supported(n) && BeginSlot(s, n) < MAX_NUM_NEW_NETWORKS && AllocOk(s, n, alloc, junk)
    ensures Owned(Begin(s, n, alloc, junk)) && SameLoaded(s, Begin(s, n, alloc, junk))
  {
    BeginOwned(s, n, alloc, junk);
    var k := MAX_NUM_NETWORKS + BeginSlot(s, n);
    forall j | 0 <= j < |s.addr| && s.addr[j].hostTable in s.xms
      ensures s.addr[j].hostTable != Slot(s, k).hostTable
    {
      assert Slot(s, j) == s.addr[j];
    }
  }

  lemma WriteKeepsLoaded(s: Store, i: nat, block: seq<Byte>)
    requires Owned(s) && i < MAX_NUM_NEW_NETWORKS
    requires s.staged[i].hostTable in s.xms && |block| == |s.xms[s.staged[i].hostTable]|
    ensures var t := s.(xms := s.xms[s.staged[i].hostTable := block]); Owned(t) && SameLoaded(s, t)
  {
    WriteOwned(s, s.(xms := s.xms[s.staged[i].hostTable := block]), s.staged[i].hostTable);
    forall j | 0 <= j < |s.addr| && s.addr[j].hostTable in s.xms
      ensures s.addr[j].hostTable != s.staged[i].hostTable
    {
      assert Slot(s, j) == s.addr[j] && Slot(s, MAX_NUM_NETWORKS + i) == s.staged[i];
    }
  }

  // What a step leaves: correct ownership, and either the loaded networks and the
  // cache as they were or an empty cache.
  ghost predicate Kept(s: Store, t: Store) {
    Owned(t) && (SameLoaded(s, t) || t.cache == Flushed())
  }

  lemma PieceKeeps(s: Store, load: Load)
    requires Owned(s) && |load.data| == 1024 && Supported(load.network)
    requires load.end && PieceFits(s, load) ==> SlotFor(s.addr, load.network).Some?
    ensures HandlePiece(s, load).Done? ==> Kept(s, HandlePiece(s, load).store)
  {
    var n := load.network;
    var i := FirstStaged(s.staged, n, 0);
    if HandlePiece(s, load).Done? && i < MAX_NUM_NEW_NETWORKS {
      var h := s.staged[i].hostTable;
      var block := Overwrite(s.xms[h], load.offset, Piece(load));
      WriteKeepsLoaded(s, i, block);
      if load.end {
        FinishOwned(s.(xms := s.xms[h := block]), n, i);
      }
    }
  }

  // A load message that does not install into a full table.
  lemma LoadKeeps(s: Store, load: Load, alloc: nat, junk: seq<Byte>)
    requires Owned(s) && |load.data| == 1024 && AllocOk(s, load.network, alloc, junk)
    requires !InstallsInFullTable(s, load, alloc)
    ensures HandleLoad(s, load, alloc, junk).Done? ==> Kept(s, HandleLoad(s, load, alloc, junk).store)
  {
    var n := load.network;
    if Supported(n) {
      if !load.begin {
        PieceKeeps(s, load);
      } else if BeginSlot(s, n) < MAX_NUM_NEW_NETWORKS {
        BeginKeepsLoaded(s, n, alloc, junk);
        if alloc != 0 {
          var t := Begin(s, n, alloc, junk);
          assert t.staged[BeginSlot(s, n)].network == n;
          assert FirstStaged(t.staged, n, 0) == BeginSlot(s, n);
          PieceKeeps(t, load);
        }
      }
    }
  }

  lemma ReleaseKeepsBlocks(s: Store, n: nat)
    requires Owned(s) && ScanStops(s, n)
    ensures Kept(s, HandleRelease(s, n).0)
  {
    ReleaseOwned(s, n);
  }

  lemma KeptCache(s: Store, t: Store)
    requires Owned(s) && CacheOk(s) && Kept(s, t)
    ensures CacheOk(t)
  {
    if SameLoaded(s, t) {
      SameLoadedAnswers(s, t);
    } else {
      FlushedIsOk(t);
    }
  }

  // ----- Runs

  datatype Op =
    | LookupOp(host: nat, now: nat)
    | LoadOp(load: Load, alloc: nat, junk: seq<Byte>)
    | ReleaseOp(network: nat)

  datatype Answer = Class(c: Byte) | Replies(replies: seq<Reply>) | Halted

  // Messages carry a whole block, the driver hands out free handles, no END installs
  // into a full table, and a release scan ends.
  ghost predicate Allowed(s: Store, op: Op) {
    Owned(s) &&
    match op
    case LookupOp(_, _) => true
    case LoadOp(load, alloc, junk) =>
      |load.data| == 1024 && AllocOk(s, load.network, alloc, junk) && !InstallsInFullTable(s, load, alloc)
    case ReleaseOp(n) => ScanStops(s, n)
  }

  // A message or release; a lookup goes to `look`.
  ghost function Edit(s: Store, op: Op): (Store, Answer)
    requires Allowed(s, op) && !op.LookupOp?
  {
    match op
    case LoadOp(load, alloc, junk) =>
      (match HandleLoad(s, load, alloc, junk)
       case Done(t, replies) => (t, Replies(replies))
       case Stopped => (s, Halted))
    case ReleaseOp(n) => var (t, replies) := HandleRelease(s, n); (t, Replies(replies))
  }

  ghost function StoreStep(s: Store, op: Op): (Store, Answer)
    requires Allowed(s, op)
  {
    if op.LookupOp? then var (t, c) := Lookup(s, op.host, op.now); (t, Class(c)) else Edit(s, op)
  }

  // The same without a cache: every lookup probes the table and reads the block.
  ghost function SlowStep(s: Store, op: Op): (Store, Answer)
    requires Allowed(s, op)
  {
    if op.LookupOp? then (s, Class(Classify(s, op.host))) else Edit(s, op)
  }

  ghost predicate RunAllowed(s: Store, ops: seq<Op>)
    decreases |ops|
  {
    ops != [] ==>
      Allowed(s, ops[0]) && (StoreStep(s, ops[0]).1 != Halted ==> RunAllowed(StoreStep(s, ops[0]).0, ops[1..]))
  }

  // The answers of a run; the program's exit ends it.
  ghost function RunStore(s: Store, ops: seq<Op>): seq<Answer>
    requires RunAllowed(s, ops)
    decreases |ops|
  {
    if ops == [] then []
    else
      var (t, a) := StoreStep(s, ops[0]);
      [a] + if a == Halted then [] else RunStore(t, ops[1..])
  }

  // The store a run leaves.
  ghost function EndStore(s: Store, ops: seq<Op>): Store
    requires RunAllowed(s, ops)
    decreases |ops|
  {
    if ops == [] then s
    else
      var (t, a) := StoreStep(s, ops[0]);
      if a == Halted then t else EndStore(t, ops[1..])
  }

  predicate WholeBlocks(ops: seq<Op>) {
    forall i {:trigger ops[i]} :: 0 <= i < |ops| && ops[i].LoadOp? ==> |ops[i].load.data| == 1024
  }

  ghost predicate RunSlowAllowed(s: Store, ops: seq<Op>)
    decreases |ops|
  {
    ops != [] ==>
      Allowed(s, ops[0]) && (SlowStep(s, ops[0]).1 != Halted ==> RunSlowAllowed(SlowStep(s, ops[0]).0, ops[1..]))
  }

  ghost function RunSlow(s: Store, ops: seq<Op>): seq<Answer>
    requires RunSlowAllowed(s, ops)
    decreases |ops|
  {
    if ops == [] then []
    else
      var (t, a) := SlowStep(s, ops[0]);
      [a] + if a == Halted then [] else RunSlow(t, ops[1..])
  }

  // The tables and the blocks, without the cache and its counters.
  ghost predicate SameTables(s: Store, t: Store) {
    s.addr == t.addr && s.staged == t.staged && s.xms == t.xms && |s.cache| == |t.cache|
  }

  lemma SameTablesOwned(s: Store, t: Store)
    requires SameTables(s, t) && Owned(s)
    ensures Owned(t) && forall host :: Classify(t, host) == Classify(s, host)
  {
    SameAnswers(s, t);
  }

  // Messages and releases do not look at the cache.
  lemma PieceIgnoresCache(s: Store, t: Store, load: Load)
    requires SameTables(s, t) && Sized(s) && |load.data| == 1024
    ensures var o, r := HandlePiece(s, load), HandlePiece(t, load);
      o.Done? == r.Done? && (o.Done? ==> o.replies == r.replies && SameTables(o.store, r.store))
  {
  }

  lemma LoadIgnoresCache(s: Store, t: Store, load: Load, alloc: nat, junk: seq<Byte>)
    requires SameTables(s, t) && Sized(s) && |load.data| == 1024
    ensures var o, r := HandleLoad(s, load, alloc, junk), HandleLoad(t, load, alloc, junk);
      o.Done? == r.Done? && (o.Done? ==> o.replies == r.replies && SameTables(o.store, r.store))
  {
    if Supported(load.network) {
      if !load.begin {
        PieceIgnoresCache(s, t, load);
      } else if BeginSlot(s, load.network) < MAX_NUM_NEW_NETWORKS {
        PieceIgnoresCache(Begin(s, load.network, alloc, junk), Begin(t, load.network, alloc, junk), load);
      }
    }
  }

  lemma EditIgnoresCache(s: Store, t: Store, op: Op)
    requires SameTables(s, t) && Allowed(s, op) && !op.LookupOp?
    ensures Allowed(t, op) && Edit(s, op).1 == Edit(t, op).1 && SameTables(Edit(s, op).0, Edit(t, op).0)
  {
    SameTablesOwned(s, t);
    if op.LoadOp? {
      LoadIgnoresCache(s, t, op.load, op.alloc, op.junk);
    }
  }

  lemma StepKeepsCache(s: Store, op: Op)
    requires Allowed(s, op) && CacheOk(s)
    ensures Owned(StoreStep(s, op).0) && CacheOk(StoreStep(s, op).0)
  {
    match op
    case LookupOp(host, now) => LookupIsTransparent(s, host, now);
    case LoadOp(load, alloc, junk) =>
      LoadKeeps(s, load, alloc, junk);
      if HandleLoad(s, load, alloc, junk).Done? {
        KeptCache(s, HandleLoad(s, load, alloc, junk).store);
      }
    case ReleaseOp(n) =>
      ReleaseKeepsBlocks(s, n);
      KeptCache(s, HandleRelease(s, n).0);
  }

  // One step with the cache against one without.
  lemma StepIsTransparent(s: Store, t: Store, op: Op)
    requires SameTables(s, t) && Allowed(s, op) && CacheOk(s)
    ensures Allowed(t, op) && StoreStep(s, op).1 == SlowStep(t, op).1
    ensures SameTables(StoreStep(s, op).0, SlowStep(t, op).0)
  {
    SameTablesOwned(s, t);
    if op.LookupOp? {
      LookupIsTransparent(s, op.host, op.now);
    } else {
      EditIgnoresCache(s, t, op);
    }
  }

  // Over any run, clean tables or not: with the cache and without it, every lookup
  // gives the same class and every message the same replies.
  lemma {:induction false} RunIsTransparent(s: Store, t: Store, ops: seq<Op>)
    requires SameTables(s, t) && Owned(s) && CacheOk(s) && RunAllowed(s, ops)
    ensures RunSlowAllowed(t, ops) && RunStore(s, ops) == RunSlow(t, ops)
    decreases |ops|
  {
    if ops != [] {
      StepKeepsCache(s, ops[0]);
      StepIsTransparent(s, t, ops[0]);
      if StoreStep(s, ops[0]).1 != Halted {
        RunIsTransparent(StoreStep(s, ops[0]).0, SlowStep(t, ops[0]).0, ops[1..]);
      }
    }
  }

  function InitialStore(): Store {
    Store(seq(MAX_NUM_NETWORKS, _ => NO_ENTRY), seq(MAX_NUM_NEW_NETWORKS, _ => NO_ENTRY), map[], Flushed(), 0, 0)
  }

  lemma InitialStoreOk()
    ensures Owned(InitialStore()) && CacheOk(InitialStore())
  {
    var s := InitialStore();
    assert forall k :: 0 <= k < 40 ==> Slot(s, k) == NO_ENTRY;
    FlushedIsOk(s);
  }

  // From start-up, over any run of lookups, load messages and releases, every answer
  // is the one that the tables alone give.
  lemma CacheIsInvisible(ops: seq<Op>)
    requires RunAllowed(InitialStore(), ops)
    ensures RunSlowAllowed(InitialStore(), ops) && RunStore(InitialStore(), ops) == RunSlow(InitialStore(), ops)
  {
    InitialStoreOk();
    RunIsTransparent(InitialStore(), InitialStore(), ops);
  }
}
