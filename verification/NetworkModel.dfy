// What the network tables, blocks and cache amount to: two maps, from loaded and
// from staged networks to their blocks of host classes.
module NetworkModel {
  import opened FiniteSets
  import opened LinearProbing
  import opened NetworkEdits
  import opened NetworkRuns
  import opened NetworkStore
  import opened NetworkTable
  import opened Remainders
  import opened ShuffleDelete

  datatype Model = Model(loaded: map<nat, seq<Byte>>, staged: map<nat, seq<Byte>>)

  function ClassOf(m: Model, host: nat): Byte {
    var n := NetworkPart(host);
    if n.Some? && n.value in m.loaded && HostIndex(host) < |m.loaded[n.value]| then m.loaded[n.value][HostIndex(host)]
    else 0
  }

  datatype ModelOutcome = ModelDone(model: Model, replies: seq<Reply>) | ModelStopped

  function PieceModel(m: Model, load: Load): ModelOutcome
    requires |load.data| == 1024
  {
    var n := load.network;
    if n !in m.staged then ModelDone(m, [ErrorReply(FM_ERROR_NONETWORK)])
    else if load.offset + |Piece(load)| > |m.staged[n]| then ModelStopped
    else
      var block := Overwrite(m.staged[n], load.offset, Piece(load));
      if load.end then ModelDone(Model(m.loaded[n := block], m.staged - {n}), [LoadAck])
      else ModelDone(m.(staged := m.staged[n := block]), [LoadAck])
  }

  // A load message on the maps: BEGIN restarts the network's staged block, every
  // message overwrites a piece of it, END makes it the loaded one.
  function LoadModel(m: Model, load: Load, alloc: nat, junk: seq<Byte>): ModelOutcome
    requires |load.data| == 1024
  {
    var n := load.network;
    if !Supported(n) then ModelDone(m, [ErrorReply(FM_ERROR_NONETWORK)])
    else if !load.begin then PieceModel(m, load)
    else if n !in m.staged && |m.staged| == MAX_NUM_NEW_NETWORKS then ModelDone(m, [ErrorReply(FM_ERROR_NOMEMORY)])
    else if alloc == 0 then ModelDone(m.(staged := m.staged - {n}), [ErrorReply(FM_ERROR_NOMEMORY)])
    else PieceModel(m.(staged := m.staged[n := junk]), load)
  }

  function ReleaseModel(m: Model, n: nat): (Model, seq<Reply>) {
    if n in m.loaded then (m.(loaded := m.loaded - {n}), [ReleaseAck]) else (m, [ErrorReply(FM_ERROR_NONETWORK)])
  }

  // ----- The maps a store stands for

  ghost predicate DistinctNetworks(t: seq<AddrEntry>) {
    forall i, j {:trigger t[i], t[j]} ::
      0 <= i < |t| && 0 <= j < |t| && i != j && t[i].network != 0 ==> t[i].network != t[j].network
  }

  // The entries of `t` and the blocks they own spell out `blocks`.
  ghost predicate Spells(t: seq<AddrEntry>, xms: map<nat, seq<Byte>>, blocks: map<nat, seq<Byte>>) {
    && DistinctNetworks(t)
    && 0 !in blocks
    && (forall i {:trigger t[i]} :: 0 <= i < |t| && t[i].network != 0 ==>
          t[i].network in blocks && t[i].hostTable in xms && blocks[t[i].network] == xms[t[i].hostTable])
    && (forall n {:trigger n in blocks} :: n in blocks ==> exists i :: 0 <= i < |t| && t[i].network == n)
  }

  ghost predicate TablesRepresent(s: Store, m: Model) {
    && Owned(s) && TableOk(s.addr)
    && Spells(s.addr, s.xms, m.loaded) && Spells(s.staged, s.xms, m.staged)
  }

  ghost predicate Represents(s: Store, m: Model) {
    TablesRepresent(s, m) && CacheOk(s)
  }

  ghost function Taken(t: seq<AddrEntry>): set<int> {
    set i | 0 <= i < |t| && t[i].network != 0
  }

  lemma SpelledCount(t: seq<AddrEntry>, xms: map<nat, seq<Byte>>, blocks: map<nat, seq<Byte>>)
    requires Spells(t, xms, blocks)
    ensures |blocks| == |Taken(t)|
  {
    var network := map i {:trigger t[i]} | 0 <= i < |t| :: t[i].network;
    forall n | n in blocks
      ensures exists x :: x in Taken(t) && network[x] == n
    {
      var i :| 0 <= i < |t| && t[i].network == n;
      assert i in Taken(t) && network[i] == n;
    }
    ImageSize(Taken(t), network, blocks.Keys);
  }

  // A map is as large as the table that spells it exactly when no slot is empty.
  lemma SpelledSize(t: seq<AddrEntry>, xms: map<nat, seq<Byte>>, blocks: map<nat, seq<Byte>>)
    requires Spells(t, xms, blocks)
    ensures |blocks| <= |t|
    ensures |blocks| < |t| <==> exists i :: 0 <= i < |t| && t[i].network == 0
  {
    SpelledCount(t, xms, blocks);
    CountSlots(|t|, Taken(t));
    if i :| 0 <= i < |t| && i !in Taken(t) {
      assert t[i].network == 0;
    }
    if i :| 0 <= i < |t| && t[i].network == 0 {
      assert i !in Taken(t);
    }
  }

  lemma LookupIsMap(s: Store, m: Model, host: nat)
    requires TablesRepresent(s, m)
    ensures Classify(s, host) == ClassOf(m, host)
  {
    var n := NetworkPart(host);
    if n.Some? {
      NetworkPartFacts(host);
      var p := Locate(s.addr, n.value);
      if p.Some? {
        assert Slot(s, p.value) == s.addr[p.value] && SlotOk(s, Slot(s, p.value));
      } else if n.value in m.loaded {
        var i :| 0 <= i < |s.addr| && s.addr[i].network == n.value;
        InTable(s.addr, i);
      }
    }
  }

  // ----- Changing one entry changes one key

  // The blocks of all entries but `skip` are the same in both memories.
  ghost predicate SameBlocks(t: seq<AddrEntry>, xms: map<nat, seq<Byte>>, xms': map<nat, seq<Byte>>, skip: int) {
    forall i {:trigger t[i]} :: 0 <= i < |t| && i != skip && t[i].network != 0 && t[i].hostTable in xms ==>
      t[i].hostTable in xms' && xms'[t[i].hostTable] == xms[t[i].hostTable]
  }

  ghost predicate SameEntries(t: seq<AddrEntry>, t': seq<AddrEntry>, skip: int) {
    |t'| == |t| && forall i {:trigger t[i]} {:trigger t'[i]} :: 0 <= i < |t| && i != skip ==> t'[i] == t[i]
  }

  lemma SpellsSame(t: seq<AddrEntry>, xms: map<nat, seq<Byte>>, xms': map<nat, seq<Byte>>, blocks: map<nat, seq<Byte>>)
    requires Spells(t, xms, blocks) && SameBlocks(t, xms, xms', -1)
    ensures Spells(t, xms', blocks)
  {
  }

  // Slot `p`, empty or already of that network, takes network `n`.
  lemma SpellsSet(t: seq<AddrEntry>, t': seq<AddrEntry>, xms: map<nat, seq<Byte>>, xms': map<nat, seq<Byte>>,
                  blocks: map<nat, seq<Byte>>, p: nat)
    requires Spells(t, xms, blocks) && SameBlocks(t, xms, xms', p) && SameEntries(t, t', p) && p < |t|
    requires t'[p].network != 0 && t'[p].hostTable in xms'
    requires forall i {:trigger t[i]} :: 0 <= i < |t| && t[i].network == t'[p].network ==> i == p
    requires t[p].network != 0 ==> t[p].network == t'[p].network
    ensures Spells(t', xms', blocks[t'[p].network := xms'[t'[p].hostTable]])
  {
  }

  // Slot `p` is emptied.
  lemma SpellsClear(t: seq<AddrEntry>, t': seq<AddrEntry>, xms: map<nat, seq<Byte>>, xms': map<nat, seq<Byte>>,
                    blocks: map<nat, seq<Byte>>, p: nat)
    requires Spells(t, xms, blocks) && SameBlocks(t, xms, xms', p) && SameEntries(t, t', p) && p < |t|
    requires t'[p].network == 0
    ensures Spells(t', xms', blocks - {t[p].network})
  {
  }

  // Freeing slot `k`'s block, or giving it a new one, leaves all others.
  lemma OthersKeepBlocks(s: Store, k: nat, xms': map<nat, seq<Byte>>)
    requires Owned(s) && k < 40
    requires forall h {:trigger h in xms'} ::
      h in s.xms && h != Slot(s, k).hostTable ==> h in xms' && xms'[h] == s.xms[h]
    ensures SameBlocks(s.addr, s.xms, xms', k)
    ensures SameBlocks(s.staged, s.xms, xms', k - MAX_NUM_NETWORKS)
  {
    forall i | 0 <= i < |s.addr| && i != k && s.addr[i].network != 0
      ensures s.addr[i].hostTable in s.xms && s.addr[i].hostTable in xms'
      ensures xms'[s.addr[i].hostTable] == s.xms[s.addr[i].hostTable]
    {
      assert Slot(s, i) == s.addr[i] && SlotOk(s, Slot(s, i)) && Slot(s, i).hostTable != Slot(s, k).hostTable;
    }
    forall i | 0 <= i < |s.staged| && i != k - MAX_NUM_NETWORKS && s.staged[i].network != 0
      ensures s.staged[i].hostTable in s.xms && s.staged[i].hostTable in xms'
      ensures xms'[s.staged[i].hostTable] == s.xms[s.staged[i].hostTable]
    {
      var j := i + MAX_NUM_NETWORKS;
      assert Slot(s, j) == s.staged[i] && SlotOk(s, Slot(s, j)) && Slot(s, j).hostTable != Slot(s, k).hostTable;
    }
  }

  // ----- Each message

  // With the same loaded networks the cache stays correct.
  lemma CacheStays(s: Store, t: Store, m: Model, m': Model)
    requires Represents(s, m) && TablesRepresent(t, m') && m'.loaded == m.loaded && t.cache == s.cache
    ensures Represents(t, m')
  {
    forall host
      ensures Classify(t, host) == Classify(s, host)
    {
      LookupIsMap(s, m, host);
      LookupIsMap(t, m', host);
    }
    forall i | 0 <= i < |t.cache|
      ensures BlockOk(t, t.cache[i])
    {
      assert BlockOk(s, s.cache[i]);
    }
  }

  // FirstStaged finds exactly the networks of the map.
  lemma StagedIsSpelled(s: Store, m: Model, n: nat)
    requires TablesRepresent(s, m) && n != 0
    ensures n in m.staged <==> FirstStaged(s.staged, n, 0) < MAX_NUM_NEW_NETWORKS
    ensures var i := FirstStaged(s.staged, n, 0);
      i < |s.staged| ==> s.staged[i].hostTable in s.xms && m.staged[n] == s.xms[s.staged[i].hostTable]
    ensures BeginSlot(s, n) == MAX_NUM_NEW_NETWORKS <==> n !in m.staged && |m.staged| == MAX_NUM_NEW_NETWORKS
  {
    var i := FirstStaged(s.staged, n, 0);
    if n in m.staged {
      var j :| 0 <= j < |s.staged| && s.staged[j].network == n;
      assert i <= j;
    }
    SpelledSize(s.staged, s.xms, m.staged);
    var e := FirstStaged(s.staged, 0, 0);
    if j :| 0 <= j < |s.staged| && s.staged[j].network == 0 {
      assert e <= j;
    }
  }

  // A BEGIN message whose block the driver grants.
  lemma BeginRepresents(s: Store, m: Model, n: nat, alloc: nat, junk: seq<Byte>)
    requires Represents(s, m) && Supported(n) && BeginSlot(s, n) < MAX_NUM_NEW_NETWORKS && AllocOk(s, n, alloc, junk)
    requires alloc != 0
    ensures Represents(Begin(s, n, alloc, junk), m.(staged := m.staged[n := junk]))
  {
    var t := Begin(s, n, alloc, junk);
    var i := BeginSlot(s, n);
    BeginOwned(s, n, alloc, junk);
    BeginKeepsOthers(s, n, alloc, junk);
    SpellsSame(s.addr, s.xms, t.xms, m.loaded);
    SpellsSet(s.staged, t.staged, s.xms, t.xms, m.staged, i);
    CacheStays(s, t, m, m.(staged := m.staged[n := junk]));
  }

  lemma RemoveSame(blocks: map<nat, seq<Byte>>, a: nat, b: nat)
    requires a == b || (a !in blocks && b !in blocks)
    ensures blocks - {a} == blocks - {b}
  {
  }

  // A BEGIN message whose block the driver refuses.
  lemma RefusedTables(s: Store, m: Model, n: nat, junk: seq<Byte>)
    requires TablesRepresent(s, m) && Supported(n) && BeginSlot(s, n) < MAX_NUM_NEW_NETWORKS
    ensures TablesRepresent(Begin(s, n, 0, junk), m.(staged := m.staged - {s.staged[BeginSlot(s, n)].network}))
  {
    var t := Begin(s, n, 0, junk);
    BeginOwned(s, n, 0, junk);
    BeginKeepsOthers(s, n, 0, junk);
    SpellsSame(s.addr, s.xms, t.xms, m.loaded);
    SpellsClear(s.staged, t.staged, s.xms, t.xms, m.staged, BeginSlot(s, n));
  }

  lemma RefusedRepresents(s: Store, m: Model, n: nat, junk: seq<Byte>)
    requires Represents(s, m) && Supported(n) && BeginSlot(s, n) < MAX_NUM_NEW_NETWORKS
    ensures Represents(Begin(s, n, 0, junk), m.(staged := m.staged - {n}))
  {
    var i := BeginSlot(s, n);
    RefusedTables(s, m, n, junk);
    StagedIsSpelled(s, m, n);
    RemoveSame(m.staged, s.staged[i].network, n);
    CacheStays(s, Begin(s, n, 0, junk), m, m.(staged := m.staged - {n}));
  }

  lemma BeginKeepsOthers(s: Store, n: nat, alloc: nat, junk: seq<Byte>)
    requires Owned(s) && Supported(n) && BeginSlot(s, n) < MAX_NUM_NEW_NETWORKS && AllocOk(s, n, alloc, junk)
    ensures var t := Begin(s, n, alloc, junk);
      SameBlocks(s.addr, s.xms, t.xms, -1) && SameBlocks(s.staged, s.xms, t.xms, BeginSlot(s, n))
  {
    var i := BeginSlot(s, n);
    assert Slot(s, MAX_NUM_NETWORKS + i) == s.staged[i];
    OthersKeepBlocks(s, MAX_NUM_NETWORKS + i, Begin(s, n, alloc, junk).xms);
  }

  lemma WriteRepresents(s: Store, m: Model, n: nat, i: nat, block: seq<Byte>)
    requires Represents(s, m) && n != 0 && i < |s.staged| && i == FirstStaged(s.staged, n, 0)
    requires s.staged[i].hostTable in s.xms && |block| == |s.xms[s.staged[i].hostTable]|
    ensures Represents(s.(xms := s.xms[s.staged[i].hostTable := block]), m.(staged := m.staged[n := block]))
  {
    var h := s.staged[i].hostTable;
    var t := s.(xms := s.xms[h := block]);
    WriteOwned(s, t, h);
    assert Slot(s, MAX_NUM_NETWORKS + i) == s.staged[i];
    OthersKeepBlocks(s, MAX_NUM_NETWORKS + i, t.xms);
    SpellsSame(s.addr, s.xms, t.xms, m.loaded);
    SpellsSet(s.staged, s.staged, s.xms, t.xms, m.staged, i);
    CacheStays(s, t, m, m.(staged := m.staged[n := block]));
  }

  // The table has a slot for a network it holds, and for any while it has room.
  lemma SlotIsSpelled(s: Store, m: Model, n: nat)
    requires TablesRepresent(s, m) && n != 0
    ensures SlotFor(s.addr, n).Some? <==> n in m.loaded || |m.loaded| < MAX_NUM_NETWORKS
    ensures SlotFor(s.addr, n).Some? ==>
      var p := SlotFor(s.addr, n).value;
      forall i {:trigger s.addr[i]} :: 0 <= i < |s.addr| && s.addr[i].network == n ==> i == p
  {
    SpelledSize(s.addr, s.xms, m.loaded);
    HomeInRange(n);
    FindExact(Networks(s.addr), 0, Home, n);
    forall i {:trigger s.addr[i]} | 0 <= i < |s.addr| && s.addr[i].network == n
      ensures SlotFor(s.addr, n) == Some(i)
    {
      assert Networks(s.addr)[i] == n;
    }
  }

  // END moves the staged block of `n` to the loaded networks.
  lemma FinishLoaded(s: Store, loaded: map<nat, seq<Byte>>, n: nat, i: nat, p: nat)
    requires Sized(s) && i < |s.staged| && SlotFor(s.addr, n) == Some(p) && p < |s.addr|
    requires Spells(s.addr, s.xms, loaded) && n != 0
    requires SameBlocks(s.addr, s.xms, s.xms - {s.addr[p].hostTable}, p)
    requires s.staged[i].hostTable in s.xms - {s.addr[p].hostTable}
    requires forall j {:trigger s.addr[j]} :: 0 <= j < |s.addr| && s.addr[j].network == n ==> j == p
    ensures Spells(Finish(s, n, i).0.addr, Finish(s, n, i).0.xms, loaded[n := s.xms[s.staged[i].hostTable]])
  {
    var t := Finish(s, n, i).0;
    SpellsSet(s.addr, t.addr, s.xms, t.xms, loaded, p);
  }

  lemma FreeKeepsBlocks(s: Store, p: nat)
    requires Owned(s) && p < |s.addr|
    ensures SameBlocks(s.addr, s.xms, s.xms - {s.addr[p].hostTable}, p)
    ensures SameBlocks(s.staged, s.xms, s.xms - {s.addr[p].hostTable}, -1)
  {
    assert Slot(s, p) == s.addr[p];
    OthersKeepBlocks(s, p, s.xms - {s.addr[p].hostTable});
  }

  lemma FinishStaged(s: Store, staged: map<nat, seq<Byte>>, n: nat, i: nat, p: nat)
    requires Sized(s) && i < |s.staged| && SlotFor(s.addr, n) == Some(p) && p < |s.addr| && s.staged[i].network == n
    requires Spells(s.staged, s.xms, staged) && n != 0
    requires SameBlocks(s.staged, s.xms, s.xms - {s.addr[p].hostTable}, -1)
    ensures n in staged && s.staged[i].hostTable in s.xms - {s.addr[p].hostTable}
    ensures staged[n] == s.xms[s.staged[i].hostTable]
    ensures Spells(Finish(s, n, i).0.staged, Finish(s, n, i).0.xms, staged - {n})
  {
    var t := Finish(s, n, i).0;
    assert s.staged[i].network in staged;
    SpellsSame(s.staged, s.xms, t.xms, staged);
    SpellsClear(s.staged, t.staged, t.xms, t.xms, staged, i);
  }

  lemma FinishSpells(s: Store, m: Model, n: nat, i: nat)
    requires TablesRepresent(s, m) && n != 0 && i < |s.staged| && s.staged[i].network == n && SlotFor(s.addr, n).Some?
    ensures var t := Finish(s, n, i).0;
      && n in m.staged
      && Spells(t.addr, t.xms, m.loaded[n := m.staged[n]]) && Spells(t.staged, t.xms, m.staged - {n})
  {
    var p := SlotFor(s.addr, n).value;
    SlotIsSpelled(s, m, n);
    FreeKeepsBlocks(s, p);
    FinishStaged(s, m.staged, n, i, p);
    FinishLoaded(s, m.loaded, n, i, p);
  }

  lemma FinishTables(s: Store, m: Model, n: nat, i: nat)
    requires TablesRepresent(s, m) && n != 0 && i < |s.staged| && s.staged[i].network == n && SlotFor(s.addr, n).Some?
    ensures n in m.staged && TablesRepresent(Finish(s, n, i).0, Model(m.loaded[n := m.staged[n]], m.staged - {n}))
  {
    FinishSpells(s, m, n, i);
    FinishOwned(s, n, i);
    InsertKeepsTable(s.addr, AddrEntry(n, true, s.staged[i].hostTable), SlotFor(s.addr, n).value);
  }

  lemma ReleaseLoaded(s: Store, m: Model, n: nat, i: nat)
    requires TablesRepresent(s, m) && HasRoom(s.addr) && n != 0 && i < |s.addr| && s.addr[i].network == n
    requires TableOk(Released(s.addr, i))
    ensures var xms := s.xms - {s.addr[i].hostTable};
      Spells(Released(s.addr, i), xms, m.loaded - {n}) && Spells(s.staged, xms, m.staged)
  {
    var xms := s.xms - {s.addr[i].hostTable};
    var mid, u := s.addr[i := NO_ENTRY], Released(s.addr, i);
    FreeKeepsBlocks(s, i);
    SpellsSame(s.staged, s.xms, xms, m.staged);
    SpellsClear(s.addr, mid, s.xms, xms, m.loaded, i);
    TableIsDistinct(u);
    var last := ReleaseKeeps(s.addr, i);
    SpellsPermuted(mid, u, xms, m.loaded - {n});
  }

  lemma ReleaseTables(s: Store, m: Model, n: nat)
    requires TablesRepresent(s, m) && n != 0 && ScanStops(s, n)
    requires n in m.loaded ==> ReleaseSlot(s, n) < |s.addr| && CleanToRelease(s.addr, ReleaseSlot(s, n))
    ensures TablesRepresent(HandleRelease(s, n).0, ReleaseModel(m, n).0)
    ensures HandleRelease(s, n).1 == ReleaseModel(m, n).1
    ensures HandleRelease(s, n).0.cache == if n in m.loaded then Flushed() else s.cache
  {
    var i := ReleaseSlot(s, n);
    if n in m.loaded {
      var j :| 0 <= j < |s.addr| && s.addr[j].network == n;
      assert i <= j;
      ReleaseIsReleased(s, n);
      ReleaseIsClean(s.addr, i);
      ReleaseOwned(s, n);
      ReleaseLoaded(s, m, n, i);
    }
  }

  lemma SpellsPermuted(t: seq<AddrEntry>, t': seq<AddrEntry>, xms: map<nat, seq<Byte>>, blocks: map<nat, seq<Byte>>)
    requires Spells(t, xms, blocks) && multiset(t') == multiset(t) && Distinct(t', EntryHome, Key)
    requires forall i {:trigger t'[i]} :: 0 <= i < |t'| && t'[i].network != 0 ==> EntryHome(t'[i]) >= 0
    ensures Spells(t', xms, blocks)
  {
    forall i | 0 <= i < |t'| && t'[i].network != 0
      ensures t'[i].network in blocks && t'[i].hostTable in xms && blocks[t'[i].network] == xms[t'[i].hostTable]
    {
      assert t'[i] in multiset(t);
      var j :| 0 <= j < |t| && t[j] == t'[i];
    }
    forall n | n in blocks
      ensures exists i :: 0 <= i < |t'| && t'[i].network == n
    {
      var j :| 0 <= j < |t| && t[j].network == n;
      assert t[j] in multiset(t');
      var i :| 0 <= i < |t'| && t'[i] == t[j];
    }
    forall i, j | 0 <= i < |t'| && 0 <= j < |t'| && i != j && t'[i].network != 0
      ensures t'[i].network != t'[j].network
    {
      assert t'[j].network != 0 ==> Key(t'[i]) != Key(t'[j]);
    }
  }

  lemma FlushedRepresents(s: Store, m: Model)
    requires TablesRepresent(s, m) && s.cache == Flushed()
    ensures Represents(s, m)
  {
  }

  // What an outcome on the store and one on the maps have in common.
  ghost predicate SameOutcome(o: Outcome, r: ModelOutcome) {
    match o
    case Done(t, replies) => r.ModelDone? && replies == r.replies && Represents(t, r.model)
    case Stopped => r.ModelStopped?
  }

  // The part of a message after BEGIN, once the network has a staging block.
  lemma PieceRepresents(s: Store, m: Model, load: Load)
    requires Represents(s, m) && |load.data| == 1024 && load.network != 0
    requires load.end && PieceFits(s, load) ==> SlotFor(s.addr, load.network).Some?
    ensures SameOutcome(HandlePiece(s, load), PieceModel(m, load))
  {
    var n := load.network;
    StagedIsSpelled(s, m, n);
    if n in m.staged && load.offset + |Piece(load)| <= |m.staged[n]| {
      CopyRepresents(s, m, load);
    }
  }

  lemma CopyRepresents(s: Store, m: Model, load: Load)
    requires Represents(s, m) && |load.data| == 1024 && load.network != 0
    requires load.end ==> SlotFor(s.addr, load.network).Some?
    requires load.network in m.staged && load.offset + |Piece(load)| <= |m.staged[load.network]|
    ensures SameOutcome(HandlePiece(s, load), PieceModel(m, load))
  {
    var n := load.network;
    StagedIsSpelled(s, m, n);
    var i := FirstStaged(s.staged, n, 0);
    var block := Overwrite(m.staged[n], load.offset, Piece(load));
    var u := s.(xms := s.xms[s.staged[i].hostTable := block]);
    WriteRepresents(s, m, n, i, block);
    if load.end {
      EndRepresents(u, m.(staged := m.staged[n := block]), n, i);
      assert HandlePiece(s, load) == Done(Finish(u, n, i).0, [LoadAck]);
      PutThenRemove(m.staged, n, block);
    } else {
      assert HandlePiece(s, load) == Done(u, [LoadAck]);
    }
  }

  lemma PutThenRemove(blocks: map<nat, seq<Byte>>, n: nat, block: seq<Byte>)
    ensures blocks[n := block] - {n} == blocks - {n}
  {
  }

  lemma EndRepresents(s: Store, m: Model, n: nat, i: nat)
    requires Represents(s, m) && n != 0 && i < |s.staged| && s.staged[i].network == n && SlotFor(s.addr, n).Some?
    ensures n in m.staged && Finish(s, n, i).1 == [LoadAck]
    ensures Represents(Finish(s, n, i).0, Model(m.loaded[n := m.staged[n]], m.staged - {n}))
  {
    FinishTables(s, m, n, i);
    FlushedRepresents(Finish(s, n, i).0, Model(m.loaded[n := m.staged[n]], m.staged - {n}));
  }

  lemma LoadFollowsMaps(s: Store, m: Model, load: Load, alloc: nat, junk: seq<Byte>)
    requires Represents(s, m) && |load.data| == 1024 && AllocOk(s, load.network, alloc, junk)
    requires !InstallsInFullTable(s, load, alloc)
    ensures SameOutcome(HandleLoad(s, load, alloc, junk), LoadModel(m, load, alloc, junk))
  {
    var n := load.network;
    if Supported(n) {
      StagedIsSpelled(s, m, n);
      if !load.begin {
        PieceRepresents(s, m, load);
      } else if BeginSlot(s, n) < MAX_NUM_NEW_NETWORKS && alloc == 0 {
        RefusedRepresents(s, m, n, junk);
      } else if BeginSlot(s, n) < MAX_NUM_NEW_NETWORKS {
        BeginRepresents(s, m, n, alloc, junk);
        BegunSlot(s, n, alloc, junk);
        PieceRepresents(Begin(s, n, alloc, junk), m.(staged := m.staged[n := junk]), load);
      }
    }
  }

  // A load message, including every error, does to the tables what it does to the
  // maps exactly when it does not install a new network into a full table.
  lemma LoadRepresents(s: Store, m: Model, load: Load, alloc: nat, junk: seq<Byte>)
    requires Represents(s, m) && |load.data| == 1024 && AllocOk(s, load.network, alloc, junk)
    ensures SameOutcome(HandleLoad(s, load, alloc, junk), LoadModel(m, load, alloc, junk)) <==>
      !InstallsInFullTable(s, load, alloc)
  {
    if InstallsInFullTable(s, load, alloc) {
      FullLoadReplies(s, load, alloc, junk);
    } else {
      LoadFollowsMaps(s, m, load, alloc, junk);
    }
  }

  // ----- Whole runs

  // What the maps need besides: no release of network 0, and none that empties a slot
  // which another network is probed for across.
  ghost predicate Enabled(s: Store, m: Model, op: Op) {
    && Represents(s, m) && Allowed(s, op)
    && (op.ReleaseOp? ==>
          && op.network != 0
          && (op.network in m.loaded ==>
                ReleaseSlot(s, op.network) < |s.addr| && CleanToRelease(s.addr, ReleaseSlot(s, op.network))))
  }

  ghost function ModelStep(m: Model, op: Op): (Model, Answer)
    requires op.LoadOp? ==> |op.load.data| == 1024
  {
    match op
    case LookupOp(host, now) => (m, Class(ClassOf(m, host)))
    case LoadOp(load, alloc, junk) =>
      (match LoadModel(m, load, alloc, junk)
       case ModelDone(m', replies) => (m', Replies(replies))
       case ModelStopped => (m, Halted))
    case ReleaseOp(n) => var (m', replies) := ReleaseModel(m, n); (m', Replies(replies))
  }

  lemma StepRepresents(s: Store, m: Model, op: Op)
    requires Enabled(s, m, op)
    ensures var (t, a) := StoreStep(s, op); var (m', b) := ModelStep(m, op);
      a == b && Represents(t, m')
  {
    match op
    case LookupOp(host, now) =>
      LookupIsTransparent(s, host, now);
      LookupIsMap(s, m, host);
    case LoadOp(load, alloc, junk) =>
      LoadFollowsMaps(s, m, load, alloc, junk);
    case ReleaseOp(n) =>
      ReleaseTables(s, m, n);
      if n in m.loaded {
        FlushedRepresents(HandleRelease(s, n).0, ReleaseModel(m, n).0);
      } else {
        CacheStays(s, HandleRelease(s, n).0, m, m);
      }
  }

  // Every step is enabled; the program's exit ends the run.
  ghost predicate RunEnabled(s: Store, m: Model, ops: seq<Op>)
    decreases |ops|
  {
    ops != [] ==>
      Enabled(s, m, ops[0]) &&
      (StoreStep(s, ops[0]).1 != Halted ==>
         RunEnabled(StoreStep(s, ops[0]).0, ModelStep(m, ops[0]).0, ops[1..]))
  }

  ghost function RunModel(m: Model, ops: seq<Op>): seq<Answer>
    requires WholeBlocks(ops)
    decreases |ops|
  {
    if ops == [] then []
    else
      var (m', a) := ModelStep(m, ops[0]);
      [a] + if a == Halted then [] else RunModel(m', ops[1..])
  }

  ghost function EndModel(m: Model, ops: seq<Op>): Model
    requires WholeBlocks(ops)
    decreases |ops|
  {
    if ops == [] then m
    else
      var (m', a) := ModelStep(m, ops[0]);
      if a == Halted then m' else EndModel(m', ops[1..])
  }

  // Over any run of lookups, load messages and releases, the tables, the blocks
  // and the cache together answer every message as the two maps do, and stand for
  // the maps at its end.
  lemma {:induction false} RunIsMap(s: Store, m: Model, ops: seq<Op>)
    requires Represents(s, m) && RunEnabled(s, m, ops) && WholeBlocks(ops)
    ensures RunAllowed(s, ops) && RunStore(s, ops) == RunModel(m, ops)
    ensures Represents(EndStore(s, ops), EndModel(m, ops))
    decreases |ops|
  {
    if ops != [] {
      StepRepresents(s, m, ops[0]);
      if StoreStep(s, ops[0]).1 != Halted {
        RunIsMap(StoreStep(s, ops[0]).0, ModelStep(m, ops[0]).0, ops[1..]);
      }
    }
  }

  // Start-up, with no network files: nothing loaded, nothing staged.
  lemma InitialRepresents()
    ensures Represents(InitialStore(), Model(map[], map[]))
  {
    InitialStoreOk();
  }

  // ----- What a load message does to lookups

  // After a message, hosts are answered from the map it leaves.
  lemma LoadAnswers(s: Store, m: Model, load: Load, alloc: nat, junk: seq<Byte>, host: nat)
    requires Represents(s, m) && |load.data| == 1024 && AllocOk(s, load.network, alloc, junk)
    requires !InstallsInFullTable(s, load, alloc) && HandleLoad(s, load, alloc, junk).Done?
    ensures Classify(s, host) == ClassOf(m, host)
    ensures var o, r := HandleLoad(s, load, alloc, junk), LoadModel(m, load, alloc, junk);
      r.ModelDone? && r.replies == o.replies && Owned(o.store) && Classify(o.store, host) == ClassOf(r.model, host)
    ensures load.network in m.staged ==> |m.staged[load.network]| == AllocatedSize(load.network)
  {
    LoadFollowsMaps(s, m, load, alloc, junk);
    LookupIsMap(s, m, host);
    LookupIsMap(HandleLoad(s, load, alloc, junk).store, LoadModel(m, load, alloc, junk).model, host);
    StagedBlockSize(s, m, load.network);
  }

  // Until END, and after an error, a load changes no answer; only an installation into
  // a full table, which is refused and acknowledged, does.
  lemma LoadIsHidden(s: Store, m: Model, load: Load, alloc: nat, junk: seq<Byte>, host: nat)
    requires Represents(s, m) && |load.data| == 1024 && AllocOk(s, load.network, alloc, junk)
    requires !InstallsInFullTable(s, load, alloc)
    requires var o := HandleLoad(s, load, alloc, junk); o.Done? && (!load.end || o.replies != [LoadAck])
    ensures Owned(HandleLoad(s, load, alloc, junk).store)
    ensures Classify(HandleLoad(s, load, alloc, junk).store, host) == Classify(s, host)
  {
    LoadAnswers(s, m, load, alloc, junk, host);
    KeepsLoaded(m, load, alloc, junk);
  }

  lemma KeepsLoaded(m: Model, load: Load, alloc: nat, junk: seq<Byte>)
    requires |load.data| == 1024
    ensures var r := LoadModel(m, load, alloc, junk);
      r.ModelDone? && (!load.end || r.replies != [LoadAck]) ==> r.model.loaded == m.loaded
  {
  }

  // An accepted END makes the network answer from its assembled block, all at
  // once, and leaves every other host's answer alone.
  lemma EndInstalls(s: Store, m: Model, load: Load, alloc: nat, junk: seq<Byte>, host: nat)
    requires Represents(s, m) && |load.data| == 1024 && AllocOk(s, load.network, alloc, junk) && load.end
    requires HandleLoad(s, load, alloc, junk).Done? && HandleLoad(s, load, alloc, junk).replies == [LoadAck]
    ensures Assembled(m, load, alloc, junk).Some? && Owned(HandleLoad(s, load, alloc, junk).store)
    ensures |Assembled(m, load, alloc, junk).value| == AllocatedSize(load.network)
    ensures NetworkPart(host) == Some(load.network) ==> HostIndex(host) < AllocatedSize(load.network)
    ensures Classify(HandleLoad(s, load, alloc, junk).store, host) ==
      if NetworkPart(host) == Some(load.network) then Assembled(m, load, alloc, junk).value[HostIndex(host)]
      else Classify(s, host)
  {
    if InstallsInFullTable(s, load, alloc) {
      FullLoadReplies(s, load, alloc, junk);
    }
    LoadAnswers(s, m, load, alloc, junk, host);
    AssembledIsLoaded(m, load, alloc, junk);
    var r := LoadModel(m, load, alloc, junk);
    NetworkPartFacts(host);
    assert r.model.loaded == m.loaded[load.network := Assembled(m, load, alloc, junk).value];
  }

  // The block an END message installs: what was staged, or the fresh block of a
  // message that is also BEGIN, with the message's piece written over it.
  function Assembled(m: Model, load: Load, alloc: nat, junk: seq<Byte>): Option<seq<Byte>>
    requires |load.data| == 1024
  {
    var before :=
      if load.begin then Some(junk) else if load.network in m.staged then Some(m.staged[load.network]) else None;
    if before.Some? && load.offset + |Piece(load)| <= |before.value| then
      Some(Overwrite(before.value, load.offset, Piece(load)))
    else None
  }

  lemma AssembledIsLoaded(m: Model, load: Load, alloc: nat, junk: seq<Byte>)
    requires |load.data| == 1024 && load.end
    ensures var r := LoadModel(m, load, alloc, junk);
      r.ModelDone? && r.replies == [LoadAck] ==>
        Assembled(m, load, alloc, junk).Some? &&
        r.model.loaded == m.loaded[load.network := Assembled(m, load, alloc, junk).value]
  {
  }

  lemma StagedBlockSize(s: Store, m: Model, n: nat)
    requires Represents(s, m)
    ensures n in m.staged ==> Supported(n) && |m.staged[n]| == AllocatedSize(n)
  {
    if n in m.staged {
      var i :| 0 <= i < |s.staged| && s.staged[i].network == n;
      assert Slot(s, MAX_NUM_NETWORKS + i) == s.staged[i] && SlotOk(s, Slot(s, MAX_NUM_NETWORKS + i));
    }
  }

  predicate IsMasked(n: nat) {
    n % (if IsClassB(n) then 0x10000 else 0x100) == 0
  }

  // A loaded network answers for some host exactly when its host bits are zero:
  // a number with host bits set is the network part of no host.
  lemma OnlyMaskedNetworksAnswer(n: nat, host: nat)
    requires Supported(n)
    ensures NetworkPart(host) == Some(n) ==> IsMasked(n)
    ensures IsMasked(n) ==> NetworkPart(n) == Some(n)
  {
    if NetworkPart(host) == Some(n) && IsClassB(host) {
      Rem64K(n, host / 0x10000, 0);
    } else if NetworkPart(host) == Some(n) {
      Rem256(n, host / 0x100, 0);
    }
  }

  // ----- A full table

  // A begun network is found in its staging slot.
  lemma BegunSlot(s: Store, n: nat, alloc: nat, junk: seq<Byte>)
    requires Sized(s) && n != 0 && alloc != 0 && BeginSlot(s, n) < MAX_NUM_NEW_NETWORKS
    ensures FirstStaged(Begin(s, n, alloc, junk).staged, n, 0) == BeginSlot(s, n)
  {
    assert Begin(s, n, alloc, junk).staged[BeginSlot(s, n)].network == n;
  }

  // An installation into a full table is refused and acknowledged.
  lemma FullLoadReplies(s: Store, load: Load, alloc: nat, junk: seq<Byte>)
    requires Sized(s) && |load.data| == 1024 && AllocOk(s, load.network, alloc, junk)
    requires InstallsInFullTable(s, load, alloc)
    ensures var o := HandleLoad(s, load, alloc, junk); var n := load.network;
      && o.Done? && o.replies == [ErrorReply(FM_ERROR_NONETWORK), LoadAck] && Sized(o.store) && Home(n) < |s.addr|
      && o.store.addr == s.addr[Home(n) := AddrEntry(n, true, 0)]
      && s.addr[Home(n)].hostTable !in o.store.xms
  {
    HomeInRange(load.network);
    if load.begin {
      BegunSlot(s, load.network, alloc, junk);
    }
  }

  // It destroys the entry in the network's home slot: that network's block is freed
  // and no search finds it, and the slot names the new network without a block.
  lemma FullLoadDestroys(s: Store, load: Load, alloc: nat, junk: seq<Byte>)
    requires Owned(s) && TableOk(s.addr) && |load.data| == 1024 && AllocOk(s, load.network, alloc, junk)
    requires InstallsInFullTable(s, load, alloc)
    ensures Home(load.network) < |s.addr|
    ensures var o := HandleLoad(s, load, alloc, junk); var lost := s.addr[Home(load.network)];
      && Locate(s.addr, lost.network).Some? && lost.hostTable in s.xms
      && o.Done? && o.replies == [ErrorReply(FM_ERROR_NONETWORK), LoadAck]
      && lost.hostTable !in o.store.xms && |o.store.addr| == MAX_NUM_NETWORKS
      && Locate(o.store.addr, lost.network) == None && !Owned(o.store)
  {
    var n := load.network;
    HomeInRange(n);
    FullLoadReplies(s, load, alloc, junk);
    var t, h := HandleLoad(s, load, alloc, junk).store, Home(n);
    var lost := s.addr[h];
    assert lost.network != 0 && lost.network != n;
    InTable(s.addr, h);
    assert Slot(s, h) == lost && SlotOk(s, Slot(s, h));
    LostIsGone(s.addr, t.addr, h);
    assert Slot(t, h) == t.addr[h] && !SlotOk(t, Slot(t, h));
  }

  lemma LostIsGone(t: seq<AddrEntry>, u: seq<AddrEntry>, h: nat)
    requires TableOk(t) && h < |t| && t[h].network != 0
    requires |u| == |t| && u[h].network != t[h].network && forall i :: 0 <= i < |t| && i != h ==> u[i] == t[i]
    ensures Locate(u, t[h].network) == None
  {
    TableIsDistinct(t);
    assert forall i :: 0 <= i < |t| && i != h ==> Key(t[i]) != Key(t[h]);
  }

  // A full table that meets it: network 192.k.0.0, k in steps of eight, in each slot,
  // and 192.0.1.0 staged.
  function FullEntry(k: nat): (e: AddrEntry)
    requires k < MAX_NUM_NETWORKS
    ensures e.network != 0 && Supported(e.network) && Home(e.network) == k && e.hostTable == k + 1
  {
    AddrEntry(0xC0000000 + 0x80000 * k, false, k + 1)
  }

  // Blocks 1 to n, each with room for the hosts of one class C network.
  function ZeroBlocks(n: nat): (r: map<nat, seq<Byte>>)
    ensures forall h {:trigger h in r} :: h in r <==> 1 <= h <= n
    ensures forall h {:trigger r[h]} :: 1 <= h <= n ==> |r[h]| == AllocatedSize(0xC0000100)
  {
    if n == 0 then map[] else ZeroBlocks(n - 1)[n := seq(AllocatedSize(0xC0000100), _ => 0)]
  }

  const FULL_TABLE := seq(MAX_NUM_NETWORKS, k requires 0 <= k < MAX_NUM_NETWORKS => FullEntry(k))

  const FULL_STORE := Store(FULL_TABLE,
                            [AddrEntry(0xC0000100, false, 33)] + seq(MAX_NUM_NEW_NETWORKS - 1, _ => NO_ENTRY),
                            ZeroBlocks(33), Flushed(), 0, 0)

  const FULL_END := Load(0xC0000100, 0, false, true, seq(1024, _ => 0))

  lemma FullSlot(k: nat)
    requires k < 40
    ensures Slot(FULL_STORE, k) ==
      if k < 32 then FullEntry(k) else if k == 32 then AddrEntry(0xC0000100, false, 33) else NO_ENTRY
  {
  }

  lemma FullStoreOwned()
    ensures Owned(FULL_STORE)
  {
    forall k | 0 <= k < 40
      ensures SlotOk(FULL_STORE, Slot(FULL_STORE, k))
    {
      FullSlot(k);
    }
    forall j, k | 0 <= j < 40 && 0 <= k < 40 && j != k
      ensures Slot(FULL_STORE, j).hostTable != Slot(FULL_STORE, k).hostTable || Slot(FULL_STORE, j).hostTable == 0
    {
      FullSlot(j);
      FullSlot(k);
    }
    forall h | h in FULL_STORE.xms
      ensures exists k :: 0 <= k < 40 && Slot(FULL_STORE, k).hostTable == h
    {
      FullSlot(h - 1);
    }
  }

  lemma FullTableOk()
    ensures TableOk(FULL_TABLE)
    ensures SlotFor(FULL_TABLE, 0xC0000100) == None
  {
    forall i | 0 <= i < |FULL_TABLE| && Networks(FULL_TABLE)[i] != 0
      ensures Reachable(Networks(FULL_TABLE), 0, Home, i)
    {
      assert Home(Networks(FULL_TABLE)[i]) == i;
    }
    assert forall i :: 0 <= i < |FULL_TABLE| ==> FULL_TABLE[i] == FullEntry(i);
  }

  lemma FullStoreFits()
    ensures AllocOk(FULL_STORE, FULL_END.network, 0, []) && PieceFits(FULL_STORE, FULL_END)
  {
    var k := FirstStaged(FULL_STORE.staged, FULL_END.network, 0);
    assert FULL_STORE.staged[0] == AddrEntry(0xC0000100, false, 33);
    assert k == 0;
  }

  // One END message is enough to destroy the loaded network in slot 0.
  lemma FullStoreIsMet()
    ensures Owned(FULL_STORE) && TableOk(FULL_STORE.addr) && FULL_STORE.addr[Home(FULL_END.network)] == FullEntry(0)
    ensures AllocOk(FULL_STORE, FULL_END.network, 0, []) && InstallsInFullTable(FULL_STORE, FULL_END, 0)
  {
    FullStoreOwned();
    FullTableOk();
    FullStoreFits();
  }
}
