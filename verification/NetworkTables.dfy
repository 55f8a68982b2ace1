// The code that keeps the network tables: probing, the cache, staged loads and
// releases, on arrays updated in place.
module NetworkTables {
  import opened LinearProbing
  import opened NetworkEdits
  import opened NetworkStore
  import opened NetworkTable
  import opened ShuffleDelete

  class Tables {
    const addrTable: array<AddrEntry>
    const newAddrTable: array<AddrEntry>
    const networkCache: array<CacheEntry>
    var xms: map<nat, seq<Byte>>
    var cacheAccesses: nat
    var cacheMisses: nat

    ghost predicate Valid()
      reads this
    {
      && addrTable.Length == MAX_NUM_NETWORKS
      && newAddrTable.Length == MAX_NUM_NEW_NETWORKS
      && networkCache.Length == NUM_NETWORK_CACHE_ENTRIES
      && addrTable != newAddrTable
    }

    ghost function Value(): (s: Store)
      requires Valid()
      reads this, addrTable, newAddrTable, networkCache
      ensures Sized(s)
    {
      Store(addrTable[..], newAddrTable[..], xms, networkCache[..], cacheAccesses, cacheMisses)
    }

    constructor ()
      ensures Valid() && fresh(addrTable) && fresh(newAddrTable) && fresh(networkCache)
      ensures addrTable[..] == seq(MAX_NUM_NETWORKS, _ => NO_ENTRY)
      ensures newAddrTable[..] == seq(MAX_NUM_NEW_NETWORKS, _ => NO_ENTRY)
      ensures networkCache[..] == Flushed() && xms == map[] && cacheAccesses == cacheMisses == 0
    {
      addrTable := new AddrEntry[MAX_NUM_NETWORKS](_ => NO_ENTRY);
      newAddrTable := new AddrEntry[MAX_NUM_NEW_NETWORKS](_ => NO_ENTRY);
      networkCache := new CacheEntry[NUM_NETWORK_CACHE_ENTRIES](_ => NO_BLOCK);
      xms := map[];
      cacheAccesses, cacheMisses := 0, 0;
    }

    // The first slot on the probe path of `network` that holds it or is empty; -1
    // when the search comes back to where it started.
    method Probe(network: nat) returns (curr: int)
      requires Valid()
      ensures var slot := SlotFor(addrTable[..], network);
        curr == if slot.Some? then slot.value else -1
    {
      var hash := Home(network);
      curr := hash;
      ghost var k := 0;
      ghost var keys := Networks(addrTable[..]);
      while addrTable[curr].network != network && addrTable[curr].network != 0
        invariant 0 <= k < MAX_NUM_NETWORKS && curr == At(MAX_NUM_NETWORKS, hash, k)
        invariant Passed(keys, 0, network, hash, k)
        decreases MAX_NUM_NETWORKS - k
      {
        curr := Next(MAX_NUM_NETWORKS, curr);
        k := k + 1;
        if curr == hash {
          SlotIsFirst(keys, 0, network, hash, k);
          return -1;
        }
      }
      SlotIsFirst(keys, 0, network, hash, k);
    }

    method NetworkCacheFetch(host: nat, entry: nat, now: nat) returns (answer: Byte)
      requires Valid() && Owned(Value()) && entry < networkCache.Length
      modifies this`cacheMisses, networkCache
      ensures Valid() && (Value(), answer) == Fetch(old(Value()), host, entry, now)
    {
      if !Supported(host) {
        return 0;
      }
      var network := if IsClassB(host) then host - host % 0x10000 else host - host % 0x100;
      var curr := Probe(network);
      if curr == -1 || addrTable[curr].network != network {
        return 0;
      }
      NetworkPartFacts(host);
      TagFacts(host);
      assert Slot(Value(), curr) == addrTable[curr] && SlotOk(Value(), Slot(Value(), curr));
      cacheMisses := (cacheMisses + 1) % DWORD;
      var block := xms[addrTable[curr].hostTable];
      var offset := HostIndex(Tag(host));
      networkCache[entry] := CacheEntry(Tag(host), block[offset], block[offset + 1], now);
      answer := Indicated(networkCache[entry], host);
    }

    method NetworkCacheLookup(host: nat, now: nat) returns (answer: Byte)
      requires Valid() && Owned(Value())
      modifies this`cacheAccesses, this`cacheMisses, networkCache
      ensures Valid() && (Value(), answer) == Lookup(old(Value()), host, now)
    {
      ghost var was := Value();
      cacheAccesses := (cacheAccesses + 1) % DWORD;
      SameAnswers(was, Value());
      var entry := CacheSet(host);
      if networkCache[entry].tag == Tag(host) {
        answer := Indicated(networkCache[entry], host);
        networkCache[entry] := networkCache[entry].(timestamp := now);
        return;
      }
      if networkCache[entry + 1].tag == Tag(host) {
        answer := Indicated(networkCache[entry + 1], host);
        networkCache[entry + 1] := networkCache[entry + 1].(timestamp := now);
        return;
      }
      if networkCache[entry].timestamp > networkCache[entry + 1].timestamp {
        entry := entry + 1;
      }
      answer := NetworkCacheFetch(host, entry, now);
    }

    method NetworkCacheFlush()
      requires Valid()
      modifies networkCache
      ensures networkCache[..] == Flushed()
    {
      forall i | 0 <= i < networkCache.Length {
        networkCache[i] := NO_BLOCK;
      }
      assert networkCache[..] == Flushed();
    }

    method FindIn(table: array<AddrEntry>, network: nat) returns (i: nat)
      ensures i == FirstStaged(table[..], network, 0)
    {
      i := 0;
      while i < table.Length && table[i].network != network
        invariant i <= table.Length
        invariant FirstStaged(table[..], network, 0) == FirstStaged(table[..], network, i)
      {
        i := i + 1;
      }
    }

    // The network case of a load message.
    method HandleLoadNetwork(load: Load, alloc: nat, junk: seq<Byte>) returns (replies: seq<Reply>, stopped: bool)
      requires Valid() && |load.data| == 1024
      modifies this`xms, addrTable, newAddrTable, networkCache
      ensures Valid()
      ensures match HandleLoad(old(Value()), load, alloc, junk)
        case Done(t, r) => !stopped && replies == r && Value() == t
        case Stopped => stopped
    {
      if !Supported(load.network) {
        return [ErrorReply(FM_ERROR_NONETWORK)], false;
      }
      if load.begin {
        var ok := Start(load.network, alloc, junk);
        if !ok {
          return [ErrorReply(FM_ERROR_NOMEMORY)], false;
        }
      }
      replies, stopped := Copy(load);
    }

    // The BEGIN part of a load; false when it ends in the out-of-memory error.
    method Start(network: nat, alloc: nat, junk: seq<Byte>) returns (ok: bool)
      requires Valid() && network != 0
      modifies this`xms, newAddrTable
      ensures Valid() && ok == (BeginSlot(old(Value()), network) < MAX_NUM_NEW_NETWORKS && alloc != 0)
      ensures Value() == if BeginSlot(old(Value()), network) == MAX_NUM_NEW_NETWORKS then old(Value())
                         else Begin(old(Value()), network, alloc, junk)
    {
      ghost var s := Value();
      var i := FindIn(newAddrTable, network);
      if i == MAX_NUM_NEW_NETWORKS {
        i := FindIn(newAddrTable, 0);
        if i == MAX_NUM_NEW_NETWORKS {
          return false;
        }
        newAddrTable[i] := newAddrTable[i].(network := network);
      }
      xms := xms - {newAddrTable[i].hostTable};
      newAddrTable[i] := newAddrTable[i].(hostTable := alloc);
      if alloc == 0 {
        newAddrTable[i] := newAddrTable[i].(network := 0);
      } else {
        xms := xms[alloc := junk];
      }
      ok := alloc != 0;
      assert newAddrTable[..] == Begin(s, network, alloc, junk).staged;
    }

    // The rest of a load message.
    method Copy(load: Load) returns (replies: seq<Reply>, stopped: bool)
      requires Valid() && |load.data| == 1024
      modifies this`xms, addrTable, newAddrTable, networkCache
      ensures Valid()
      ensures match HandlePiece(old(Value()), load)
        case Done(t, r) => !stopped && replies == r && Value() == t
        case Stopped => stopped
    {
      var i := FindIn(newAddrTable, load.network);
      if i == MAX_NUM_NEW_NETWORKS {
        return [ErrorReply(FM_ERROR_NONETWORK)], false;
      }
      var block := newAddrTable[i].hostTable;
      var piece := Piece(load);
      if block !in xms || load.offset + |piece| > |xms[block]| {
        return [], true;
      }
      xms := xms[block := Overwrite(xms[block], load.offset, piece)];
      replies := [];
      if load.end {
        replies := Install(i, load.network);
      }
      return replies + [LoadAck], false;
    }

    // The END part of a load: install staging slot `i`. Returns the error message
    // sent when the table is full, before the acknowledgement.
    method Install(i: nat, network: nat) returns (errors: seq<Reply>)
      requires Valid() && i < newAddrTable.Length
      modifies this`xms, addrTable, newAddrTable, networkCache
      ensures Valid() && (Value(), errors + [LoadAck]) == Finish(old(Value()), network, i)
    {
      ghost var s := Value();
      errors := [];
      var curr := Probe(network);
      if curr == -1 {
        errors := [ErrorReply(FM_ERROR_NONETWORK)];
        xms := xms - {newAddrTable[i].hostTable};
        newAddrTable[i] := AddrEntry(0, newAddrTable[i].dirty, 0);
        curr := Home(network);
      }
      xms := xms - {addrTable[curr].hostTable};
      addrTable[curr] := AddrEntry(network, true, newAddrTable[i].hostTable);
      newAddrTable[i] := AddrEntry(0, newAddrTable[i].dirty, 0);
      NetworkCacheFlush();
      assert newAddrTable[..] == Finish(s, network, i).0.staged;
      assert errors + [LoadAck] == Finish(s, network, i).1;
    }

    // The network case of a release message; the scan of the shuffle must end.
    method HandleReleaseNetwork(network: nat) returns (replies: seq<Reply>)
      requires Valid() && ScanStops(Value(), network)
      modifies this`xms, addrTable, networkCache
      ensures Valid() && (Value(), replies) == HandleRelease(old(Value()), network)
    {
      var i := FindIn(addrTable, network);
      if i == MAX_NUM_NETWORKS {
        return [ErrorReply(FM_ERROR_NONETWORK)];
      }
      HomeInRange(network);
      xms := xms - {addrTable[i].hostTable};
      ShuffleUp(i, Home(network));
      NetworkCacheFlush();
      replies := [ReleaseAck];
    }

    // Empty slot `hole`, moving up the entries of home slot `hash`.
    method ShuffleUp(hole: nat, hash: nat)
      requires Valid() && hole < addrTable.Length && hash < addrTable.Length
      requires Stops(addrTable[..], EntryHome, hole, hash)
      modifies addrTable
      ensures addrTable[..] == Cleared(old(addrTable[..]), EntryHome, NO_ENTRY, hole, hash)
    {
      ghost var t, n := addrTable[..], 0;
      var i := hole;
      var curr := Next(MAX_NUM_NETWORKS, hash);
      while addrTable[curr].network != 0
        invariant 0 <= i < addrTable.Length && 0 <= curr < addrTable.Length
        invariant 0 <= n <= Rounds(t, EntryHome, hole, hash)
        invariant (addrTable[..], i, curr) == Spin(t, EntryHome, hole, hash, n)
        decreases Rounds(t, EntryHome, hole, hash) - n
      {
        ghost var u := addrTable[..];
        var e := addrTable[curr];
        if Home(e.network) == hash {
          addrTable[i] := e;
          assert addrTable[..] == u[i := u[curr]];
          i := curr;
        }
        curr := Next(MAX_NUM_NETWORKS, curr);
        n := n + 1;
      }
      assert StopsAt(t, EntryHome, hole, hash, n);
      addrTable[i] := NO_ENTRY;
    }
  }
}
