// The hash table of loaded networks: 32 slots, linear probing, and a delete that
// shuffles up only the entries of the deleted network's own home slot.
module NetworkTable {
  import opened LinearProbing
  import opened ShuffleDelete

  const MAX_NUM_NETWORKS: nat := 32

  // `hostTable` is the handle of the block that holds the network's host classes.
  datatype AddrEntry = AddrEntry(network: nat, dirty: bool, hostTable: nat)

  const NO_ENTRY := AddrEntry(0, false, 0)

  // Bits 19 to 23 of the address, the ones NETWORK_HASH_MASK selects.
  function Home(network: nat): nat {
    (network / 0x80000) % 32
  }

  lemma HomeInRange(network: nat)
    ensures Home(network) < MAX_NUM_NETWORKS
  {
  }

  function Networks(t: seq<AddrEntry>): (r: seq<nat>)
    ensures |r| == |t|
    ensures forall i :: 0 <= i < |t| ==> r[i] == t[i].network
  {
    seq(|t|, i requires 0 <= i < |t| => t[i].network)
  }

  // Every loaded network is found from its home slot.
  ghost predicate TableOk(t: seq<AddrEntry>) {
    |t| == MAX_NUM_NETWORKS && WellFormed(Networks(t), 0, Home)
  }

  // The slot that a lookup of `network` uses.
  function Locate(t: seq<AddrEntry>, network: nat): (r: Option<nat>)
    requires |t| == MAX_NUM_NETWORKS
    ensures r.Some? ==> r.value < |t| && t[r.value].network == network
  {
    HomeInRange(network);
    Find(Networks(t), 0, network, Home(network))
  }

  // ----- Insert

  // The slot that loading `network` writes; None when the table is full.
  function SlotFor(t: seq<AddrEntry>, network: nat): (r: Option<nat>)
    requires |t| == MAX_NUM_NETWORKS
    ensures r.Some? ==> r.value < |t| && (t[r.value].network == network || t[r.value].network == 0)
    ensures r.None? <==> forall i :: 0 <= i < |t| ==> t[i].network != network && t[i].network != 0
  {
    HomeInRange(network);
    NoSlotMeansFull(Networks(t), 0, network, Home(network));
    var r := FindSlot(Networks(t), 0, network, Home(network), 0);
    assert r.None? ==> forall i :: 0 <= i < |t| ==> Networks(t)[i] == t[i].network;
    r
  }

  lemma InsertKeepsTable(t: seq<AddrEntry>, e: AddrEntry, p: nat)
    requires TableOk(t) && e.network != 0 && SlotFor(t, e.network) == Some(p)
    ensures TableOk(t[p := e]) && Locate(t[p := e], e.network) == Some(p)
    ensures forall n :: n != e.network && n != 0 ==> Locate(t[p := e], n) == Locate(t, n)
  {
    HomeInRange(e.network);
    assert Networks(t[p := e]) == Networks(t)[p := e.network];
    InsertKeepsWellFormed(Networks(t), 0, Home, e.network, p);
    FindExact(Networks(t[p := e]), 0, Home, e.network);
    forall n | n != e.network && n != 0
      ensures Locate(t[p := e], n) == Locate(t, n)
    {
      HomeInRange(n);
      InsertKeepsOthers(Networks(t), 0, Home, e.network, p, n);
    }
  }

  // ----- Release

  // The home slot of an entry; negative for an empty slot.
  function EntryHome(e: AddrEntry): int {
    if e.network == 0 then -1 else Home(e.network)
  }

  function Key(e: AddrEntry): nat {
    e.network
  }

  // Without an empty slot the release scan does not end.
  predicate HasRoom(t: seq<AddrEntry>) {
    exists p :: 0 <= p < |t| && t[p].network == 0
  }

  // The table after releasing the network in slot `i`.
  function Released(t: seq<AddrEntry>, i: nat): (r: seq<AddrEntry>)
    requires |t| == MAX_NUM_NETWORKS && i < MAX_NUM_NETWORKS && t[i].network != 0
    ensures |r| == MAX_NUM_NETWORKS
  {
    HomeInRange(t[i].network);
    Deleted(t, EntryHome, NO_ENTRY, i)
  }

  lemma ReachableIsPathTaken(t: seq<AddrEntry>, q: nat)
    requires |t| == MAX_NUM_NETWORKS && Distinct(t, EntryHome, Key) && q < |t| && t[q].network != 0
    ensures Reachable(Networks(t), 0, Home, q) <==> PathTaken(t, EntryHome, q)
  {
  }

  lemma TableIsDistinct(t: seq<AddrEntry>)
    requires TableOk(t)
    ensures Distinct(t, EntryHome, Key) && AllTaken(t, EntryHome)
  {
    forall i, j | 0 <= i < |t| && 0 <= j < |t| && i != j && t[i].network != 0 && t[j].network != 0
      ensures t[i].network != t[j].network
    {
      HomeInRange(t[i].network);
      FindExact(Networks(t), 0, Home, t[i].network);
      assert Networks(t)[i] == t[i].network && Networks(t)[j] == t[j].network;
    }
    forall q | 0 <= q < |t| && EntryHome(t[q]) >= 0
      ensures PathTaken(t, EntryHome, q)
    {
      ReachableIsPathTaken(t, q);
      assert Reachable(Networks(t), 0, Home, q);
    }
  }

  // A release keeps the other entries as a permutation, touches only slots of the
  // released network's home, and empties exactly the furthest of them. Entries of
  // that home stay reachable; an entry of another home stays reachable exactly
  // when its probe path misses the emptied slot.
  lemma ReleaseKeeps(t: seq<AddrEntry>, i: nat) returns (last: nat)
    requires TableOk(t) && HasRoom(t) && i < |t| && t[i].network != 0
    ensures var u := Released(t, i);
      && multiset(u) == multiset(t[i := NO_ENTRY])
      && DeletedOne(t, u, EntryHome, Key, NO_ENTRY, Home(t[i].network), last)
      && forall q {:trigger u[q]} :: 0 <= q < |u| && u[q].network != 0 ==>
           (Locate(u, u[q].network) == Some(q) <==>
            Home(u[q].network) == Home(t[i].network) || !Crosses(u, EntryHome, q, last))
  {
    TableIsDistinct(t);
    HomeInRange(t[i].network);
    last := DeletePermutes(t, EntryHome, Key, NO_ENTRY, i);
    var u := Released(t, i);
    var h := Home(t[i].network);
    forall q | 0 <= q < |u| && u[q].network != 0
      ensures Locate(u, u[q].network) == Some(q) <==> EntryHome(u[q]) == h || !Crosses(u, EntryHome, q, last)
    {
      HomeInRange(u[q].network);
      assert Networks(u)[q] == u[q].network;
      FoundIffReachable(Networks(u), 0, Home, q);
      ReachableIsPathTaken(u, q);
      PathAfterDelete(t, u, EntryHome, Key, NO_ENTRY, h, last, q);
    }
  }

  lemma InTable(t: seq<AddrEntry>, j: nat)
    requires TableOk(t) && j < |t| && t[j].network != 0
    ensures Locate(t, t[j].network) == Some(j)
  {
    HomeInRange(t[j].network);
    FindExact(Networks(t), 0, Home, t[j].network);
    assert Networks(t)[j] == t[j].network;
  }

  // After a release the released network is gone and unloaded ones stay unknown.
  lemma ReleaseForgets(t: seq<AddrEntry>, i: nat, n: nat)
    requires TableOk(t) && HasRoom(t) && i < |t| && t[i].network != 0 && n != 0
    requires n == t[i].network || Locate(t, n) == None
    ensures Locate(Released(t, i), n) == None
  {
    var last := ReleaseKeeps(t, i);
    var u := Released(t, i);
    var found := Locate(u, n);
    if found.Some? {
      assert u[found.value] in multiset(t[i := NO_ENTRY]);
      var j :| 0 <= j < |t| && t[i := NO_ENTRY][j] == u[found.value];
      InTable(t, j);
      InTable(t, i);
    }
  }

  // Every other network keeps its entry, in some slot `q`, and is still found
  // exactly when it has the released home or its path misses the emptied slot.
  lemma ReleaseLookups(t: seq<AddrEntry>, i: nat, n: nat) returns (last: nat, q: nat)
    requires TableOk(t) && HasRoom(t) && i < |t| && t[i].network != 0 && n != 0
    requires n != t[i].network && Locate(t, n).Some?
    ensures var u := Released(t, i);
      && IsLastOfHome(t, EntryHome, EntryHome(t[i]), last) && q < |u|
      && u[q] == t[Locate(t, n).value] && 0 <= EntryHome(u[q]) < |u|
      && Locate(u, n) == if Home(n) == Home(t[i].network) || !Crosses(u, EntryHome, q, last) then Some(q) else None
  {
    last := ReleaseKeeps(t, i);
    var u := Released(t, i);
    var kept := Locate(t, n).value;
    assert t[i := NO_ENTRY][kept] in multiset(u);
    q :| 0 <= q < |u| && u[q] == t[kept];
    HomeInRange(n);
  }

  // Slot `q` holds a network of another home than the one in slot `i`.
  predicate OfAnotherHome(t: seq<AddrEntry>, i: nat, q: nat)
    requires i < |t| && q < |t|
  {
    t[q].network != 0 && Home(t[q].network) != Home(t[i].network) && 0 <= EntryHome(t[q]) < |t|
  }

  // No entry of another home is probed for across the furthest slot of the home of
  // slot `i`, which a release of slot `i` empties.
  ghost predicate CleanToRelease(t: seq<AddrEntry>, i: nat)
    requires i < |t|
  {
    forall last: nat, q: nat {:trigger IsLastOfHome(t, EntryHome, Home(t[i].network), last), t[q]} |
      IsLastOfHome(t, EntryHome, Home(t[i].network), last) && q < |t| && OfAnotherHome(t, i, q) ::
      !Crosses(t, EntryHome, q, last)
  }

  lemma OneLast(t: seq<AddrEntry>, h: nat, last: nat, other: nat)
    requires IsLastOfHome(t, EntryHome, h, last) && IsLastOfHome(t, EntryHome, h, other)
    ensures last == other
  {
  }

  // What becomes of the entry in slot `q`.
  lemma ReleaseEntry(t: seq<AddrEntry>, i: nat, last: nat, q: nat)
    requires TableOk(t) && i < |t| && t[i].network != 0 && q < |t|
    requires var u := Released(t, i);
      && DeletedOne(t, u, EntryHome, Key, NO_ENTRY, Home(t[i].network), last)
      && (u[q].network != 0 ==>
            (Locate(u, u[q].network) == Some(q) <==>
             Home(u[q].network) == Home(t[i].network) || !Crosses(u, EntryHome, q, last)))
    ensures var u := Released(t, i);
      if OfAnotherHome(t, i, q) then
        u[q] == t[q] && (Reachable(Networks(u), 0, Home, q) <==> !Crosses(t, EntryHome, q, last))
      else u[q].network == 0 || Reachable(Networks(u), 0, Home, q)
  {
    var u := Released(t, i);
    HomeInRange(t[q].network);
    HomeInRange(u[q].network);
    assert Networks(u)[q] == u[q].network;
    if u[q].network != 0 {
      FoundIffReachable(Networks(u), 0, Home, q);
    }
    assert EntryHome(t[q]) != Home(t[i].network) ==> u[q] == t[q];
    assert EntryHome(t[q]) == Home(t[i].network) && q != last ==> EntryHome(u[q]) == Home(t[i].network);
  }

  // A release leaves every other network reachable exactly when the table was clean
  // to release.
  lemma ReleaseIsClean(t: seq<AddrEntry>, i: nat)
    requires TableOk(t) && HasRoom(t) && i < |t| && t[i].network != 0
    ensures TableOk(Released(t, i)) <==> CleanToRelease(t, i)
  {
    var last := ReleaseKeeps(t, i);
    var u := Released(t, i);
    forall q: nat | q < |t|
      ensures OfAnotherHome(t, i, q) ==> u[q] == t[q]
      ensures OfAnotherHome(t, i, q) ==> (Reachable(Networks(u), 0, Home, q) <==> !Crosses(t, EntryHome, q, last))
      ensures !OfAnotherHome(t, i, q) ==> u[q].network == 0 || Reachable(Networks(u), 0, Home, q)
    {
      ReleaseEntry(t, i, last, q);
    }
    forall other: nat | IsLastOfHome(t, EntryHome, Home(t[i].network), other)
      ensures other == last
    {
      OneLast(t, Home(t[i].network), last, other);
    }
    forall q: nat | q < |t|
      ensures Networks(u)[q] == u[q].network
      ensures CleanToRelease(t, i) && OfAnotherHome(t, i, q) ==> !Crosses(t, EntryHome, q, last)
    {
      assert t[q] == t[q];
    }
  }

  // Releasing 192.0.1.0 hides 192.8.1.0: they and 192.0.2.0 sit in slots 0 to 2,
  // the release moves 192.0.2.0 to slot 0 and empties slot 1, where the search
  // for 192.8.1.0 starts.
  lemma ReleaseCanHideANetwork() returns (t: seq<AddrEntry>)
    ensures TableOk(t) && t[0].network == 0xC0000100 && Locate(t, 0xC0080100) == Some(2)
    ensures Locate(Released(t, 0), 0xC0080100) == None
  {
    var a, b, c := AddrEntry(0xC0000100, false, 1), AddrEntry(0xC0000200, false, 2), AddrEntry(0xC0080100, false, 3);
    t := [a, b, c] + seq(29, _ => NO_ENTRY);
    assert Home(0xC0000100) == 0 && Home(0xC0000200) == 0 && Home(0xC0080100) == 1;
    var keys := Networks(t);
    forall i | 0 <= i < |t| && keys[i] != 0
      ensures Reachable(keys, 0, Home, i)
    {
      assert i <= 2;
    }
    InTable(t, 2);
    assert t[3].network == 0;
    SecondIsLast(t);
  }

  lemma SecondIsLast(t: seq<AddrEntry>)
    requires TableOk(t) && HasRoom(t) && Home(0xC0000100) == 0 && Home(0xC0000200) == 0 && Home(0xC0080100) == 1
    requires t[0].network == 0xC0000100 && t[1].network == 0xC0000200 && t[2].network == 0xC0080100
    requires forall p :: 3 <= p < |t| ==> t[p] == NO_ENTRY
    ensures Locate(Released(t, 0), 0xC0080100) == None
  {
    var last := ReleaseKeeps(t, 0);
    var u := Released(t, 0);
    assert EntryHome(t[1]) == 0 && EntryHome(t[2]) == 1;
    assert last == 1 && u[2] == t[2];
    assert forall p {:trigger u[p]} :: 0 <= p < |u| && p != 2 && u[p].network != 0 ==> Key(u[p]) != Key(u[2]);
  }
}
