// The filter's host classes: a table of loaded networks whose blocks live in
// extended memory, a staging table for loads that take several messages, and a
// two-way set-associative cache in front.
module NetworkStore {
  import opened LinearProbing
  import opened NetworkTable
  import opened Remainders
  import opened ShuffleDelete

  type Byte = x: nat | x < 256

  const MAX_NUM_NEW_NETWORKS: nat := 8
  const NUM_NETWORK_CACHE_ENTRIES: nat := 1024
  const DWORD: nat := 0x1_0000_0000

  // ----- Addresses, as 32-bit numbers; masks are written as remainders

  predicate IsClassB(a: nat) { 0x80000000 <= a < 0xC0000000 }

  predicate IsClassC(a: nat) { 0xC0000000 <= a < 0xE0000000 }

  predicate IsClassD(a: nat) { 0xE0000000 <= a < 0xF0000000 }

  // The network a host belongs to; class A and D hosts belong to none.
  function NetworkPart(host: nat): Option<nat> {
    if IsClassB(host) then Some(host - host % 0x10000)
    else if IsClassC(host) then Some(host - host % 0x100)
    else None
  }

  // The host part: the index of the host's class in its network's block.
  function HostIndex(host: nat): nat {
    if IsClassB(host) then host % 0x10000 else host % 0x100
  }

  // A cache block covers a host and its neighbour that differs in bit 0.
  function Tag(host: nat): nat { host - host % 2 }

  predicate Odd(host: nat) { host % 2 == 1 }

  // The size of a network's block: 64K for class B, 256 bytes for class C. XMS
  // hands out whole kilobytes.
  function BlockSize(network: nat): nat { if IsClassB(network) then 0x10000 else 0x100 }

  function AllocatedSize(network: nat): nat { if IsClassB(network) then 0x10000 else 0x400 }

  predicate Supported(network: nat) { IsClassB(network) || IsClassC(network) }

  // The two hosts of a block are neighbours in the same network's block.
  lemma TagFacts(host: nat)
    ensures NetworkPart(Tag(host)) == NetworkPart(host) && !Odd(Tag(host)) && Tag(Tag(host)) == Tag(host)
    ensures HostIndex(host) == HostIndex(Tag(host)) + if Odd(host) then 1 else 0
    ensures NetworkPart(host).Some? ==> HostIndex(Tag(host)) + 1 < BlockSize(host)
    ensures Tag(host) == 0 ==> NetworkPart(host) == None
  {
    Even64K(host);
    Even256(host);
  }

  lemma NetworkPartFacts(host: nat)
    ensures NetworkPart(host).Some? ==>
      var n := NetworkPart(host).value;
      n != 0 && Supported(n) && IsClassB(n) == IsClassB(host) && HostIndex(host) < BlockSize(n)
  {
  }

  // ----- State

  datatype CacheEntry = CacheEntry(tag: nat, even: Byte, odd: Byte, timestamp: nat)

  const NO_BLOCK := CacheEntry(0, 0, 0, 0)

  datatype Store = Store(
    addr: seq<AddrEntry>,
    staged: seq<AddrEntry>,
    xms: map<nat, seq<Byte>>,      // allocated blocks by handle
    cache: seq<CacheEntry>,
    accesses: nat,
    misses: nat)

  ghost predicate Sized(s: Store) {
    |s.addr| == MAX_NUM_NETWORKS && |s.staged| == MAX_NUM_NEW_NETWORKS && |s.cache| == NUM_NETWORK_CACHE_ENTRIES
  }

  // Slots 0 to 31 are the loaded networks, 32 to 39 the staged ones.
  function Slot(s: Store, k: nat): AddrEntry
    requires Sized(s) && k < 40
  {
    if k < MAX_NUM_NETWORKS then s.addr[k] else s.staged[k - MAX_NUM_NETWORKS]
  }

  // A taken slot has a supported network and a block of its size; an empty slot
  // has no block.
  ghost predicate SlotOk(s: Store, e: AddrEntry) {
    if e.network == 0 then e.hostTable == 0
    else Supported(e.network) && e.hostTable in s.xms && |s.xms[e.hostTable]| == AllocatedSize(e.network)
  }

  // Every allocated block belongs to exactly one slot.
  ghost predicate Owned(s: Store) {
    && Sized(s) && 0 !in s.xms
    && (forall k {:trigger Slot(s, k)} :: 0 <= k < 40 ==> SlotOk(s, Slot(s, k)))
    && (forall j, k {:trigger Slot(s, j), Slot(s, k)} :: 0 <= j < 40 && 0 <= k < 40 && j != k ==>
          Slot(s, j).hostTable != Slot(s, k).hostTable || Slot(s, j).hostTable == 0)
    && (forall h {:trigger h in s.xms} :: h in s.xms ==> exists k :: 0 <= k < 40 && Slot(s, k).hostTable == h)
  }

  // ----- The uncached answer

  // The class of a host, read from the current tables; unloaded networks and
  // class A and D hosts have class 0.
  function Classify(s: Store, host: nat): Byte
    requires Owned(s)
  {
    var n := NetworkPart(host);
    if n == None then 0
    else
      var p := Locate(s.addr, n.value);
      if p == None then 0
      else
        NetworkPartFacts(host);
        assert Slot(s, p.value) == s.addr[p.value];
        s.xms[s.addr[p.value].hostTable][HostIndex(host)]
  }

  // ----- The cache

  // Bits 1 to 9 of the address: the first of the two entries of its set.
  function CacheSet(host: nat): (i: nat)
    ensures i + 1 < NUM_NETWORK_CACHE_ENTRIES
  {
    host % 1024 - host % 2
  }

  function Indicated(e: CacheEntry, host: nat): Byte {
    if Odd(host) then e.odd else e.even
  }

  // A miss: read the block and put it in cache entry `i`.
  function Fetch(s: Store, host: nat, i: nat, now: nat): (r: (Store, Byte))
    requires Owned(s) && i < |s.cache|
  {
    var n := NetworkPart(host);
    if n == None then (s, 0)
    else
      var p := Locate(s.addr, n.value);
      if p == None then (s, 0)
      else
        TagFacts(host);
        NetworkPartFacts(host);
        assert Slot(s, p.value) == s.addr[p.value];
        var block := s.xms[s.addr[p.value].hostTable];
        var offset := HostIndex(Tag(host));
        var e := CacheEntry(Tag(host), block[offset], block[offset + 1], now);
        (s.(misses := (s.misses + 1) % DWORD, cache := s.cache[i := e]), Indicated(e, host))
  }

  // `now` is the clock reading.
  function Lookup(s: Store, host: nat, now: nat): (r: (Store, Byte))
    requires Owned(s)
  {
    var i := CacheSet(host);
    var t := s.(accesses := (s.accesses + 1) % DWORD);
    if s.cache[i].tag == Tag(host) then
      (t.(cache := s.cache[i := s.cache[i].(timestamp := now)]), Indicated(s.cache[i], host))
    else if s.cache[i + 1].tag == Tag(host) then
      (t.(cache := s.cache[i + 1 := s.cache[i + 1].(timestamp := now)]), Indicated(s.cache[i + 1], host))
    else
      assert forall k :: 0 <= k < 40 ==> Slot(t, k) == Slot(s, k);
      Fetch(t, host, if s.cache[i].timestamp > s.cache[i + 1].timestamp then i + 1 else i, now)
  }

  // A cached block holds the current classes of both its hosts.
  ghost predicate BlockOk(s: Store, e: CacheEntry)
    requires Owned(s)
  {
    forall host {:trigger Tag(host)} :: Tag(host) == e.tag ==> Indicated(e, host) == Classify(s, host)
  }

  ghost predicate CacheOk(s: Store)
    requires Owned(s)
  {
    forall i {:trigger s.cache[i]} :: 0 <= i < |s.cache| ==> BlockOk(s, s.cache[i])
  }

  // Two stores with the same tables and blocks give the same answers.
  lemma SameAnswers(s: Store, t: Store)
    requires Owned(s) && t.addr == s.addr && t.staged == s.staged && t.xms == s.xms && |t.cache| == |s.cache|
    ensures Owned(t) && forall host :: Classify(t, host) == Classify(s, host)
  {
    assert forall k :: 0 <= k < 40 ==> Slot(t, k) == Slot(s, k);
    assert forall k :: 0 <= k < 40 ==> SlotOk(s, Slot(s, k));
  }

  // A fetched block holds both hosts' classes.
  lemma FetchReads(s: Store, host: nat, i: nat, now: nat)
    requires Owned(s) && i < |s.cache|
    ensures var (t, answer) := Fetch(s, host, i, now);
      && t == s.(misses := t.misses, cache := t.cache) && |t.cache| == |s.cache|
      && answer == Classify(s, host)
      && (t.cache == s.cache || (t.cache == s.cache[i := t.cache[i]] && BlockOk(s, t.cache[i])))
  {
    var (t, answer) := Fetch(s, host, i, now);
    TagFacts(host);
    NetworkPartFacts(host);
    forall other {:trigger Tag(other)} | Tag(other) == Tag(host)
      ensures NetworkPart(other) == NetworkPart(host)
      ensures HostIndex(other) == HostIndex(Tag(host)) + if Odd(other) then 1 else 0
    {
      TagFacts(other);
    }
  }

  // The cached lookup answers from the current tables and changes only the cache.
  lemma LookupIsTransparent(s: Store, host: nat, now: nat)
    requires Owned(s) && CacheOk(s)
    ensures var (t, answer) := Lookup(s, host, now);
      && answer == Classify(s, host)
      && t.addr == s.addr && t.staged == s.staged && t.xms == s.xms
      && Owned(t) && CacheOk(t) && forall h :: Classify(t, h) == Classify(s, h)
  {
    var (t, answer) := Lookup(s, host, now);
    var counted := s.(accesses := (s.accesses + 1) % DWORD);
    SameAnswers(s, counted);
    var i := CacheSet(host);
    if s.cache[i].tag != Tag(host) && s.cache[i + 1].tag != Tag(host) {
      FetchReads(counted, host, if s.cache[i].timestamp > s.cache[i + 1].timestamp then i + 1 else i, now);
    }
    SameAnswers(s, t);
    forall j | 0 <= j < |t.cache|
      ensures BlockOk(t, t.cache[j])
    {
      assert BlockOk(s, s.cache[j]) && BlockOk(s, s.cache[i]) && BlockOk(s, s.cache[i + 1]);
    }
    assert BlockOk(s, s.cache[i]) && BlockOk(s, s.cache[i + 1]);
  }

  function Flushed(): (c: seq<CacheEntry>)
    ensures |c| == NUM_NETWORK_CACHE_ENTRIES && forall i :: 0 <= i < |c| ==> c[i] == NO_BLOCK
  {
    seq(NUM_NETWORK_CACHE_ENTRIES, _ => NO_BLOCK)
  }

  // A zeroed entry is a correct block: its hosts are 0.0.0.0 and 0.0.0.1.
  lemma FlushedIsOk(s: Store)
    requires Owned(s) && s.cache == Flushed()
    ensures CacheOk(s)
  {
  }
}
