// Which blocks the two-way cache keeps. With a clock that strictly increases and
// is never zero, each set holds the two most recently used distinct blocks, except
// where a lookup of 0.0.0.0 or 0.0.0.1 has made it forget the one before the last;
// the miss counter counts exactly the lookups of blocks that are not held.
module CacheReplacement {
  import opened LinearProbing
  import opened NetworkStore
  import opened NetworkTable
  import opened Remainders

  // A lookup: the host and the clock reading.
  type Use = (nat, nat)

  // The lookup reads a block: its host belongs to a loaded network.
  predicate IsLoaded(addr: seq<AddrEntry>, host: nat)
    requires |addr| == MAX_NUM_NETWORKS
  {
    NetworkPart(host).Some? && Locate(addr, NetworkPart(host).value).Some?
  }

  // The blocks of set `j` in the order they were looked up.
  function Blocks(addr: seq<AddrEntry>, uses: seq<Use>, j: nat): seq<nat>
    requires |addr| == MAX_NUM_NETWORKS
  {
    if uses == [] then []
    else
      var (rest, host) := (Blocks(addr, uses[..|uses| - 1], j), uses[|uses| - 1].0);
      if IsLoaded(addr, host) && CacheSet(host) == 2 * j then rest + [Tag(host)] else rest
  }

  // The last element of `h` that differs from `t`.
  function LastOther(h: seq<nat>, t: nat): (r: Option<nat>)
    ensures r.Some? ==> r.value in h && r.value != t
  {
    if h == [] then None
    else if h[|h| - 1] != t then Some(h[|h| - 1])
    else
      assert h == h[..|h| - 1] + [h[|h| - 1]];
      LastOther(h[..|h| - 1], t)
  }

  // `t` is one of the two most recently used distinct blocks.
  predicate IsRecent(h: seq<nat>, t: nat) {
    h != [] && (t == h[|h| - 1] || LastOther(h, h[|h| - 1]) == Some(t))
  }

  // Only one block has been used, any number of times.
  predicate OneBlock(h: seq<nat>) {
    h != [] && LastOther(h, h[|h| - 1]) == None
  }

  // What a set remembers: the blocks used since it last forgot, in order, and
  // whether it forgets them when another block is used.
  datatype Memory = Memory(h: seq<nat>, forget: bool)

  // A lookup of block `t` in the set. The two hosts whose tag is that of an empty
  // entry, 0.0.0.0 and 0.0.0.1, make the unused way look recent.
  function Remember(m: Memory, t: nat, loaded: bool): Memory {
    if t == 0 then m.(forget := OneBlock(m.h))
    else if !loaded then m
    else if m.forget && m.h != [] && t != m.h[|m.h| - 1] then Memory([t], false)
    else Memory(m.h + [t], false)
  }

  function History(addr: seq<AddrEntry>, uses: seq<Use>, j: nat): Memory
    requires |addr| == MAX_NUM_NETWORKS
  {
    if uses == [] then Memory([], false)
    else
      var (rest, host) := (History(addr, uses[..|uses| - 1], j), uses[|uses| - 1].0);
      if CacheSet(host) == 2 * j then Remember(rest, Tag(host), IsLoaded(addr, host)) else rest
  }

  function SetOf(host: nat): (j: nat)
    ensures j < 512 && CacheSet(host) == 2 * j
  {
    SetIsEven(host);
    host % 1024 / 2
  }

  lemma SetIsEven(x: nat)
    ensures CacheSet(x) == 2 * (x % 1024 / 2)
  {
    var q, r := x / 1024, x % 1024;
    assert x == 2 * (512 * q + r / 2) + r % 2;
    LastBit(512 * q + r / 2, r % 2);
  }

  lemma LastBit(m: nat, c: nat)
    requires c < 2
    ensures (2 * m + c) % 2 == c
  {
  }

  function Misses(addr: seq<AddrEntry>, uses: seq<Use>): nat
    requires |addr| == MAX_NUM_NETWORKS
  {
    if uses == [] then 0
    else
      var before, host := uses[..|uses| - 1], uses[|uses| - 1].0;
      Misses(addr, before) +
        if IsLoaded(addr, host) && !IsRecent(History(addr, before, SetOf(host)).h, Tag(host)) then 1 else 0
  }

  // One way of a set holds the most recent block and the other the one before it,
  // or nothing; an empty way is the older one unless the set is about to forget.
  ghost predicate Ordered(first: CacheEntry, second: CacheEntry, m: Memory, clock: nat)
    requires m.h != []
  {
    var t := m.h[|m.h| - 1];
    && first.tag == t && first.timestamp <= clock && second.timestamp <= clock
    && (if m.forget then first.timestamp < second.timestamp else second.timestamp < first.timestamp)
    && (m.forget ==> OneBlock(m.h))
    && second.tag == if OneBlock(m.h) then 0 else LastOther(m.h, t).value
  }

  ghost predicate SetHolds(a: CacheEntry, b: CacheEntry, m: Memory, clock: nat) {
    if m.h == [] then a.tag == 0 && b.tag == 0 && a.timestamp <= clock && b.timestamp <= clock && !m.forget
    else 0 !in m.h && (Ordered(a, b, m, clock) || Ordered(b, a, m, clock))
  }

  // Clock readings are nonzero and strictly increase.
  predicate Timed(uses: seq<Use>) {
    && (forall k {:trigger uses[k]} :: 0 <= k < |uses| ==> uses[k].1 > 0)
    && (forall j, k {:trigger uses[j], uses[k]} :: 0 <= j < k < |uses| ==> uses[j].1 < uses[k].1)
  }

  function RunLookups(s: Store, uses: seq<Use>): (t: Store)
    requires Owned(s)
    ensures Owned(t) && t.addr == s.addr && t.staged == s.staged && t.xms == s.xms
  {
    if uses == [] then s
    else
      var before := RunLookups(s, uses[..|uses| - 1]);
      var (host, now) := uses[|uses| - 1];
      LookupKeepsTables(before, host, now);
      Lookup(before, host, now).0
  }

  lemma LookupKeepsTables(s: Store, host: nat, now: nat)
    requires Owned(s)
    ensures var t := Lookup(s, host, now).0; Owned(t) && t.addr == s.addr && t.staged == s.staged && t.xms == s.xms
  {
    SameAnswers(s, s.(accesses := (s.accesses + 1) % DWORD));
    SameAnswers(s, Lookup(s, host, now).0);
  }

  function Last(uses: seq<Use>): nat {
    if uses == [] then 0 else uses[|uses| - 1].1
  }

  // Set `j` is entries 2j and 2j + 1.
  ghost predicate SetsHold(s: Store, uses: seq<Use>)
    requires Sized(s)
  {
    forall j {:trigger History(s.addr, uses, j)} :: 0 <= j < 512 ==>
      SetHolds(s.cache[2 * j], s.cache[2 * j + 1], History(s.addr, uses, j), Last(uses))
  }

  // One use of block `t` in its own set.
  lemma UseBlock(m: Memory, t: nat, first: CacheEntry, second: CacheEntry, clock: nat, now: nat, e: CacheEntry)
    requires m.h != [] && 0 !in m.h && Ordered(first, second, m, clock) && clock < now && t != 0
    requires e.tag == t && e.timestamp == now
    ensures var m' := Remember(m, t, true);
      && m'.h != [] && 0 !in m'.h
      && (first.tag == t || m.forget ==> Ordered(e, second, m', now))
      && (first.tag != t && !m.forget ==> Ordered(e, first, m', now))
    ensures IsRecent(m.h, t) <==> first.tag == t || second.tag == t
  {
    var h' := m.h + [t];
    assert h'[..|m.h|] == m.h;
    assert LastOther(h', t) == if first.tag == t then LastOther(m.h, t) else Some(m.h[|m.h| - 1]);
    assert LastOther([t], t) == LastOther([], t);
  }

  // Only blocks of loaded networks are ever fetched.
  lemma {:induction false} HistoryIsLoaded(addr: seq<AddrEntry>, uses: seq<Use>, i: nat)
    requires |addr| == MAX_NUM_NETWORKS
    ensures forall t :: t in History(addr, uses, i).h ==> IsLoaded(addr, t)
  {
    if uses != [] {
      HistoryIsLoaded(addr, uses[..|uses| - 1], i);
      TagFacts(uses[|uses| - 1].0);
    }
  }

  // What a lookup does to the two ways of its set.
  ghost predicate WaysAfter(
      a: CacheEntry, b: CacheEntry, a': CacheEntry, b': CacheEntry, t: nat, now: nat, loaded: bool)
  {
    if a.tag == t then a'.tag == t && a'.timestamp == now && b' == b
    else if b.tag == t then b'.tag == t && b'.timestamp == now && a' == a
    else if !loaded then a' == a && b' == b
    else if a.timestamp > b.timestamp then b'.tag == t && b'.timestamp == now && a' == a
    else a'.tag == t && a'.timestamp == now && b' == b
  }

  // What a lookup does to the cache and the miss counter.
  ghost predicate LookedUp(s: Store, t: Store, host: nat, now: nat)
    requires Sized(s) && Sized(t)
  {
    var i := 2 * SetOf(host);
    && WaysAfter(s.cache[i], s.cache[i + 1], t.cache[i], t.cache[i + 1], Tag(host), now, IsLoaded(s.addr, host))
    && (forall j {:trigger t.cache[j]} :: 0 <= j < |s.cache| && j != i && j != i + 1 ==> t.cache[j] == s.cache[j])
    && t.misses == if IsLoaded(s.addr, host) && s.cache[i].tag != Tag(host) && s.cache[i + 1].tag != Tag(host)
                   then (s.misses + 1) % DWORD else s.misses
  }

  lemma LookupOnSet(s: Store, host: nat, now: nat)
    requires Owned(s)
    ensures Sized(Lookup(s, host, now).0) && LookedUp(s, Lookup(s, host, now).0, host, now)
  {
  }

  // The two ways follow the memory of their set.
  lemma WaysHold(a: CacheEntry, b: CacheEntry, a': CacheEntry, b': CacheEntry, t: nat, now: nat, m: Memory, clock: nat)
    requires SetHolds(a, b, m, clock) && WaysAfter(a, b, a', b', t, now, true) && t != 0 && clock < now
    ensures SetHolds(a', b', Remember(m, t, true), now)
    ensures IsRecent(m.h, t) <==> a.tag == t || b.tag == t
  {
    if m.h == [] {
      assert LastOther([t], t) == LastOther([], t);
      assert m.h + [t] == [t];
    } else {
      var e := if a.tag == t then a' else if b.tag == t then b' else if a.timestamp > b.timestamp then b' else a';
      if Ordered(a, b, m, clock) {
        UseBlock(m, t, a, b, clock, now, e);
      } else {
        UseBlock(m, t, b, a, clock, now, e);
      }
    }
  }

  // A lookup of 0.0.0.0 or 0.0.0.1 refreshes an empty way, if there is one.
  lemma ZeroHolds(a: CacheEntry, b: CacheEntry, a': CacheEntry, b': CacheEntry, now: nat, m: Memory, clock: nat)
    requires SetHolds(a, b, m, clock) && WaysAfter(a, b, a', b', 0, now, false) && clock < now
    ensures SetHolds(a', b', Remember(m, 0, false), now)
  {
    if m.h != [] {
      assert m.h[|m.h| - 1] in m.h;
    }
  }

  // Time passing changes nothing.
  lemma Later(a: CacheEntry, b: CacheEntry, m: Memory, clock: nat, now: nat)
    requires SetHolds(a, b, m, clock) && clock <= now
    ensures SetHolds(a, b, m, now)
  {
  }

  // A host of no loaded network has no block in the cache.
  lemma NotCached(s: Store, uses: seq<Use>, host: nat)
    requires Owned(s) && SetsHold(s, uses) && Tag(host) != 0 && !IsLoaded(s.addr, host)
    ensures s.cache[2 * SetOf(host)].tag != Tag(host) && s.cache[2 * SetOf(host) + 1].tag != Tag(host)
  {
    var j := SetOf(host);
    var m := History(s.addr, uses, j);
    HistoryIsLoaded(s.addr, uses, j);
    TagFacts(host);
    assert SetHolds(s.cache[2 * j], s.cache[2 * j + 1], m, Last(uses));
    assert !IsLoaded(s.addr, Tag(host));
  }

  lemma OneUseMore(addr: seq<AddrEntry>, uses: seq<Use>, host: nat, now: nat)
    requires |addr| == MAX_NUM_NETWORKS
    ensures History(addr, uses + [(host, now)], SetOf(host)) ==
      Remember(History(addr, uses, SetOf(host)), Tag(host), IsLoaded(addr, host))
  {
    assert (uses + [(host, now)])[..|uses|] == uses;
  }

  lemma ZeroIsNotLoaded(addr: seq<AddrEntry>, host: nat)
    requires |addr| == MAX_NUM_NETWORKS && Tag(host) == 0
    ensures !IsLoaded(addr, host)
  {
    TagFacts(host);
  }

  // Any lookup in a set.
  lemma WaysRemember(a: CacheEntry, b: CacheEntry, a': CacheEntry, b': CacheEntry, t: nat, now: nat, loaded: bool,
      m: Memory, clock: nat)
    requires SetHolds(a, b, m, clock) && WaysAfter(a, b, a', b', t, now, loaded) && clock < now
    requires if t == 0 then !loaded else loaded || (a.tag != t && b.tag != t)
    ensures SetHolds(a', b', Remember(m, t, loaded), now)
    ensures loaded ==> (IsRecent(m.h, t) <==> a.tag == t || b.tag == t)
  {
    if t == 0 {
      ZeroHolds(a, b, a', b', now, m, clock);
    } else if loaded {
      WaysHold(a, b, a', b', t, now, m, clock);
    } else {
      Later(a, b, m, clock, now);
    }
  }

  // The two ways of the set of `host` after its lookup.
  lemma OwnWays(addr: seq<AddrEntry>, uses: seq<Use>, host: nat, now: nat,
      a: CacheEntry, b: CacheEntry, a': CacheEntry, b': CacheEntry)
    requires |addr| == MAX_NUM_NETWORKS && Last(uses) < now
    requires SetHolds(a, b, History(addr, uses, SetOf(host)), Last(uses))
    requires WaysAfter(a, b, a', b', Tag(host), now, IsLoaded(addr, host))
    requires Tag(host) != 0 && !IsLoaded(addr, host) ==> a.tag != Tag(host) && b.tag != Tag(host)
    ensures SetHolds(a', b', History(addr, uses + [(host, now)], SetOf(host)), now)
    ensures IsLoaded(addr, host) ==>
      (IsRecent(History(addr, uses, SetOf(host)).h, Tag(host)) <==> a.tag == Tag(host) || b.tag == Tag(host))
  {
    OneUseMore(addr, uses, host, now);
    if Tag(host) == 0 {
      ZeroIsNotLoaded(addr, host);
    }
    WaysRemember(a, b, a', b', Tag(host), now, IsLoaded(addr, host), History(addr, uses, SetOf(host)), Last(uses));
  }

  // The set of a lookup, and the miss counter.
  lemma UseKeepsOwnSet(s: Store, t: Store, uses: seq<Use>, host: nat, now: nat)
    requires Owned(s) && Sized(t) && LookedUp(s, t, host, now) && SetsHold(s, uses) && Last(uses) < now
    ensures var j := SetOf(host);
      && SetHolds(t.cache[2 * j], t.cache[2 * j + 1], History(s.addr, uses + [(host, now)], j), now)
      && t.misses == if IsLoaded(s.addr, host) && !IsRecent(History(s.addr, uses, j).h, Tag(host))
                     then (s.misses + 1) % DWORD else s.misses
  {
    var j := SetOf(host);
    var i := 2 * j;
    assert SetHolds(s.cache[i], s.cache[i + 1], History(s.addr, uses, j), Last(uses));
    if Tag(host) != 0 && !IsLoaded(s.addr, host) {
      NotCached(s, uses, host);
    }
    OwnWays(s.addr, uses, host, now, s.cache[i], s.cache[i + 1], t.cache[i], t.cache[i + 1]);
  }

  lemma OtherSet(addr: seq<AddrEntry>, uses: seq<Use>, host: nat, now: nat, j: nat)
    requires |addr| == MAX_NUM_NETWORKS && j != SetOf(host)
    ensures History(addr, uses + [(host, now)], j) == History(addr, uses, j)
  {
    assert (uses + [(host, now)])[..|uses|] == uses;
  }

  lemma UseKeepsSet(s: Store, t: Store, uses: seq<Use>, host: nat, now: nat, j: nat)
    requires Owned(s) && Sized(t) && LookedUp(s, t, host, now) && SetsHold(s, uses) && Last(uses) < now && j < 512
    ensures SetHolds(t.cache[2 * j], t.cache[2 * j + 1], History(s.addr, uses + [(host, now)], j), now)
  {
    if j == SetOf(host) {
      UseKeepsOwnSet(s, t, uses, host, now);
    } else {
      OtherSet(s.addr, uses, host, now, j);
      Later(s.cache[2 * j], s.cache[2 * j + 1], History(s.addr, uses, j), Last(uses), now);
    }
  }

  // One lookup keeps every set at its two most recent remembered blocks, and counts
  // a miss exactly when the block was not one of them.
  lemma UseKeepsSets(s: Store, uses: seq<Use>, host: nat, now: nat)
    requires Owned(s) && SetsHold(s, uses) && Last(uses) < now
    ensures var t := Lookup(s, host, now).0;
      && t.addr == s.addr && Sized(t) && SetsHold(t, uses + [(host, now)])
      && t.misses == if IsLoaded(s.addr, host) && !IsRecent(History(s.addr, uses, SetOf(host)).h, Tag(host))
                     then (s.misses + 1) % DWORD else s.misses
  {
    var t := Lookup(s, host, now).0;
    LookupKeepsTables(s, host, now);
    LookupOnSet(s, host, now);
    UseKeepsOwnSet(s, t, uses, host, now);
    forall j {:trigger History(s.addr, uses + [(host, now)], j)} | 0 <= j < 512
      ensures SetHolds(t.cache[2 * j], t.cache[2 * j + 1], History(s.addr, uses + [(host, now)], j), now)
    {
      UseKeepsSet(s, t, uses, host, now, j);
    }
  }

  lemma CountOne(misses: nat, n: nat)
    ensures ((misses + n) % DWORD + 1) % DWORD == (misses + (n + 1)) % DWORD
  {
  }

  lemma CountIf(start: nat, n: nat, more: bool, before: nat, after: nat)
    requires before == (start + n) % DWORD && after == if more then (before + 1) % DWORD else before
    ensures after == (start + (n + if more then 1 else 0)) % DWORD
  {
    CountOne(start, n);
  }

  // The sets and the miss counter of `t`, which a run of lookups has made of `s`.
  ghost predicate RunKept(s: Store, uses: seq<Use>, t: Store)
    requires Owned(s)
  {
    Owned(t) && t.addr == s.addr && SetsHold(t, uses) && t.misses == (s.misses + Misses(s.addr, uses)) % DWORD
  }

  lemma OneMoreMiss(addr: seq<AddrEntry>, before: seq<Use>, host: nat, now: nat)
    requires |addr| == MAX_NUM_NETWORKS
    ensures Misses(addr, before + [(host, now)]) == Misses(addr, before) +
      if IsLoaded(addr, host) && !IsRecent(History(addr, before, SetOf(host)).h, Tag(host)) then 1 else 0
  {
    assert (before + [(host, now)])[..|before|] == before;
  }

  // `u` is what one more use makes of `t`.
  lemma KeptAfter(s: Store, t: Store, u: Store, before: seq<Use>, host: nat, now: nat)
    requires Owned(s) && RunKept(s, before, t)
    requires Owned(u) && u.addr == t.addr && SetsHold(u, before + [(host, now)])
    requires u.misses == if IsLoaded(t.addr, host) && !IsRecent(History(t.addr, before, SetOf(host)).h, Tag(host))
                         then (t.misses + 1) % DWORD else t.misses
    ensures RunKept(s, before + [(host, now)], u)
  {
    OneMoreMiss(s.addr, before, host, now);
    var missed := IsLoaded(s.addr, host) && !IsRecent(History(s.addr, before, SetOf(host)).h, Tag(host));
    CountIf(s.misses, Misses(s.addr, before), missed, t.misses, u.misses);
  }

  lemma UseKept(s: Store, t: Store, before: seq<Use>, host: nat, now: nat)
    requires Owned(s) && RunKept(s, before, t) && Last(before) < now
    ensures RunKept(s, before + [(host, now)], Lookup(t, host, now).0)
  {
    LookupKeepsTables(t, host, now);
    UseKeepsSets(t, before, host, now);
    KeptAfter(s, t, Lookup(t, host, now).0, before, host, now);
  }

  // The last use of a run, and the store it finds.
  lemma LastUse(s: Store, uses: seq<Use>) returns (before: seq<Use>, host: nat, now: nat, t: Store)
    requires Owned(s) && Timed(uses) && uses != []
    ensures uses == before + [(host, now)] && Timed(before) && Last(before) < now
    ensures t == RunLookups(s, before) && Owned(t) && RunLookups(s, uses) == Lookup(t, host, now).0
  {
    before, host, now := uses[..|uses| - 1], uses[|uses| - 1].0, uses[|uses| - 1].1;
    t := RunLookups(s, before);
  }

  // Over any run of timed lookups after a flush, every set holds the two most
  // recently used distinct blocks it remembers, and the miss counter has counted
  // exactly the uses of a block that was not among them.
  lemma {:induction false} RunKeepsRecent(s: Store, uses: seq<Use>)
    requires Owned(s) && s.cache == Flushed() && s.misses < DWORD && Timed(uses)
    ensures RunKept(s, uses, RunLookups(s, uses))
    decreases |uses|
  {
    if uses != [] {
      var before, host, now, t := LastUse(s, uses);
      RunKeepsRecent(s, before);
      UseKept(s, t, before, host, now);
    }
  }

  // The access counter counts every lookup.
  lemma {:induction false} AccessesCounted(s: Store, uses: seq<Use>)
    requires Owned(s) && s.accesses < DWORD
    ensures RunLookups(s, uses).accesses == (s.accesses + |uses|) % DWORD
    decreases |uses|
  {
    if uses != [] {
      var t := RunLookups(s, uses[..|uses| - 1]);
      AccessesCounted(s, uses[..|uses| - 1]);
      OneAccess(t, uses[|uses| - 1].0, uses[|uses| - 1].1);
      CountIf(s.accesses, |uses| - 1, true, t.accesses, RunLookups(s, uses).accesses);
    }
  }

  lemma OneAccess(s: Store, host: nat, now: nat)
    requires Owned(s)
    ensures Lookup(s, host, now).0.accesses == (s.accesses + 1) % DWORD
  {
  }

  // ----- What a set forgets

  // What is remembered is the end of what was used; what was forgotten ended with
  // another block.
  predicate Remembers(blocks: seq<nat>, h: seq<nat>) {
    && |h| <= |blocks| && blocks[|blocks| - |h|..] == h
    && (|h| < |blocks| ==> h != [] && blocks[|blocks| - |h| - 1] != h[0])
  }

  lemma RememberBoth(blocks: seq<nat>, h: seq<nat>, t: nat)
    requires Remembers(blocks, h)
    ensures Remembers(blocks + [t], h + [t])
  {
    var n := |blocks| - |h|;
    assert (blocks + [t])[n..] == blocks[n..] + [t];
    assert h == [] ==> blocks == [];
    assert h != [] ==> (h + [t])[0] == h[0];
  }

  lemma StartAgain(blocks: seq<nat>, h: seq<nat>, t: nat)
    requires Remembers(blocks, h) && h != [] && t != h[|h| - 1]
    ensures Remembers(blocks + [t], [t])
  {
    assert h[|h| - 1] == blocks[|blocks| - |h|..][|h| - 1] == blocks[|blocks| - 1];
    assert (blocks + [t])[|blocks|..] == [t];
  }

  lemma RememberMore(blocks: seq<nat>, m: Memory, t: nat, loaded: bool)
    requires Remembers(blocks, m.h) && (t == 0 ==> !loaded)
    ensures Remembers(if loaded then blocks + [t] else blocks, Remember(m, t, loaded).h)
  {
    if loaded && m.forget && m.h != [] && t != m.h[|m.h| - 1] {
      StartAgain(blocks, m.h, t);
    } else if loaded {
      RememberBoth(blocks, m.h, t);
    }
  }

  lemma {:induction false} HistoryRemembers(addr: seq<AddrEntry>, uses: seq<Use>, j: nat)
    requires |addr| == MAX_NUM_NETWORKS
    ensures Remembers(Blocks(addr, uses, j), History(addr, uses, j).h)
  {
    if uses != [] {
      var before, host := uses[..|uses| - 1], uses[|uses| - 1].0;
      HistoryRemembers(addr, before, j);
      if Tag(host) == 0 {
        ZeroIsNotLoaded(addr, host);
      }
      RememberMore(Blocks(addr, before, j), History(addr, before, j), Tag(host), IsLoaded(addr, host));
    }
  }

  // Without the two hosts nothing is forgotten.
  lemma {:induction false} NothingForgotten(addr: seq<AddrEntry>, uses: seq<Use>, j: nat)
    requires |addr| == MAX_NUM_NETWORKS && forall k {:trigger uses[k]} :: 0 <= k < |uses| ==> Tag(uses[k].0) != 0
    ensures History(addr, uses, j) == Memory(Blocks(addr, uses, j), false)
  {
    if uses != [] {
      NothingForgotten(addr, uses[..|uses| - 1], j);
    }
  }

  // The end of a sequence decides what comes before its last element.
  lemma {:induction false} LastOtherOfEnd(blocks: seq<nat>, h: seq<nat>, t: nat)
    requires |h| <= |blocks| && blocks[|blocks| - |h|..] == h
    ensures LastOther(h, t).Some? ==> LastOther(blocks, t) == LastOther(h, t)
    ensures LastOther(h, t).None? ==> LastOther(blocks, t) == LastOther(blocks[..|blocks| - |h|], t)
    decreases |h|
  {
    if h == [] {
      assert blocks[..|blocks|] == blocks;
    } else {
      assert h[|h| - 1] == blocks[|blocks| - 1];
      var shorter := blocks[..|blocks| - 1];
      assert shorter[|shorter| - (|h| - 1)..] == h[..|h| - 1];
      assert shorter[..|shorter| - (|h| - 1)] == blocks[..|blocks| - |h|];
      LastOtherOfEnd(shorter, h[..|h| - 1], t);
    }
  }

  lemma {:induction false} NoOther(h: seq<nat>, t: nat)
    ensures LastOther(h, t) == None <==> forall i :: 0 <= i < |h| ==> h[i] == t
  {
    if h != [] {
      NoOther(h[..|h| - 1], t);
    }
  }

  // The remembered pair is the pair of the two most recently used blocks exactly
  // when nothing has been forgotten or two blocks have been used since.
  lemma RecentIffRemembered(blocks: seq<nat>, h: seq<nat>)
    requires Remembers(blocks, h)
    ensures (forall t :: IsRecent(h, t) <==> IsRecent(blocks, t)) <==> h == blocks || !OneBlock(h)
  {
    if |h| < |blocks| {
      var t, gone := h[|h| - 1], blocks[..|blocks| - |h|];
      LastOtherOfEnd(blocks, h, t);
      if OneBlock(h) {
        OneBlockIsOne(h);
        assert gone[|gone| - 1] != t;
        assert IsRecent(blocks, gone[|gone| - 1]) && !IsRecent(h, gone[|gone| - 1]);
      }
    }
  }

  lemma OneBlockIsOne(h: seq<nat>)
    requires OneBlock(h)
    ensures forall i :: 0 <= i < |h| ==> h[i] == h[|h| - 1]
  {
    NoOther(h, h[|h| - 1]);
  }

  // What the set of entries `i` and `i + 1` holds after a lookup in it.
  lemma LookupInSet(s: Store, i: nat, m: Memory, last: nat, host: nat, now: nat)
    requires Owned(s) && CacheSet(host) == i && SetHolds(s.cache[i], s.cache[i + 1], m, last) && last < now
    requires Tag(host) == 0 || IsLoaded(s.addr, host)
    ensures var t := Lookup(s, host, now).0;
      && Owned(t) && t.addr == s.addr
      && SetHolds(t.cache[i], t.cache[i + 1], Remember(m, Tag(host), IsLoaded(s.addr, host)), now)
  {
    LookupKeepsTables(s, host, now);
    LookupOnSet(s, host, now);
    var t, loaded := Lookup(s, host, now).0, IsLoaded(s.addr, host);
    if Tag(host) == 0 {
      ZeroIsNotLoaded(s.addr, host);
    }
    WaysRemember(s.cache[i], s.cache[i + 1], t.cache[i], t.cache[i + 1], Tag(host), now, loaded, m, last);
  }

  // The block last used in the set of 0.0.0.0 and 0.0.0.1 survives a lookup of one of
  // these and then the use of a block that is not cached exactly when it is not the
  // only one.
  lemma ZeroHostEvicts(s: Store, i: nat, m: Memory, last: nat, zero: nat, clock: nat, host: nat, now: nat)
    requires Owned(s) && CacheSet(zero) == CacheSet(host) == i && SetHolds(s.cache[i], s.cache[i + 1], m, last)
    requires last < clock < now && Tag(zero) == 0 && IsLoaded(s.addr, host) && m.h != [] && !IsRecent(m.h, Tag(host))
    ensures Owned(Lookup(s, zero, clock).0)
    ensures var t := Lookup(Lookup(s, zero, clock).0, host, now).0; var b := m.h[|m.h| - 1];
      t.cache[i].tag == b || t.cache[i + 1].tag == b <==> !OneBlock(m.h)
  {
    ZeroIsNotLoaded(s.addr, zero);
    LookupInSet(s, i, m, last, zero, clock);
    AfterZero(Lookup(s, zero, clock).0, i, m, clock, host, now);
  }

  lemma AfterZero(u: Store, i: nat, m: Memory, clock: nat, host: nat, now: nat)
    requires Owned(u) && CacheSet(host) == i && SetHolds(u.cache[i], u.cache[i + 1], Remember(m, 0, false), clock)
    requires clock < now && IsLoaded(u.addr, host) && m.h != [] && 0 !in m.h && !IsRecent(m.h, Tag(host))
    ensures var t := Lookup(u, host, now).0; var b := m.h[|m.h| - 1];
      t.cache[i].tag == b || t.cache[i + 1].tag == b <==> !OneBlock(m.h)
  {
    LookupInSet(u, i, Remember(m, 0, false), clock, host, now);
    LoadedTag(u.addr, host);
    EvictedBlock(m, Tag(host));
    var t := Lookup(u, host, now).0;
    HeldAreRecent(t.cache[i], t.cache[i + 1], Remember(Remember(m, 0, false), Tag(host), true), now, m.h[|m.h| - 1]);
  }

  lemma LoadedTag(addr: seq<AddrEntry>, host: nat)
    requires |addr| == MAX_NUM_NETWORKS && IsLoaded(addr, host)
    ensures Tag(host) != 0
  {
    TagFacts(host);
  }

  lemma HeldAreRecent(a: CacheEntry, b: CacheEntry, m: Memory, clock: nat, t: nat)
    requires SetHolds(a, b, m, clock) && m.h != [] && t != 0
    ensures a.tag == t || b.tag == t <==> IsRecent(m.h, t)
  {
  }

  lemma EvictedBlock(m: Memory, t: nat)
    requires m.h != [] && !IsRecent(m.h, t) && t != 0
    ensures Remember(Remember(m, 0, false), t, true).h != []
    ensures IsRecent(Remember(Remember(m, 0, false), t, true).h, m.h[|m.h| - 1]) <==> !OneBlock(m.h)
  {
    var h' := m.h + [t];
    assert h'[..|m.h|] == m.h;
    assert LastOther(h', t) == Some(m.h[|m.h| - 1]);
    assert LastOther([t], t) == LastOther([], t);
  }

  lemma OnlyOne(t: nat)
    ensures OneBlock([t]) && forall u :: IsRecent([t], u) <==> u == t
  {
    assert LastOther([t], t) == LastOther([], t);
  }

  // In the set of entries `i` and `i + 1`: a lookup of `a` at clock 1 caches its block,
  // and lookups of `zero` and `b` at clocks 2 and 3 leave it in neither entry.
  ghost predicate LosesFirst(s: Store, i: nat, a: nat, zero: nat, b: nat)
    requires Owned(s) && i + 1 < NUM_NETWORK_CACHE_ENTRIES
  {
    var t := Lookup(s, a, 1).0;
    && Owned(t) && Tag(a) in {t.cache[i].tag, t.cache[i + 1].tag}
    && var u := Lookup(t, zero, 2).0;
       && Owned(u) && Sized(Lookup(u, b, 3).0)
       && Tag(a) !in {Lookup(u, b, 3).0.cache[i].tag, Lookup(u, b, 3).0.cache[i + 1].tag}
  }

  // From a flushed cache this happens to any two blocks of the set of 0.0.0.0.
  lemma OnlyBlockIsEvicted(s: Store, i: nat, a: nat, zero: nat, b: nat)
    requires Owned(s) && s.cache == Flushed() && Tag(zero) == 0 && Tag(a) != Tag(b)
    requires CacheSet(a) == CacheSet(b) == CacheSet(zero) == i && IsLoaded(s.addr, a) && IsLoaded(s.addr, b)
    ensures LosesFirst(s, i, a, zero, b)
  {
    LookupInSet(s, i, Memory([], false), 0, a, 1);
    LoadedTag(s.addr, a);
    assert [] + [Tag(a)] == [Tag(a)];
    EvictedNext(Lookup(s, a, 1).0, i, Tag(a), zero, b);
    LookupKeepsTables(Lookup(Lookup(s, a, 1).0, zero, 2).0, b, 3);
  }

  lemma EvictedNext(t: Store, i: nat, tag: nat, zero: nat, b: nat)
    requires Owned(t) && CacheSet(b) == CacheSet(zero) == i && tag != 0 && Tag(zero) == 0
    requires SetHolds(t.cache[i], t.cache[i + 1], Memory([tag], false), 1) && IsLoaded(t.addr, b) && Tag(b) != tag
    ensures tag in {t.cache[i].tag, t.cache[i + 1].tag}
    ensures Owned(Lookup(t, zero, 2).0)
    ensures var u := Lookup(Lookup(t, zero, 2).0, b, 3).0; u.cache[i].tag != tag && u.cache[i + 1].tag != tag
  {
    OnlyOne(tag);
    HeldAreRecent(t.cache[i], t.cache[i + 1], Memory([tag], false), 1, tag);
    ZeroHostEvicts(t, i, Memory([tag], false), 1, zero, 2, b, 3);
  }

  // A store with network 128.0.0.0 loaded has such hosts, 128.0.0.0 and 128.0.4.0.
  const ONE_NETWORK := Store(
    seq(MAX_NUM_NETWORKS, i => if i == 0 then AddrEntry(0x80000000, false, 1) else NO_ENTRY),
    seq(MAX_NUM_NEW_NETWORKS, _ => NO_ENTRY),
    map[1 := seq(0x10000, _ => 0)], Flushed(), 0, 0)

  lemma OneNetworkOwned(s: Store)
    requires s == ONE_NETWORK
    ensures Owned(s) && s.cache == Flushed()
  {
    forall k | 0 <= k < 40
      ensures Slot(s, k) == if k == 0 then AddrEntry(0x80000000, false, 1) else NO_ENTRY
    {
    }
    assert Slot(s, 0).hostTable == 1;
  }

  lemma OneNetworkLoaded(s: Store, host: nat)
    requires s == ONE_NETWORK && NetworkPart(host) == Some(0x80000000)
    ensures IsLoaded(s.addr, host)
  {
    var keys := Networks(s.addr);
    assert keys[At(|keys|, 0, 0)] == 0x80000000;
    SlotIsFirst(keys, 0, 0x80000000, 0, 0);
  }

  lemma FirstSet(host: nat, q: nat)
    requires host == 1024 * q
    ensures CacheSet(host) == 0 && Tag(host) == host
  {
    LastBit(512 * q, 0);
  }

  lemma HostOfOne(host: nat, r: nat)
    requires host == 0x80000000 + r && r < 0x10000
    ensures NetworkPart(host) == Some(0x80000000)
  {
    Rem64K(host, 0x8000, r);
  }

  lemma SameSet(a: nat, zero: nat, b: nat)
    requires a == 0x80000000 && zero == 0 && b == 0x80000400
    ensures CacheSet(a) == CacheSet(b) == CacheSet(zero) == 0 && Tag(a) == a && Tag(b) == b && Tag(zero) == 0
  {
    FirstSet(a, 0x200000);
    FirstSet(b, 0x200001);
    FirstSet(zero, 0);
  }

  lemma BothLoaded(s: Store, a: nat, b: nat)
    requires s == ONE_NETWORK && a == 0x80000000 && b == 0x80000400
    ensures IsLoaded(s.addr, a) && IsLoaded(s.addr, b)
  {
    HostOfOne(a, 0);
    HostOfOne(b, 0x400);
    OneNetworkLoaded(s, a);
    OneNetworkLoaded(s, b);
  }

  // Two blocks and 0.0.0.0 that meet in the first set of a flushed cache.
  ghost predicate Collide(s: Store, a: nat, zero: nat, b: nat) {
    && Owned(s) && s.cache == Flushed()
    && CacheSet(a) == CacheSet(b) == CacheSet(zero) == 0 && Tag(a) == a && Tag(b) == b && a != b && Tag(zero) == 0
    && IsLoaded(s.addr, a) && IsLoaded(s.addr, b)
  }

  lemma OneNetworkCollides(s: Store, a: nat, zero: nat, b: nat)
    requires s == ONE_NETWORK && a == 0x80000000 && zero == 0 && b == 0x80000400
    ensures Collide(s, a, zero, b)
  {
    OneNetworkOwned(s);
    SameSet(a, zero, b);
    BothLoaded(s, a, b);
  }

  lemma ColliderLoses(s: Store, a: nat, zero: nat, b: nat)
    requires Collide(s, a, zero, b)
    ensures LosesFirst(s, 0, a, zero, b)
  {
    OnlyBlockIsEvicted(s, 0, a, zero, b);
  }

  // On that store, lookups of 128.0.0.0, 0.0.0.0 and 128.0.4.0 at clocks 1, 2 and 3
  // leave the block of 128.0.0.0 in neither entry of its set.
  lemma OneNetworkEvicts() returns (s: Store, a: nat, zero: nat, b: nat)
    ensures s == ONE_NETWORK && a == 0x80000000 && zero == 0 && b == 0x80000400
    ensures Owned(s) && Tag(a) == a && LosesFirst(s, 0, a, zero, b)
  {
    s, a, zero, b := ONE_NETWORK, 0x80000000, 0, 0x80000400;
    OneNetworkCollides(s, a, zero, b);
    ColliderLoses(s, a, zero, b);
  }
}
