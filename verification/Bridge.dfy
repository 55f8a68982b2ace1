// The learning bridge: which board each hardware address was last heard on, and
// whether a frame must be passed to the other board.
module Bridge {
  import opened FiniteSets
  import opened LinearProbing

  const MAX_NUM_ADDRESSES: nat := 8192

  // A hardware address as three little-endian words.
  datatype HwAddr = HwAddr(w0: bv16, w1: bv16, w2: bv16)

  const ZERO := HwAddr(0, 0, 0)

  // Multicast and broadcast addresses have the low bit of their first byte set.
  predicate IsBroadcast(a: HwAddr) {
    a.w0 & 1 == 1
  }

  function Hash(a: HwAddr): nat {
    ((a.w0 ^ a.w1 ^ a.w2) & 0x1FFF) as nat
  }

  lemma HashInRange(a: HwAddr)
    ensures Hash(a) < MAX_NUM_ADDRESSES
  {
  }

  // `boardNumber` is one byte wide; a `macId` is stored modulo 256.
  datatype HashEntry = HashEntry(address: HwAddr, boardNumber: nat, valid: bool)

  const EMPTY := HashEntry(ZERO, 0, false)

  datatype Frame = Frame(macId: nat, dest: HwAddr, src: HwAddr)

  function Addresses(s: seq<HashEntry>): (r: seq<HwAddr>)
    ensures |r| == |s|
    ensures forall i :: 0 <= i < |s| ==> r[i] == s[i].address
  {
    seq(|s|, i requires 0 <= i < |s| => s[i].address)
  }

  // ----- One table as a value

  // Every reachable table: valid slots hold the nonzero addresses, and each is
  // found from its hash slot.
  ghost predicate TableOk(s: seq<HashEntry>) {
    && |s| == MAX_NUM_ADDRESSES
    && WellFormed(Addresses(s), ZERO, Hash)
    && MarksMatch(s)
  }

  ghost predicate MarksMatch(s: seq<HashEntry>) {
    forall i {:trigger s[i]} :: 0 <= i < |s| ==> (s[i].valid <==> s[i].address != ZERO)
  }

  // The slot a search for `a` stops at with a match.
  function Locate(s: seq<HashEntry>, a: HwAddr): Option<nat>
    requires |s| == MAX_NUM_ADDRESSES
  {
    HashInRange(a);
    Find(Addresses(s), ZERO, a, Hash(a))
  }

  function LookUp(s: seq<HashEntry>, a: HwAddr): (board: int)
    requires |s| == MAX_NUM_ADDRESSES
  {
    HashInRange(a);
    var slot := Locate(s, a);
    if slot.Some? then s[slot.value].boardNumber else -1
  }

  function Passes(s: seq<HashEntry>, f: Frame): bool
    requires |s| == MAX_NUM_ADDRESSES
  {
    IsBroadcast(f.dest) || LookUp(s, f.dest) != f.macId
  }

  // The table after the source half of a frame.
  function Learn(s: seq<HashEntry>, f: Frame): (r: seq<HashEntry>)
    requires |s| == MAX_NUM_ADDRESSES
    ensures |r| == |s|
  {
    HashInRange(f.src);
    var slot := FindSlot(Addresses(s), ZERO, f.src, Hash(f.src), 0);
    if IsBroadcast(f.src) || slot.None? then s
    else if s[slot.value].address == f.src then
      s[slot.value := s[slot.value].(boardNumber := f.macId % 256)]
    else
      s[slot.value := HashEntry(f.src, f.macId % 256, true)]
  }

  // ----- The map it stands for

  ghost predicate Distinct(s: seq<HashEntry>) {
    forall i, j {:trigger s[i], s[j]} ::
      0 <= i < |s| && 0 <= j < |s| && s[i].valid && s[j].valid && s[i].address == s[j].address ==> i == j
  }

  lemma TableIsDistinct(s: seq<HashEntry>)
    requires TableOk(s)
    ensures Distinct(s)
  {
    forall i, j | 0 <= i < |s| && 0 <= j < |s| && s[i].valid && s[j].valid && s[i].address == s[j].address
      ensures i == j
    {
      HashInRange(s[i].address);
      FindExact(Addresses(s), ZERO, Hash, s[i].address);
      assert Addresses(s)[i] == Addresses(s)[j];
    }
  }

  // The address-to-board map that the valid slots of a table spell out.
  ghost function Learned(s: seq<HashEntry>): (m: map<HwAddr, nat>)
    requires Distinct(s)
    ensures forall i {:trigger s[i]} :: 0 <= i < |s| && s[i].valid ==>
      s[i].address in m && m[s[i].address] == s[i].boardNumber
    ensures forall a {:trigger a in m} :: a in m ==> exists i :: 0 <= i < |s| && s[i].valid && s[i].address == a
  {
    map i | 0 <= i < |s| && s[i].valid :: s[i].address := s[i].boardNumber
  }

  // The probing search answers from the map. The zero address is the exception:
  // it also matches an empty slot, so it is only ever "unknown" in a full table.
  lemma LookUpIsMap(s: seq<HashEntry>, a: HwAddr)
    requires TableOk(s)
    ensures Distinct(s)
    ensures a in Learned(s) ==> LookUp(s, a) == Learned(s)[a]
    ensures LookUp(s, a) == -1 <==> a !in Learned(s) && (a != ZERO || ZERO !in Addresses(s))
  {
    TableIsDistinct(s);
    LocateIsSlot(s, a);
    var r := Locate(s, a);
    if a in Learned(s) {
      var i :| 0 <= i < |s| && s[i].valid && s[i].address == a;
      assert r == Some(i);
    } else if r.Some? {
      assert !s[r.value].valid;
    }
  }

  lemma LocateIsSlot(s: seq<HashEntry>, a: HwAddr)
    requires TableOk(s)
    ensures forall i {:trigger s[i]} :: 0 <= i < |s| && s[i].valid && s[i].address == a ==> Locate(s, a) == Some(i)
    ensures Locate(s, a).Some? ==> Locate(s, a).value < |s| && s[Locate(s, a).value].address == a
    ensures a == ZERO ==> (Locate(s, a) == None <==> ZERO !in Addresses(s))
  {
    HashInRange(a);
    var keys := Addresses(s);
    if a != ZERO {
      FindExact(keys, ZERO, Hash, a);
      forall i | 0 <= i < |s| && s[i].valid && s[i].address == a
        ensures Locate(s, a) == Some(i)
      {
        assert keys[i] == a;
      }
    } else {
      NoSlotMeansFull(keys, ZERO, a, Hash(a));
    }
  }

  // The map's own view of a frame: a unicast nonzero source is learned or moved
  // unless it is unknown and all 8192 slots are taken.
  function LearnMap(m: map<HwAddr, nat>, f: Frame): map<HwAddr, nat> {
    if IsBroadcast(f.src) || f.src == ZERO then m
    else if f.src in m || |m| < MAX_NUM_ADDRESSES then m[f.src := f.macId % 256]
    else m
  }

  // The map's own forwarding rule: hold a frame back exactly when its unicast
  // destination is known to be on the board it came from.
  predicate PassesMap(m: map<HwAddr, nat>, f: Frame) {
    IsBroadcast(f.dest) || !(f.dest in m && m[f.dest] == f.macId)
  }

  ghost function ValidSlots(s: seq<HashEntry>): set<int> {
    set i | 0 <= i < |s| && s[i].valid
  }

  lemma CountLearned(s: seq<HashEntry>)
    requires Distinct(s)
    ensures |Learned(s)| == |ValidSlots(s)|
  {
    var address := map i | 0 <= i < |s| :: s[i].address;
    forall a | a in Learned(s)
      ensures exists x :: x in ValidSlots(s) && address[x] == a
    {
      var i :| 0 <= i < |s| && s[i].valid && s[i].address == a;
      assert i in ValidSlots(s) && address[i] == a;
    }
    ImageSize(ValidSlots(s), address, Learned(s).Keys);
  }

  // The map is full exactly when no slot is left.
  lemma FullMeansFull(s: seq<HashEntry>)
    requires Distinct(s) && |s| == MAX_NUM_ADDRESSES
    ensures |Learned(s)| < MAX_NUM_ADDRESSES <==> exists i :: 0 <= i < |s| && !s[i].valid
  {
    CountLearned(s);
    CountSlots(MAX_NUM_ADDRESSES, ValidSlots(s));
    if i :| 0 <= i < |s| && i !in ValidSlots(s) {
      assert !s[i].valid;
    }
    if i :| 0 <= i < |s| && !s[i].valid {
      assert i !in ValidSlots(s);
    }
  }

  // ----- One frame

  lemma LearnKeepsTable(s: seq<HashEntry>, f: Frame)
    requires TableOk(s)
    ensures TableOk(Learn(s, f))
  {
    HashInRange(f.src);
    var keys := Addresses(s);
    var slot := FindSlot(keys, ZERO, f.src, Hash(f.src), 0);
    var t := Learn(s, f);
    if !IsBroadcast(f.src) && slot.Some? {
      assert Addresses(t) == keys[slot.value := f.src];
      if f.src != ZERO {
        InsertKeepsWellFormed(keys, ZERO, Hash, f.src, slot.value);
      } else {
        assert keys[slot.value := f.src] == keys;
      }
    }
  }

  ghost predicate SameExcept(s: seq<HashEntry>, t: seq<HashEntry>, p: nat) {
    |t| == |s| && p < |s| && forall i {:trigger t[i]} {:trigger s[i]} :: 0 <= i < |s| && i != p ==> t[i] == s[i]
  }

  // Writing one slot leaves what is known of other addresses alone.
  lemma OthersKept(s: seq<HashEntry>, t: seq<HashEntry>, p: nat, a: HwAddr)
    requires Distinct(s) && Distinct(t) && SameExcept(s, t, p) && a != t[p].address
    requires s[p].valid ==> s[p].address == t[p].address
    ensures a in Learned(s) ==> a in Learned(t) && Learned(t)[a] == Learned(s)[a]
    ensures a in Learned(t) ==> a in Learned(s)
  {
  }

  // Writing one slot writes one key of the map.
  lemma WriteSlot(s: seq<HashEntry>, t: seq<HashEntry>, p: nat)
    requires Distinct(s) && Distinct(t) && SameExcept(s, t, p) && t[p].valid
    requires s[p].valid ==> s[p].address == t[p].address
    ensures Learned(t) == Learned(s)[t[p].address := t[p].boardNumber]
  {
    assert t[p].address in Learned(t) && Learned(t)[t[p].address] == t[p].boardNumber;
    forall a | a != t[p].address
      ensures a in Learned(s) <==> a in Learned(t)
      ensures a in Learned(s) && a in Learned(t) ==> Learned(t)[a] == Learned(s)[a]
    {
      OthersKept(s, t, p, a);
    }
  }

  // Writing to a slot that stays empty leaves the map alone.
  lemma WriteEmptySlot(s: seq<HashEntry>, t: seq<HashEntry>, p: nat)
    requires Distinct(s) && Distinct(t) && SameExcept(s, t, p) && !s[p].valid && !t[p].valid
    ensures Learned(t) == Learned(s)
  {
    forall a | a in Learned(s)
      ensures a in Learned(t) && Learned(t)[a] == Learned(s)[a]
    {
      var i :| 0 <= i < |s| && s[i].valid && s[i].address == a;
      assert t[i] == s[i];
    }
    forall a | a in Learned(t)
      ensures a in Learned(s)
    {
      var i :| 0 <= i < |t| && t[i].valid && t[i].address == a;
    }
  }

  // A frame changes the table exactly as it changes the map.
  lemma LearnRefines(s: seq<HashEntry>, f: Frame)
    requires TableOk(s)
    ensures TableOk(Learn(s, f)) && Distinct(s) && Distinct(Learn(s, f))
    ensures Learned(Learn(s, f)) == LearnMap(Learned(s), f)
  {
    var t := Learn(s, f);
    LearnKeepsTable(s, f);
    TableIsDistinct(s);
    TableIsDistinct(t);
    if !IsBroadcast(f.src) {
      HashInRange(f.src);
      var slot := FindSlot(Addresses(s), ZERO, f.src, Hash(f.src), 0);
      if slot.Some? {
        LearnInSlot(s, f, slot.value);
      } else {
        LearnInFullTable(s, f);
      }
    }
  }

  lemma LearnInSlot(s: seq<HashEntry>, f: Frame, p: nat)
    requires TableOk(s) && TableOk(Learn(s, f)) && Distinct(s) && Distinct(Learn(s, f))
    requires !IsBroadcast(f.src) && Hash(f.src) < MAX_NUM_ADDRESSES
    requires FindSlot(Addresses(s), ZERO, f.src, Hash(f.src), 0) == Some(p)
    ensures Learned(Learn(s, f)) == LearnMap(Learned(s), f)
  {
    var t := Learn(s, f);
    assert SameExcept(s, t, p);
    if f.src == ZERO {
      WriteEmptySlot(s, t, p);
    } else {
      WriteSlot(s, t, p);
      FullMeansFull(s);
      LocateIsSlot(s, f.src);
      assert s[p].valid || f.src !in Learned(s);
    }
  }

  lemma LearnInFullTable(s: seq<HashEntry>, f: Frame)
    requires TableOk(s) && Distinct(s) && Hash(f.src) < MAX_NUM_ADDRESSES
    requires FindSlot(Addresses(s), ZERO, f.src, Hash(f.src), 0) == None
    ensures f.src !in Learned(s) && |Learned(s)| >= MAX_NUM_ADDRESSES
  {
    FullMeansFull(s);
    NoSlotMeansFull(Addresses(s), ZERO, f.src, Hash(f.src));
    forall i | 0 <= i < |s|
      ensures s[i].valid && s[i].address != f.src
    {
      assert Addresses(s)[i] == s[i].address;
    }
  }

  // ----- Whole runs

  function InitialTable(): (s: seq<HashEntry>)
    ensures |s| == MAX_NUM_ADDRESSES && forall i :: 0 <= i < |s| ==> s[i] == EMPTY
  {
    seq(MAX_NUM_ADDRESSES, _ => EMPTY)
  }

  // The table after a run of frames and the decision taken on each.
  function RunTable(s: seq<HashEntry>, frames: seq<Frame>): (r: (seq<HashEntry>, seq<bool>))
    requires |s| == MAX_NUM_ADDRESSES
    ensures |r.0| == MAX_NUM_ADDRESSES
    decreases |frames|
  {
    if frames == [] then (s, [])
    else
      var (t, passes) := RunTable(Learn(s, frames[0]), frames[1..]);
      (t, [Passes(s, frames[0])] + passes)
  }

  function RunMap(m: map<HwAddr, nat>, frames: seq<Frame>): (r: (map<HwAddr, nat>, seq<bool>))
    decreases |frames|
  {
    if frames == [] then (m, [])
    else
      var (t, passes) := RunMap(LearnMap(m, frames[0]), frames[1..]);
      (t, [PassesMap(m, frames[0])] + passes)
  }

  // `s` is a reachable table whose valid slots spell out `m`.
  ghost predicate Models(s: seq<HashEntry>, m: map<HwAddr, nat>) {
    TableOk(s) && Distinct(s) && Learned(s) == m
  }

  lemma StepModels(s: seq<HashEntry>, m: map<HwAddr, nat>, f: Frame)
    requires Models(s, m)
    ensures Models(Learn(s, f), LearnMap(m, f))
    ensures f.dest != ZERO ==> (Passes(s, f) <==> PassesMap(m, f))
  {
    LearnRefines(s, f);
    LookUpIsMap(s, f.dest);
  }

  // Over any run the probing table is a plain map: same final contents, and the
  // same decision on every frame whose destination is not the zero address.
  lemma {:induction false} RunRefines(s: seq<HashEntry>, m: map<HwAddr, nat>, frames: seq<Frame>)
    requires Models(s, m)
    ensures Models(RunTable(s, frames).0, RunMap(m, frames).0)
    ensures |RunTable(s, frames).1| == |RunMap(m, frames).1| == |frames|
    ensures forall i {:trigger frames[i]} :: 0 <= i < |frames| && frames[i].dest != ZERO ==>
      RunTable(s, frames).1[i] == RunMap(m, frames).1[i]
    decreases |frames|
  {
    if frames != [] {
      var f, rest := frames[0], frames[1..];
      StepModels(s, m, f);
      RunRefines(Learn(s, f), LearnMap(m, f), rest);
      assert forall i :: 0 < i < |frames| ==> frames[i] == rest[i - 1];
    }
  }

  lemma InitialTableOk()
    ensures TableOk(InitialTable()) && Distinct(InitialTable()) && Learned(InitialTable()) == map[]
  {
  }

  // From power-up: what the bridge knows is what the map knows.
  lemma BridgeIsMap(frames: seq<Frame>, a: HwAddr)
    ensures var m := RunMap(map[], frames).0;
            var board := LookUp(RunTable(InitialTable(), frames).0, a);
            && (a in m ==> board == m[a])
            && (a !in m && a != ZERO ==> board == -1)
  {
    InitialTableOk();
    RunRefines(InitialTable(), map[], frames);
    LookUpIsMap(RunTable(InitialTable(), frames).0, a);
  }

  // The zero address is not an unknown address to the bridge: on a fresh table it
  // is reported on board 0, and a frame to it from board 0 is held back.
  lemma ZeroAddressIsNotUnknown(src: HwAddr)
    ensures LookUp(InitialTable(), ZERO) == 0
    ensures !Passes(InitialTable(), Frame(0, ZERO, src)) && PassesMap(map[], Frame(0, ZERO, src))
  {
  }

  // ----- The code

  class BridgeTable {
    const hashTable: array<HashEntry>

    ghost predicate Valid()
      reads this, hashTable
    {
      hashTable.Length == MAX_NUM_ADDRESSES && TableOk(hashTable[..])
    }

    constructor ()
      ensures Valid() && fresh(hashTable)
      ensures hashTable[..] == InitialTable()
    {
      hashTable := new HashEntry[MAX_NUM_ADDRESSES](_ => EMPTY);
      new;
      InitialTableOk();
      assert hashTable[..] == InitialTable();
    }

    // The first slot on the probe path of `addr` that holds it or is empty; -1
    // when the search comes back to where it started.
    method Probe(addr: HwAddr, hash: nat) returns (curr: int)
      requires hashTable.Length == MAX_NUM_ADDRESSES && MarksMatch(hashTable[..])
      requires hash < MAX_NUM_ADDRESSES
      ensures var slot := FindSlot(Addresses(hashTable[..]), ZERO, addr, hash, 0);
              curr == if slot.Some? then slot.value else -1
    {
      curr := hash;
      ghost var k := 0;
      ghost var keys := Addresses(hashTable[..]);
      while hashTable[curr].address != addr
        invariant 0 <= k < MAX_NUM_ADDRESSES && curr == At(MAX_NUM_ADDRESSES, hash, k)
        invariant Passed(keys, ZERO, addr, hash, k)
        decreases MAX_NUM_ADDRESSES - k
      {
        assert keys[curr] == hashTable[..][curr].address;
        if !hashTable[curr].valid {
          break;
        }
        curr := Next(MAX_NUM_ADDRESSES, curr);
        k := k + 1;
        if curr == hash {
          SlotIsFirst(keys, ZERO, addr, hash, k);
          return -1;
        }
      }
      assert keys[curr] == hashTable[..][curr].address;
      SlotIsFirst(keys, ZERO, addr, hash, k);
    }

    method BridgeLookUp(addr: HwAddr) returns (board: int)
      requires Valid()
      ensures board == LookUp(hashTable[..], addr)
    {
      HashInRange(addr);
      var curr := Probe(addr, Hash(addr));
      if curr != -1 && hashTable[curr].address == addr {
        return hashTable[curr].boardNumber;
      }
      return -1;
    }

    // Returns whether the frame is passed on.
    method Bridge(macId: nat, dest: HwAddr, src: HwAddr) returns (pass: bool)
      requires Valid()
      modifies hashTable
      ensures Valid()
      ensures pass == Passes(old(hashTable[..]), Frame(macId, dest, src))
      ensures hashTable[..] == Learn(old(hashTable[..]), Frame(macId, dest, src))
    {
      ghost var f := Frame(macId, dest, src);
      ghost var was := hashTable[..];
      LearnKeepsTable(was, f);
      pass := true;
      if !IsBroadcast(dest) {
        var board := BridgeLookUp(dest);
        if board == macId {
          pass := false;
        }
      }
      assert pass == Passes(was, f);
      if !IsBroadcast(src) {
        HashInRange(src);
        var curr := Probe(src, Hash(src));
        if curr != -1 {
          if hashTable[curr].address != src {
            hashTable[curr] := HashEntry(src, macId % 256, true);
          }
          hashTable[curr] := hashTable[curr].(boardNumber := macId % 256);
        }
      }
      assert hashTable[..] == Learn(was, f);
    }
  }
}
