// Linear probing over a circular table. The bridge table (8192 slots) and the
// network table (32 slots) are both searched this way: start at the key's home
// slot, stop at the key or at an empty slot, and give up after a full turn.
module LinearProbing {
  datatype Option<+T> = None | Some(value: T)

  // The slot that is `k` probes after slot `h` in a table of `n` slots.
  function At(n: nat, h: nat, k: nat): (p: nat)
    requires h < n && k <= n
    ensures p < n
  {
    if h + k < n then h + k else h + k - n
  }

  // The number of probes from slot `h` to slot `p`.
  function Dist(n: nat, h: nat, p: nat): (d: nat)
    requires h < n && p < n
    ensures d < n && At(n, h, d) == p
  {
    if h <= p then p - h else p + n - h
  }

  lemma DistAt(n: nat, h: nat, k: nat)
    requires h < n && k < n
    ensures Dist(n, h, At(n, h, k)) == k
  {
  }

  // The next slot, wrapping round at the end of the table.
  function Next(n: nat, p: nat): (q: nat)
    requires p < n
    ensures q < n && q == At(n, p, 1)
  {
    if p + 1 == n then 0 else p + 1
  }

  // The first slot at probe `k` or later that holds `key` or is empty.
  function FindSlot<K(==)>(keys: seq<K>, empty: K, key: K, h: nat, k: nat): (r: Option<nat>)
    requires h < |keys| && k <= |keys|
    ensures r.Some? ==> r.value < |keys| && (keys[r.value] == key || keys[r.value] == empty)
    ensures r.Some? ==> k <= Dist(|keys|, h, r.value)
    ensures r.Some? ==>
      forall j {:trigger At(|keys|, h, j)} :: k <= j < Dist(|keys|, h, r.value) ==>
        keys[At(|keys|, h, j)] != key && keys[At(|keys|, h, j)] != empty
    ensures r.None? ==>
      forall j {:trigger At(|keys|, h, j)} :: k <= j < |keys| ==>
        keys[At(|keys|, h, j)] != key && keys[At(|keys|, h, j)] != empty
    decreases |keys| - k
  {
    if k == |keys| then None
    else
      var p := At(|keys|, h, k);
      if keys[p] == key || keys[p] == empty then Some(p) else FindSlot(keys, empty, key, h, k + 1)
  }

  // Every slot probed before probe `k` holds some other key.
  ghost predicate Passed<K>(keys: seq<K>, empty: K, key: K, h: nat, k: nat)
    requires h < |keys| && k <= |keys|
  {
    forall j {:trigger At(|keys|, h, j)} :: 0 <= j < k ==>
      keys[At(|keys|, h, j)] != key && keys[At(|keys|, h, j)] != empty
  }

  // The search ends at the first slot it cannot pass.
  lemma SlotIsFirst<K>(keys: seq<K>, empty: K, key: K, h: nat, k: nat)
    requires h < |keys| && k <= |keys| && Passed(keys, empty, key, h, k)
    ensures k == |keys| ==> FindSlot(keys, empty, key, h, 0) == None
    ensures k < |keys| && (keys[At(|keys|, h, k)] == key || keys[At(|keys|, h, k)] == empty) ==>
      FindSlot(keys, empty, key, h, 0) == Some(At(|keys|, h, k))
  {
  }

  // The lookup result: the slot of `key`, or None when the search meets an empty
  // slot first or comes back to the home slot.
  function Find<K(==)>(keys: seq<K>, empty: K, key: K, h: nat): Option<nat>
    requires h < |keys|
  {
    var slot := FindSlot(keys, empty, key, h, 0);
    if slot.Some? && keys[slot.value] == key then slot else None
  }

  // The slots probed before slot `i` when searching for the key stored there are
  // all occupied, by other keys.
  ghost predicate Reachable<K(!new)>(keys: seq<K>, empty: K, home: K -> nat, i: nat)
    requires i < |keys|
  {
    home(keys[i]) < |keys| &&
    forall j {:trigger At(|keys|, home(keys[i]), j)} :: 0 <= j < Dist(|keys|, home(keys[i]), i) ==>
      keys[At(|keys|, home(keys[i]), j)] != empty && keys[At(|keys|, home(keys[i]), j)] != keys[i]
  }

  ghost predicate WellFormed<K(!new)>(keys: seq<K>, empty: K, home: K -> nat) {
    forall i {:trigger Reachable(keys, empty, home, i)} ::
      0 <= i < |keys| && keys[i] != empty ==> Reachable(keys, empty, home, i)
  }

  // An entry is found by its key exactly when it is reachable.
  lemma FoundIffReachable<K(!new)>(keys: seq<K>, empty: K, home: K -> nat, i: nat)
    requires i < |keys| && keys[i] != empty && home(keys[i]) < |keys|
    ensures Find(keys, empty, keys[i], home(keys[i])) == Some(i) <==> Reachable(keys, empty, home, i)
  {
    var n, h := |keys|, home(keys[i]);
    var d := Dist(n, h, i);
    var r := FindSlot(keys, empty, keys[i], h, 0);
    if Reachable(keys, empty, home, i) {
      assert keys[At(n, h, d)] == keys[i];
      assert r.Some?;
      var e := Dist(n, h, r.value);
      assert keys[At(n, h, e)] == keys[r.value];
      assert e == d;
    }
  }

  // In a well-formed table a nonempty key is found exactly where it is stored.
  lemma FindExact<K(!new)>(keys: seq<K>, empty: K, home: K -> nat, key: K)
    requires WellFormed(keys, empty, home) && key != empty && home(key) < |keys|
    ensures forall i :: 0 <= i < |keys| ==>
      (keys[i] == key <==> Find(keys, empty, key, home(key)) == Some(i))
  {
    forall i | 0 <= i < |keys| && keys[i] == key
      ensures Find(keys, empty, key, home(key)) == Some(i)
    {
      assert Reachable(keys, empty, home, i);
      FoundIffReachable(keys, empty, home, i);
    }
  }

  // No slot to use means that the table is full and does not hold the key.
  lemma NoSlotMeansFull<K(!new)>(keys: seq<K>, empty: K, key: K, h: nat)
    requires h < |keys|
    ensures FindSlot(keys, empty, key, h, 0) == None <==> key !in keys && empty !in keys
  {
    var r := FindSlot(keys, empty, key, h, 0);
    if r.None? {
      forall i | 0 <= i < |keys|
        ensures keys[i] != key && keys[i] != empty
      {
        assert At(|keys|, h, Dist(|keys|, h, i)) == i;
      }
    }
  }

  // Writing a key to the slot that its search chose keeps every entry reachable.
  lemma InsertKeepsWellFormed<K(!new)>(keys: seq<K>, empty: K, home: K -> nat, key: K, p: nat)
    requires WellFormed(keys, empty, home) && key != empty && home(key) < |keys|
    requires FindSlot(keys, empty, key, home(key), 0) == Some(p)
    ensures p < |keys| && WellFormed(keys[p := key], empty, home)
  {
    FindExact(keys, empty, home, key);
    var after, found := keys[p := key], Find(keys, empty, key, home(key));
    forall i | 0 <= i < |after| && after[i] != empty
      ensures Reachable(after, empty, home, i)
    {
      if i != p {
        assert Reachable(keys, empty, home, i);
        assert key == keys[i] ==> found == Some(i);
      }
    }
  }

  // Writing to the chosen slot changes no other key's lookup.
  lemma InsertKeepsOthers<K(!new)>(keys: seq<K>, empty: K, home: K -> nat, key: K, p: nat, other: K)
    requires WellFormed(keys, empty, home) && key != empty && home(key) < |keys|
    requires FindSlot(keys, empty, key, home(key), 0) == Some(p) && p < |keys|
    requires other != empty && other != key && home(other) < |keys|
    ensures Find(keys[p := key], empty, other, home(other)) == Find(keys, empty, other, home(other))
  {
    InsertKeepsWellFormed(keys, empty, home, key, p);
    FindExact(keys, empty, home, other);
    FindExact(keys[p := key], empty, home, other);
    var before := Find(keys, empty, other, home(other));
    var after := Find(keys[p := key], empty, other, home(other));
    if before.Some? {
      assert keys[before.value] == other && keys[p := key][before.value] == other;
    }
    if after.Some? {
      assert keys[p := key][after.value] == other && keys[after.value] == other;
    }
  }
}
