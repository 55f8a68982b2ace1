// Deleting from a linear-probing table by shuffling up only the entries that
// share the deleted entry's home slot. `home` is negative for an empty slot.
module ShuffleDelete {
  import opened LinearProbing

  // The distance, from slot `h`, at which the scan meets an empty slot. The scan
  // starts one past `h` and comes back to `h` last.
  function ScanEnd<E>(t: seq<E>, home: E -> int, h: nat, c: nat): (stop: nat)
    requires h < |t| && c <= |t|
    ensures c <= stop <= |t|
    ensures forall d {:trigger At(|t|, h, d)} :: c <= d < stop ==> home(t[At(|t|, h, d)]) >= 0
    ensures stop < |t| ==> home(t[At(|t|, h, stop)]) < 0
    decreases |t| - c
  {
    if c == |t| || home(t[At(|t|, h, c)]) < 0 then c else ScanEnd(t, home, h, c + 1)
  }

  // The shuffle from probe `c` up to probe `stop`: each entry with home `h` moves
  // to the hole `i` and leaves the hole behind it. Returns the table and the hole.
  function Shuffle<E>(t: seq<E>, home: E -> int, i: nat, h: nat, c: nat, stop: nat): (r: (seq<E>, nat))
    requires i < |t| && h < |t| && c <= stop <= |t|
    ensures |r.0| == |t| && r.1 < |t|
    decreases stop - c
  {
    if c == stop then (t, i)
    else
      var p := At(|t|, h, c);
      if home(t[p]) == h then Shuffle(t[i := t[p]], home, p, h, c + 1, stop)
      else Shuffle(t, home, i, h, c + 1, stop)
  }

  // No two occupied slots have the same key.
  ghost predicate Distinct<E, K(!new)>(t: seq<E>, home: E -> int, key: E -> K) {
    forall i, j {:trigger t[i], t[j]} ::
      0 <= i < |t| && 0 <= j < |t| && i != j && home(t[i]) >= 0 && home(t[j]) >= 0 ==> key(t[i]) != key(t[j])
  }

  // Slots of other homes are as they were; slots of home `h` still hold home `h`.
  ghost predicate SameShape<E>(t0: seq<E>, t: seq<E>, home: E -> int, h: nat) {
    && |t0| == |t|
    && (forall p {:trigger t[p]} {:trigger t0[p]} :: 0 <= p < |t| && home(t0[p]) != h ==> t[p] == t0[p])
    && (forall p {:trigger t[p]} {:trigger t0[p]} :: 0 <= p < |t| && home(t0[p]) == h ==> home(t[p]) == h)
  }

  // Exchanging a hole with an occupied slot keeps the entries and their keys.
  lemma SwapHole<E, K(!new)>(before: seq<E>, home: E -> int, key: E -> K, empty: E, hole: nat, p: nat)
    requires hole < |before| && p < |before| && before[hole] == empty && home(empty) < 0
    requires Distinct(before, home, key)
    ensures var after := before[hole := before[p]][p := empty];
      multiset(after) == multiset(before) && Distinct(after, home, key)
  {
  }

  lemma ShiftHole<E, K(!new)>(u: seq<E>, home: E -> int, key: E -> K, empty: E, hole: nat, curr: nat)
    requires hole < |u| && curr < |u| && home(empty) < 0 && Distinct(u[hole := empty], home, key)
    ensures var after := u[hole := u[curr]][curr := empty];
      multiset(after) == multiset(u[hole := empty]) && Distinct(after, home, key)
  {
    var before := u[hole := empty];
    if curr == hole {
      assert u[hole := u[curr]] == u;
    } else {
      assert u[hole := u[curr]][curr := empty] == before[hole := before[curr]][curr := empty];
      SwapHole(before, home, key, empty, hole, curr);
    }
  }

  // A point of the shuffle that began with table `t0` and hole `i0`.
  ghost predicate Shuffled<E, K(!new)>(
      t0: seq<E>, i0: nat, t: seq<E>, hole: nat, home: E -> int, key: E -> K, empty: E, h: nat)
  {
    && SameShape(t0, t, home, h)
    && i0 < |t| && hole < |t| && home(t0[hole]) == h && home(empty) < 0
    && multiset(t[hole := empty]) == multiset(t0[i0 := empty])
    && Distinct(t[hole := empty], home, key)
  }

  lemma MoveHole<E, K(!new)>(
      t0: seq<E>, i0: nat, t: seq<E>, hole: nat, home: E -> int, key: E -> K, empty: E, h: nat, p: nat)
    requires Shuffled(t0, i0, t, hole, home, key, empty, h) && p < |t| && home(t0[p]) == h
    ensures Shuffled(t0, i0, t[hole := t[p]], p, home, key, empty, h)
  {
    ShiftHole(t, home, key, empty, hole, p);
  }

  // The hole ends at the last same-home slot the scan passes, or stays put.
  lemma {:induction false} ShuffleKeeps<E, K(!new)>(
      t0: seq<E>, i0: nat, t: seq<E>, hole: nat, home: E -> int, key: E -> K, empty: E, h: nat, c: nat, stop: nat)
    requires Shuffled(t0, i0, t, hole, home, key, empty, h) && h < |t| && c <= stop <= |t| && 1 <= c
    ensures var (u, last) := Shuffle(t, home, hole, h, c, stop);
      && Shuffled(t0, i0, u, last, home, key, empty, h)
      && (last == hole || c <= Dist(|t|, h, last) < stop)
      && (forall d {:trigger At(|t|, h, d)} :: c <= d < stop && home(t0[At(|t|, h, d)]) == h ==>
            d <= Dist(|t|, h, last))
    decreases stop - c
  {
    if c < stop {
      var p := At(|t|, h, c);
      DistAt(|t|, h, c);
      if home(t[p]) == h {
        MoveHole(t0, i0, t, hole, home, key, empty, h, p);
        ShuffleKeeps(t0, i0, t[hole := t[p]], p, home, key, empty, h, c + 1, stop);
      } else {
        ShuffleKeeps(t0, i0, t, hole, home, key, empty, h, c + 1, stop);
      }
    }
  }

  // The table after deleting the entry in slot `i`.
  function Deleted<E>(t: seq<E>, home: E -> int, empty: E, i: nat): (r: seq<E>)
    requires i < |t| && 0 <= home(t[i]) < |t|
    ensures |r| == |t|
  {
    var h: nat := home(t[i]);
    var (u, hole) := Shuffle(t, home, i, h, 1, ScanEnd(t, home, h, 1));
    u[hole := empty]
  }

  // The slots probed before occupied slot `q` are all occupied.
  ghost predicate PathTaken<E>(t: seq<E>, home: E -> int, q: nat)
    requires q < |t|
  {
    0 <= home(t[q]) < |t| &&
    forall j {:trigger At(|t|, home(t[q]), j)} :: 0 <= j < Dist(|t|, home(t[q]), q) ==>
      home(t[At(|t|, home(t[q]), j)]) >= 0
  }

  ghost predicate AllTaken<E>(t: seq<E>, home: E -> int) {
    forall q {:trigger PathTaken(t, home, q)} :: 0 <= q < |t| && home(t[q]) >= 0 ==> PathTaken(t, home, q)
  }

  // The furthest slot, from `h`, that holds an entry of home `h`.
  ghost predicate IsLastOfHome<E>(t: seq<E>, home: E -> int, h: nat, last: nat) {
    last < |t| && h < |t| && home(t[last]) == h &&
    forall p {:trigger t[p]} :: 0 <= p < |t| && home(t[p]) == h ==> Dist(|t|, h, p) <= Dist(|t|, h, last)
  }

  // Every entry of home `h` lies before the place where the scan stops.
  lemma HomeIsScanned<E>(t: seq<E>, home: E -> int, h: nat, p: nat)
    requires AllTaken(t, home) && h < |t| && 1 < |t| && p < |t| && home(t[p]) == h
    ensures Dist(|t|, h, p) < ScanEnd(t, home, h, 1)
  {
    assert PathTaken(t, home, p);
    assert p == At(|t|, h, Dist(|t|, h, p));
  }

  ghost predicate DeletedOne<E, K(!new)>(
      t: seq<E>, u: seq<E>, home: E -> int, key: E -> K, empty: E, h: nat, last: nat)
  {
    && |u| == |t| && IsLastOfHome(t, home, h, last) && home(empty) < 0
    && u[last] == empty && Distinct(u, home, key)
    && (forall p {:trigger u[p]} :: 0 <= p < |t| && home(t[p]) != h ==> u[p] == t[p])
    && (forall p {:trigger u[p]} :: 0 <= p < |t| && home(t[p]) == h && p != last ==> home(u[p]) == h)
  }

  // A delete keeps the other entries as a permutation, touches only slots of the
  // same home, and empties exactly the last of them.
  lemma DeletePermutes<E, K(!new)>(t: seq<E>, home: E -> int, key: E -> K, empty: E, i: nat) returns (last: nat)
    requires AllTaken(t, home) && Distinct(t, home, key) && home(empty) < 0 && 1 < |t|
    requires i < |t| && 0 <= home(t[i]) < |t|
    ensures var u := Deleted(t, home, empty, i);
      multiset(u) == multiset(t[i := empty]) && DeletedOne(t, u, home, key, empty, home(t[i]), last)
  {
    var h: nat := home(t[i]);
    var stop := ScanEnd(t, home, h, 1);
    assert Distinct(t[i := empty], home, key);
    ShuffleKeeps(t, i, t, i, home, key, empty, h, 1, stop);
    last := Shuffle(t, home, i, h, 1, stop).1;
    forall p {:trigger t[p]} | 0 <= p < |t| && home(t[p]) == h
      ensures Dist(|t|, h, p) <= Dist(|t|, h, last)
    {
      HomeIsScanned(t, home, h, p);
      assert p == At(|t|, h, Dist(|t|, h, p));
    }
  }

  // Slot `last` lies on the probe path of the entry in slot `q`.
  ghost predicate Crosses<E>(u: seq<E>, home: E -> int, q: nat, last: nat)
    requires q < |u| && last < |u| && 0 <= home(u[q]) < |u|
  {
    Dist(|u|, home(u[q]), last) < Dist(|u|, home(u[q]), q)
  }

  // The probe path of an entry stays occupied exactly when the entry is of the
  // deleted home or its path misses the emptied slot.
  lemma PathAfterDelete<E, K(!new)>(
      t: seq<E>, u: seq<E>, home: E -> int, key: E -> K, empty: E, h: nat, last: nat, q: nat)
    requires AllTaken(t, home) && DeletedOne(t, u, home, key, empty, h, last)
    requires q < |u| && 0 <= home(u[q]) < |u|
    ensures PathTaken(u, home, q) <==> home(u[q]) == h || !Crosses(u, home, q, last)
  {
    var g: nat := home(u[q]);
    assert PathTaken(t, home, q);
    assert home(t[q]) == g;
    if g == h || !Crosses(u, home, q, last) {
      forall j {:trigger At(|u|, g, j)} | 0 <= j < Dist(|u|, g, q)
        ensures home(u[At(|u|, g, j)]) >= 0
      {
        var p := At(|u|, g, j);
        DistAt(|u|, g, j);
        assert home(t[p]) >= 0 && p != last;
        assert home(t[p]) == h || u[p] == t[p];
      }
    } else {
      assert u[At(|u|, g, Dist(|u|, g, last))] == empty;
    }
  }

  // The shuffle loop when nothing stops it: the table, the hole and the slot to
  // look at next, after `n` rounds.
  function Spin<E>(t: seq<E>, home: E -> int, i: nat, h: nat, n: nat): (r: (seq<E>, nat, nat))
    requires i < |t| && h < |t|
    ensures |r.0| == |t| && r.1 < |t| && r.2 < |t|
  {
    if n == 0 then (t, i, At(|t|, h, 1))
    else
      var (u, hole, curr) := Spin(t, home, i, h, n - 1);
      var next := At(|t|, curr, 1);
      if home(u[curr]) == h then (u[hole := u[curr]], curr, next) else (u, hole, next)
  }

  lemma {:induction false} SpinKeepsOccupied<E>(t: seq<E>, home: E -> int, i: nat, h: nat, n: nat)
    requires i < |t| && h < |t| && home(t[i]) >= 0
    ensures var (u, hole, curr) := Spin(t, home, i, h, n);
      && home(u[hole]) >= 0
      && (n < |t| ==> curr == At(|t|, h, n + 1))
      && forall p {:trigger u[p]} {:trigger t[p]} :: 0 <= p < |t| ==> (home(u[p]) < 0 <==> home(t[p]) < 0)
  {
    if n > 0 {
      SpinKeepsOccupied(t, home, i, h, n - 1);
    }
  }

  // The loop is about to stop after `n` rounds.
  predicate StopsAt<E>(t: seq<E>, home: E -> int, i: nat, h: nat, n: nat)
    requires i < |t| && h < |t|
  {
    var (u, _, curr) := Spin(t, home, i, h, n);
    home(u[curr]) < 0
  }

  // The loop stops, at some round, exactly when the table has an empty slot.
  lemma StopsIffEmptySlot<E>(t: seq<E>, home: E -> int, i: nat, h: nat)
    requires i < |t| && h < |t| && home(t[i]) >= 0
    ensures (exists n: nat :: StopsAt(t, home, i, h, n)) <==> (exists p :: 0 <= p < |t| && home(t[p]) < 0)
  {
    if n: nat :| StopsAt(t, home, i, h, n) {
      SpinKeepsOccupied(t, home, i, h, n);
    }
    if p :| 0 <= p < |t| && home(t[p]) < 0 {
      var d := Dist(|t|, h, p);
      var n: nat := if d == 0 then |t| - 1 else d - 1;
      SpinKeepsOccupied(t, home, i, h, n);
      assert StopsAt(t, home, i, h, n);
    }
  }

  // ----- What the loop leaves, in any table

  ghost predicate Stops<E>(t: seq<E>, home: E -> int, i: nat, h: nat)
    requires i < |t| && h < |t|
  {
    exists n: nat :: StopsAt(t, home, i, h, n)
  }

  // ----- A scan whose hole is empty from the start

  // The first round that moves an entry fills slot `i`, and no round empties a slot.
  ghost predicate HoleFilled<E>(t: seq<E>, u: seq<E>, home: E -> int, i: nat, hole: nat) {
    && |u| == |t| && hole < |u| && home(u[hole]) >= 0
    && forall p {:trigger u[p]} {:trigger t[p]} :: 0 <= p < |t| ==> (home(u[p]) < 0 <==> p != i && home(t[p]) < 0)
  }

  // One of the first `n` slots of the scan holds an entry of home `h`.
  ghost predicate Meets<E>(t: seq<E>, home: E -> int, h: nat, n: nat)
    requires h < |t|
  {
    exists d {:trigger At(|t|, h, d)} :: 1 <= d <= n && d <= |t| && home(t[At(|t|, h, d)]) == h
  }

  lemma {:induction false} SpinFromEmpty<E>(t: seq<E>, home: E -> int, i: nat, h: nat, n: nat)
    requires i < |t| && h < |t| && home(t[i]) < 0
    ensures var (u, hole, curr) := Spin(t, home, i, h, n);
      && (n < |t| ==> curr == At(|t|, h, n + 1))
      && ((u == t && hole == i) || HoleFilled(t, u, home, i, hole))
      && (Meets(t, home, h, n) ==> HoleFilled(t, u, home, i, hole))
      && (n <= |t| && !Meets(t, home, h, n) ==> u == t && hole == i)
  {
    if n > 0 {
      SpinFromEmpty(t, home, i, h, n - 1);
      assert Meets(t, home, h, n) ==> Meets(t, home, h, n - 1) || (n <= |t| && home(t[At(|t|, h, n)]) == h);
      assert Meets(t, home, h, n - 1) ==> Meets(t, home, h, n);
      assert n <= |t| && home(t[At(|t|, h, n)]) == h ==> Meets(t, home, h, n);
    }
  }

  // The round after which the scan looks at slot `p`.
  function RoundAt(n: nat, h: nat, p: nat): (r: nat)
    requires h < n && p < n
    ensures r < n && At(n, h, r + 1) == p
  {
    if Dist(n, h, p) == 0 then n - 1 else Dist(n, h, p) - 1
  }

  // Then it stops exactly when another slot is empty or it reaches slot `i` before
  // any entry of home `h`.
  lemma StopsFromEmpty<E>(t: seq<E>, home: E -> int, i: nat, h: nat)
    requires i < |t| && h < |t| && home(t[i]) < 0
    ensures Stops(t, home, i, h) <==>
      (exists p :: 0 <= p < |t| && p != i && home(t[p]) < 0) || !Meets(t, home, h, RoundAt(|t|, h, i))
  {
    var r := RoundAt(|t|, h, i);
    if p :| 0 <= p < |t| && p != i && home(t[p]) < 0 {
      SpinFromEmpty(t, home, i, h, RoundAt(|t|, h, p));
      assert StopsAt(t, home, i, h, RoundAt(|t|, h, p));
    } else if !Meets(t, home, h, r) {
      SpinFromEmpty(t, home, i, h, r);
      assert StopsAt(t, home, i, h, r);
    } else {
      forall n: nat
        ensures !StopsAt(t, home, i, h, n)
      {
        SpinFromEmpty(t, home, i, h, n);
        assert n < r ==> At(|t|, h, n + 1) != i;
        assert n >= r ==> Meets(t, home, h, n);
      }
    }
  }

  ghost function FirstStop<E>(t: seq<E>, home: E -> int, i: nat, h: nat, n: nat, bound: nat): (r: nat)
    requires i < |t| && h < |t| && n <= bound && StopsAt(t, home, i, h, bound)
    ensures n <= r <= bound && StopsAt(t, home, i, h, r)
    ensures forall m {:trigger StopsAt(t, home, i, h, m)} :: n <= m < r ==> !StopsAt(t, home, i, h, m)
    decreases bound - n
  {
    if StopsAt(t, home, i, h, n) then n else FirstStop(t, home, i, h, n + 1, bound)
  }

  // The number of rounds the loop makes.
  ghost function Rounds<E>(t: seq<E>, home: E -> int, i: nat, h: nat): (r: nat)
    requires i < |t| && h < |t| && Stops(t, home, i, h)
    ensures StopsAt(t, home, i, h, r)
    ensures forall m {:trigger StopsAt(t, home, i, h, m)} :: 0 <= m < r ==> !StopsAt(t, home, i, h, m)
  {
    var bound: nat :| StopsAt(t, home, i, h, bound);
    FirstStop(t, home, i, h, 0, bound)
  }

  // The table when the loop has stopped and the hole has been emptied.
  ghost function Cleared<E>(t: seq<E>, home: E -> int, empty: E, i: nat, h: nat): (r: seq<E>)
    requires i < |t| && h < |t| && Stops(t, home, i, h)
    ensures |r| == |t|
  {
    var (u, hole, _) := Spin(t, home, i, h, Rounds(t, home, i, h));
    u[hole := empty]
  }

  // Whatever the table, and even from an empty slot, the loop only rearranges the
  // other entries.
  lemma {:induction false} SpinPermutes<E, K(!new)>(
      t: seq<E>, home: E -> int, key: E -> K, empty: E, i: nat, h: nat, n: nat)
    requires i < |t| && h < |t| && home(empty) < 0 && Distinct(t[i := empty], home, key)
    ensures var (u, hole, _) := Spin(t, home, i, h, n);
      multiset(u[hole := empty]) == multiset(t[i := empty]) && Distinct(u[hole := empty], home, key)
  {
    if n > 0 {
      SpinPermutes(t, home, key, empty, i, h, n - 1);
      var (u, hole, curr) := Spin(t, home, i, h, n - 1);
      if home(u[curr]) == h {
        ShiftHole(u, home, key, empty, hole, curr);
      }
    }
  }

  lemma ClearedPermutes<E, K(!new)>(t: seq<E>, home: E -> int, key: E -> K, empty: E, i: nat, h: nat)
    requires i < |t| && h < |t| && home(empty) < 0 && Distinct(t[i := empty], home, key) && Stops(t, home, i, h)
    ensures var u := Cleared(t, home, empty, i, h);
      multiset(u) == multiset(t[i := empty]) && Distinct(u, home, key)
  {
    SpinPermutes(t, home, key, empty, i, h, Rounds(t, home, i, h));
  }

  // Up to the scan's end the rounds are those of the shuffle.
  lemma {:induction false} SpinIsShuffle<E>(t: seq<E>, home: E -> int, i: nat, h: nat, n: nat, stop: nat)
    requires i < |t| && h < |t| && home(t[i]) >= 0 && n < stop <= |t|
    ensures var (u, hole, _) := Spin(t, home, i, h, n);
      Shuffle(u, home, hole, h, n + 1, stop) == Shuffle(t, home, i, h, 1, stop)
  {
    if n > 0 {
      SpinIsShuffle(t, home, i, h, n - 1, stop);
      SpinKeepsOccupied(t, home, i, h, n - 1);
    }
  }

  // From an occupied slot the loop deletes as the shuffle does.
  lemma ClearedIsDeleted<E>(t: seq<E>, home: E -> int, empty: E, i: nat)
    requires i < |t| && 1 < |t| && 0 <= home(t[i]) < |t| && Stops(t, home, i, home(t[i]))
    ensures Cleared(t, home, empty, i, home(t[i])) == Deleted(t, home, empty, i)
  {
    var h: nat := home(t[i]);
    var stop, n := ScanEnd(t, home, h, 1), Rounds(t, home, i, h);
    StopsIffEmptySlot(t, home, i, h);
    var p :| 0 <= p < |t| && home(t[p]) < 0;
    assert p == At(|t|, h, Dist(|t|, h, p));
    LastRound(t, home, i, h, stop);
    SpinIsShuffle(t, home, i, h, stop - 1, stop);
  }

  // The loop stops where the scan ends.
  lemma LastRound<E>(t: seq<E>, home: E -> int, i: nat, h: nat, stop: nat)
    requires i < |t| && h < |t| && home(t[i]) >= 0 && stop == ScanEnd(t, home, h, 1) && 1 < |t|
    requires Stops(t, home, i, h)
    ensures Rounds(t, home, i, h) == stop - 1
  {
    var n := Rounds(t, home, i, h);
    StopsIffEmptySlot(t, home, i, h);
    SpinKeepsOccupied(t, home, i, h, stop - 1);
    SpinKeepsOccupied(t, home, i, h, n);
    var p :| 0 <= p < |t| && home(t[p]) < 0;
    assert p == At(|t|, h, Dist(|t|, h, p));
    assert stop == |t| ==> p == h;
    assert StopsAt(t, home, i, h, stop - 1);
  }
}
