// Port range lists. Every class has 32 slots of a flat table; a list is the
// ranges up to the first one that begins at 0.
module AccessLists {
  const MAX_NUM_ACCESS_LISTS: nat := 256
  const MAX_NUM_ACCESS_RANGES: nat := 32
  const TABLE_SIZE: nat := 8192

  datatype Range = Range(begin: nat, end: nat)

  const NO_RANGE := Range(0, 0)

  // A range beginning at 0 ends the list somewhere at or after `i`.
  ghost predicate Terminated(list: seq<Range>, i: nat) {
    exists k :: i <= k < |list| && list[k].begin == 0
  }

  // The slot that ends the list starting at `i`.
  function ListEnd(list: seq<Range>, i: nat): (n: nat)
    requires Terminated(list, i)
    ensures i <= n < |list| && list[n].begin == 0
    ensures forall k :: i <= k < n ==> list[k].begin != 0
    decreases |list| - i
  {
    if list[i].begin == 0 then i else ListEnd(list, i + 1)
  }

  // The scan, from slot `i`: skip ranges that end below the port; the first one
  // that does not decides.
  predicate Scan(list: seq<Range>, i: nat, port: nat)
    requires Terminated(list, i)
    decreases |list| - i
  {
    if port <= list[i].end then list[i].begin <= port
    else list[i].begin != 0 && Scan(list, i + 1, port)
  }

  // Ranges in ascending order, none empty.
  ghost predicate Sorted(list: seq<Range>, i: nat)
    requires Terminated(list, i)
  {
    && (forall k {:trigger list[k]} :: i <= k < ListEnd(list, i) ==> list[k].begin <= list[k].end)
    && (forall j, k {:trigger list[j], list[k]} :: i <= j < k < ListEnd(list, i) ==> list[j].end < list[k].begin)
  }

  // The port lies in one of the list's ranges.
  ghost predicate InRanges(list: seq<Range>, i: nat, port: nat)
    requires Terminated(list, i)
  {
    exists k :: i <= k < ListEnd(list, i) && list[k].begin <= port <= list[k].end
  }

  // A sorted list's scan is membership in its ranges, except that the slot that
  // ends the list acts as one more range, from 0 to its own end, for the ports
  // above all the others.
  lemma {:induction false} ScanIsMembership(list: seq<Range>, i: nat, port: nat)
    requires Terminated(list, i) && Sorted(list, i)
    ensures Scan(list, i, port) <==>
      InRanges(list, i, port) ||
      (port <= list[ListEnd(list, i)].end && forall k :: i <= k < ListEnd(list, i) ==> list[k].end < port)
    decreases |list| - i
  {
    var n := ListEnd(list, i);
    if port <= list[i].end {
      if list[i].begin <= port && i < n {
        assert InRanges(list, i, port);
      }
    } else if i < n {
      ScanIsMembership(list, i + 1, port);
      assert ListEnd(list, i + 1) == n;
    }
  }

  // With the usual ending slot of two zeros, the scan is membership for every port
  // but 0, and port 0 is granted exactly by the empty list.
  lemma ZeroPort(list: seq<Range>, i: nat, port: nat)
    requires Terminated(list, i) && Sorted(list, i) && list[ListEnd(list, i)] == NO_RANGE
    ensures Scan(list, i, port) <==> InRanges(list, i, port) || (port == 0 && ListEnd(list, i) == i)
  {
    ScanIsMembership(list, i, port);
    var n := ListEnd(list, i);
    if port == 0 && i < n {
      assert list[i].begin != 0 && list[i].begin <= list[i].end;
    }
  }

  // ----- The built-in lists of class 0

  function Table(ranges: seq<Range>): (t: seq<Range>)
    requires |ranges| < MAX_NUM_ACCESS_RANGES
    ensures |t| == TABLE_SIZE
    ensures forall k :: 0 <= k < TABLE_SIZE ==> t[k] == if k < |ranges| then ranges[k] else NO_RANGE
  {
    seq(TABLE_SIZE, k requires 0 <= k => if k < |ranges| then ranges[k] else NO_RANGE)
  }

  const BOOT_UDP := [Range(1, 68), Range(70, 110), Range(112, 0xFFFF)]
  const RELEASED_UDP := [Range(0, 68), Range(70, 110), Range(112, 0xFFFF)]

  // The start-up UDP list of class 0 blocks TFTP (69), the port mapper (111) and
  // port 0 only.
  lemma BootUdp(port: nat)
    requires port < 0x10000
    ensures Terminated(Table(BOOT_UDP), 0)
    ensures Scan(Table(BOOT_UDP), 0, port) <==> port != 0 && port != 69 && port != 111
  {
    var t := Table(BOOT_UDP);
    assert t[3].begin == 0;
    assert t[0] == BOOT_UDP[0] && t[1] == BOOT_UDP[1] && t[2] == BOOT_UDP[2];
    assert Scan(t, 0, port) == if port <= 68 then 1 <= port else Scan(t, 1, port);
    assert Scan(t, 1, port) == if port <= 110 then 70 <= port else Scan(t, 2, port);
    assert Scan(t, 2, port) == (112 <= port);
  }

  // After a release of the classes its first range begins at 0, which ends the
  // list: only ports 0 to 68 are left.
  lemma ReleasedUdp(port: nat)
    requires port < 0x10000
    ensures Terminated(Table(RELEASED_UDP), 0)
    ensures Scan(Table(RELEASED_UDP), 0, port) <==> port <= 68
  {
    var t := Table(RELEASED_UDP);
    assert t[0] == RELEASED_UDP[0];
  }
}
