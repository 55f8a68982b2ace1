// Counting lemmas about finite sets.
module FiniteSets {
  lemma Pick<T>(s: set<T>) returns (x: T)
    requires s != {}
    ensures x in s
  {
    x :| x in s;
  }

  lemma SubsetSize<T>(a: set<T>, b: set<T>)
    requires a <= b
    ensures |a| <= |b|
  {
    assert b == a + (b - a);
  }

  lemma {:induction false} RangeSize(n: nat, range: set<int>)
    requires forall i :: i in range <==> 0 <= i < n
    ensures |range| == n
  {
    if n == 0 {
      if range != {} {
        var i := Pick(range);
        assert false;
      }
    } else {
      RangeSize(n - 1, range - {n - 1});
    }
  }

  // An injective image is as large as its source.
  lemma {:induction false} ImageSize<A, B>(source: set<A>, f: map<A, B>, image: set<B>)
    requires source <= f.Keys
    requires forall x, y :: x in source && y in source && f[x] == f[y] ==> x == y
    requires forall b :: b in image <==> exists x :: x in source && f[x] == b
    ensures |image| == |source|
  {
    if source == {} {
      if image != {} {
        var b := Pick(image);
        assert false;
      }
    } else {
      var x := Pick(source);
      ImageSize(source - {x}, f, image - {f[x]});
    }
  }

  // A set of slots has all `n` of them exactly when none is missing.
  lemma CountSlots(n: nat, slots: set<int>)
    requires forall i :: i in slots ==> 0 <= i < n
    ensures |slots| <= n
    ensures |slots| < n <==> exists i :: 0 <= i < n && i !in slots
  {
    var all := set i {:trigger i in slots} | 0 <= i < n;
    RangeSize(n, all);
    SubsetSize(slots, all);
    if i :| 0 <= i < n && i !in slots {
      SubsetSize(slots, all - {i});
    } else {
      assert slots == all;
    }
  }
}
